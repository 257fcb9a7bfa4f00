/**
 * `TemplateParam<T>` of src/types/TemplateParam.ts, the type that names the
 * parameters a message template demands, written as functions over the
 * template's text. Type-level `Uppercase`/`Lowercase` are a parameter.
 */
module TemplateParam {
  import opened Wrappers
  import Text
  import ParamRegex
  import Values

  /** The case mappings `Uppercase<S>` and `Lowercase<S>` apply to a string literal type. */
  datatype CaseMapping = CaseMapping(upper: string -> string, lower: string -> string)

  /** `IsLetter<C>`: a character is a letter unless both mappings leave it as it is. */
  predicate IsLetter(c: char, cm: CaseMapping) {
    !(cm.upper([c]) == [c] && cm.lower([c]) == [c])
  }

  /** `ParamGuard<T>`: the name itself when every character is a letter, nothing otherwise. */
  predicate ParamGuard(name: string, cm: CaseMapping)
    ensures ParamGuard(name, cm) <==> forall i | 0 <= i < |name| :: IsLetter(name[i], cm)
  {
    if name == [] then true
    else IsLetter(name[0], cm) && ParamGuard(name[1..], cm)
  }

  /** A template split at its first `{…}`: the text before, between and after. */
  datatype Braces = Braces(before: string, inner: string, after: string)

  /** The first index at or after `from` holding `c`. */
  function IndexOf(s: string, c: char, from: nat): (r: Option<nat>)
    requires from <= |s|
    ensures r.Some? ==> from <= r.value < |s| && s[r.value] == c
    ensures r.Some? ==> forall i | from <= i < r.value :: s[i] != c
    ensures r.None? ==> forall i | from <= i < |s| :: s[i] != c
    decreases |s| - from
  {
    if from == |s| then None else if s[from] == c then Some(from) else IndexOf(s, c, from + 1)
  }

  /**
   * How `T extends `${infer _}{${infer Param}}${infer Rest}`` matches: the
   * first `{`, then the first `}` after it.
   */
  function FirstBraces(s: string): (r: Option<Braces>)
    ensures r.Some? ==> s == r.value.before + "{" + r.value.inner + "}" + r.value.after
    ensures r.Some? ==> '{' !in r.value.before && '}' !in r.value.inner
    ensures r.None? <==> forall i, j | 0 <= i < j < |s| :: !(s[i] == '{' && s[j] == '}')
  {
    match IndexOf(s, '{', 0)
    case None => None
    case Some(i) =>
      match IndexOf(s, '}', i + 1)
      case None => None
      case Some(j) =>
        var b := Braces(s[..i], s[i + 1..j], s[j + 1..]);
        assert s == b.before + "{" + b.inner + "}" + b.after by {
          assert s == s[..i] + [s[i]] + s[i + 1..j] + [s[j]] + s[j + 1..];
        }
        Some(b)
  }

  /** The text of every `{…}` in scan order, untrimmed: the keys `Interpolate` reads. */
  function Scan(s: string): seq<string>
    decreases |s|
  {
    match FirstBraces(s)
    case None => []
    case Some(b) => [b.inner] + Scan(b.after)
  }

  function Trimmed(names: set<string>): set<string> {
    set n | n in names :: Text.Trim(n)
  }

  /** The guard applied to each member of a union on its own. */
  function Guarded(names: set<string>, cm: CaseMapping): set<string> {
    set n | n in names && ParamGuard(n, cm)
  }

  /**
   * `TemplateParam<T>` as evidently intended: the trimmed union of the first
   * `{…}`'s text and the parameters of the rest, each name kept on its own
   * when it passes the guard. `ParamsAsWritten` is the type as TypeScript
   * evaluates it.
   */
  function Params(s: string, cm: CaseMapping): (r: set<string>)
    ensures FirstBraces(s).None? ==> r == {}
    decreases |s|
  {
    match FirstBraces(s)
    case None => {}
    case Some(b) => Guarded(Trimmed({b.inner} + Params(b.after, cm)), cm)
  }

  /** The names a template demands, read off the scan at once. */
  function FlatParams(s: string, cm: CaseMapping): set<string> {
    set p | p in Scan(s) && ParamGuard(Text.Trim(p), cm) :: Text.Trim(p)
  }

  lemma TrimStartOfTrimmed(s: string)
    requires s == [] || !Text.IsSpace(s[0])
    ensures Text.TrimStart(s) == s
  {
  }

  lemma TrimEndOfTrimmed(s: string)
    requires s == [] || !Text.IsSpace(s[|s| - 1])
    ensures Text.TrimEnd(s) == s
  {
  }

  /** Trimming twice is trimming once. */
  lemma TrimIdempotent(s: string)
    ensures Text.Trim(Text.Trim(s)) == Text.Trim(s)
  {
    var a := Text.TrimStart(s);
    var t := Text.TrimEnd(a);
    assert t == [] || !Text.IsSpace(t[0]) by {
      if t != [] { assert t[0] == a[0]; }
    }
    TrimStartOfTrimmed(t);
    TrimEndOfTrimmed(t);
  }

  /** The names `{…}` texts contribute: trimmed, and kept when they pass the guard. */
  function Kept(p: string, cm: CaseMapping): set<string> {
    if ParamGuard(Text.Trim(p), cm) then {Text.Trim(p)} else {}
  }

  lemma ImageFixed(f: string -> string, p: string, rest: set<string>)
    requires forall n | n in rest :: f(n) == n
    ensures (set n | n in {p} + rest :: f(n)) == {f(p)} + rest
  {
    var all := {p} + rest;
    forall n | n in rest ensures n in (set m | m in all :: f(m)) {
      assert n in all && f(n) == n;
    }
  }

  lemma TrimmedFixed(p: string, rest: set<string>)
    requires forall n | n in rest :: Text.Trim(n) == n
    ensures Trimmed({p} + rest) == {Text.Trim(p)} + rest
  {
    ImageFixed(Text.Trim, p, rest);
  }

  lemma GuardedFixed(t: string, rest: set<string>, cm: CaseMapping)
    requires forall n | n in rest :: ParamGuard(n, cm)
    ensures Guarded({t} + rest, cm) == (if ParamGuard(t, cm) then {t} else {}) + rest
  {
  }

  /** Names that are already trimmed and guarded come through both steps unchanged. */
  lemma GuardedTrimmedFixed(p: string, rest: set<string>, cm: CaseMapping)
    requires forall n | n in rest :: Text.Trim(n) == n && ParamGuard(n, cm)
    ensures Guarded(Trimmed({p} + rest), cm) == Kept(p, cm) + rest
  {
    TrimmedFixed(p, rest);
    GuardedFixed(Text.Trim(p), rest, cm);
  }

  /** One pass over the scan, split at its first element. */
  lemma FlatParamsCons(s: string, b: Braces, cm: CaseMapping)
    requires FirstBraces(s) == Some(b)
    ensures FlatParams(s, cm) == Kept(b.inner, cm) + FlatParams(b.after, cm)
  {
    assert Scan(s) == [b.inner] + Scan(b.after);
  }

  /** What one pass over the scan yields is trimmed and guarded. */
  lemma FlatParamsNormal(s: string, cm: CaseMapping)
    ensures forall n | n in FlatParams(s, cm) :: Text.Trim(n) == n && ParamGuard(n, cm)
  {
    forall n | n in FlatParams(s, cm) ensures Text.Trim(n) == n && ParamGuard(n, cm) {
      var p :| p in Scan(s) && ParamGuard(Text.Trim(p), cm) && n == Text.Trim(p);
      TrimIdempotent(p);
    }
  }

  /**
   * The nested recursion of the type equals one pass over the scan: every
   * `{…}` contributes its trimmed text when that passes the guard.
   */
  lemma {:induction false} ParamsFlat(s: string, cm: CaseMapping)
    ensures Params(s, cm) == FlatParams(s, cm)
    decreases |s|
  {
    match FirstBraces(s)
    case None =>
    case Some(b) =>
      ParamsFlat(b.after, cm);
      FlatParamsNormal(b.after, cm);
      GuardedTrimmedFixed(b.inner, FlatParams(b.after, cm), cm);
      FlatParamsCons(s, b, cm);
  }

  /** A template without any `{` demands nothing. */
  lemma NoBraceNoParams(s: string, cm: CaseMapping)
    requires '{' !in s
    ensures Params(s, cm) == {}
  {
  }

  // ---------------------------------------------------------------------
  // The type as TypeScript evaluates it
  // ---------------------------------------------------------------------

  /**
   * `ParamGuard<T>` applied to a union: the conditional distributes over the
   * members through `U`, but its last branch answers `T`, the whole union,
   * so a single member that passes keeps every member.
   */
  function GuardedAsWritten(names: set<string>, cm: CaseMapping): set<string> {
    if exists n | n in names :: ParamGuard(n, cm) then names else {}
  }

  /** `TemplateParam<T>` with the union-wide guard the type as written applies. */
  function ParamsAsWritten(s: string, cm: CaseMapping): set<string>
    decreases |s|
  {
    match FirstBraces(s)
    case None => {}
    case Some(b) => GuardedAsWritten(Trimmed({b.inner} + ParamsAsWritten(b.after, cm)), cm)
  }

  /** The `j`-th `{…}` text, trimmed, passes the guard. */
  predicate PassesAt(ps: seq<string>, j: int, cm: CaseMapping)
    requires 0 <= j < |ps|
  {
    ParamGuard(Text.Trim(ps[j]), cm)
  }

  /** The index of the last `{…}` text whose trimmed form passes the guard, -1 when none does. */
  function LastGuarded(ps: seq<string>, cm: CaseMapping): (r: int)
    ensures -1 <= r < |ps|
    ensures r >= 0 ==> PassesAt(ps, r, cm)
  {
    if ps == [] then -1
    else
      var k := LastGuarded(ps[1..], cm);
      if k >= 0 then (assert ps[1..][k] == ps[k + 1]; k + 1)
      else if PassesAt(ps, 0, cm) then 0
      else -1
  }

  /** No `{…}` text after the last guarded one passes the guard. */
  lemma {:induction false} LastGuardedIsLast(ps: seq<string>, j: int, cm: CaseMapping)
    requires LastGuarded(ps, cm) < j < |ps|
    ensures !PassesAt(ps, j, cm)
  {
    var k := LastGuarded(ps[1..], cm);
    if j > 0 {
      LastGuardedIsLast(ps[1..], j - 1, cm);
      assert ps[1..][j - 1] == ps[j];
    }
  }

  /** The trimmed texts of a list of `{…}` texts. */
  function TrimmedAll(qs: seq<string>): set<string> {
    if qs == [] then {} else {Text.Trim(qs[0])} + TrimmedAll(qs[1..])
  }

  lemma {:induction false} TrimmedAllMembers(qs: seq<string>, n: string)
    ensures n in TrimmedAll(qs) <==> exists i | 0 <= i < |qs| :: n == Text.Trim(qs[i])
  {
    if qs != [] {
      TrimmedAllMembers(qs[1..], n);
      if n in TrimmedAll(qs[1..]) {
        var i :| 0 <= i < |qs[1..]| && n == Text.Trim(qs[1..][i]);
        assert qs[i + 1] == qs[1..][i];
      }
      if exists i | 0 <= i < |qs| :: n == Text.Trim(qs[i]) {
        var i :| 0 <= i < |qs| && n == Text.Trim(qs[i]);
        if i > 0 {
          assert qs[1..][i - 1] == qs[i];
        }
      }
    }
  }

  /** Every trimmed `{…}` text up to and including the last one that passes the guard. */
  function UpToLastGuarded(ps: seq<string>, cm: CaseMapping): set<string> {
    TrimmedAll(ps[..LastGuarded(ps, cm) + 1])
  }

  lemma UpToLastGuardedCons(p: string, rest: seq<string>, cm: CaseMapping)
    ensures UpToLastGuarded([p] + rest, cm) ==
      if LastGuarded(rest, cm) >= 0 || ParamGuard(Text.Trim(p), cm)
      then {Text.Trim(p)} + UpToLastGuarded(rest, cm)
      else {}
  {
    var ps := [p] + rest;
    assert ps[1..] == rest;
    var k := LastGuarded(rest, cm);
    if k >= 0 {
      assert ps[..k + 2] == [p] + rest[..k + 1];
      assert ps[..k + 2][1..] == rest[..k + 1];
    } else {
      assert rest[..k + 1] == [];
      if ParamGuard(Text.Trim(p), cm) {
        assert ps[..1] == [p];
        assert ps[..1][1..] == [];
      } else {
        assert ps[..0] == [];
      }
    }
  }

  /** What the guard keeps is already trimmed, and keeps something only when some name passes. */
  lemma UpToLastGuardedNormal(ps: seq<string>, cm: CaseMapping)
    ensures forall n | n in UpToLastGuarded(ps, cm) :: Text.Trim(n) == n
    ensures UpToLastGuarded(ps, cm) != {} <==> LastGuarded(ps, cm) >= 0
    ensures LastGuarded(ps, cm) >= 0 ==> Text.Trim(ps[LastGuarded(ps, cm)]) in UpToLastGuarded(ps, cm)
  {
    var kept := ps[..LastGuarded(ps, cm) + 1];
    forall n | n in UpToLastGuarded(ps, cm) ensures Text.Trim(n) == n {
      TrimmedAllMembers(kept, n);
      var i :| 0 <= i < |kept| && n == Text.Trim(kept[i]);
      TrimIdempotent(kept[i]);
    }
    var l := LastGuarded(ps, cm);
    if l >= 0 {
      TrimmedAllMembers(kept, Text.Trim(ps[l]));
      assert kept[l] == ps[l];
    } else {
      assert kept == [];
    }
  }

  /**
   * The type as written, read off the scan: every trimmed `{…}` text up to
   * and including the last one made of letters only, whatever the earlier
   * ones are made of.
   */
  lemma {:induction false} ParamsAsWrittenFlat(s: string, cm: CaseMapping)
    ensures ParamsAsWritten(s, cm) == UpToLastGuarded(Scan(s), cm)
    decreases |s|
  {
    match FirstBraces(s)
    case None =>
    case Some(b) =>
      ParamsAsWrittenFlat(b.after, cm);
      AsWrittenStep(b.inner, ParamsAsWritten(b.after, cm), Scan(b.after), cm);
      assert Scan(s) == [b.inner] + Scan(b.after);
  }

  /** One level of the type's recursion adds the next `{…}` text to what the guard keeps. */
  lemma AsWrittenStep(inner: string, r: set<string>, rest: seq<string>, cm: CaseMapping)
    requires r == UpToLastGuarded(rest, cm)
    ensures GuardedAsWritten(Trimmed({inner} + r), cm) == UpToLastGuarded([inner] + rest, cm)
  {
    UpToLastGuardedNormal(rest, cm);
    UpToLastGuardedCons(inner, rest, cm);
    TrimmedFixed(inner, r);
    var t := Text.Trim(inner);
    if LastGuarded(rest, cm) >= 0 {
      GuardedAsWrittenKeeps({t} + r, Text.Trim(rest[LastGuarded(rest, cm)]), cm);
    } else {
      assert {t} + r == {t};
      if ParamGuard(t, cm) {
        GuardedAsWrittenKeeps({t}, t, cm);
      } else {
        GuardedAsWrittenDrops(t, cm);
      }
    }
  }

  lemma GuardedAsWrittenKeeps(names: set<string>, w: string, cm: CaseMapping)
    requires w in names && ParamGuard(w, cm)
    ensures GuardedAsWritten(names, cm) == names
  {
  }

  lemma GuardedAsWrittenDrops(t: string, cm: CaseMapping)
    requires !ParamGuard(t, cm)
    ensures GuardedAsWritten({t}, cm) == {}
  {
  }

  /** A `{…}` text that passes the guard is kept by the type as written. */
  lemma PassingKept(ps: seq<string>, i: int, cm: CaseMapping)
    requires 0 <= i < |ps| && PassesAt(ps, i, cm)
    ensures Text.Trim(ps[i]) in UpToLastGuarded(ps, cm)
  {
    if i > LastGuarded(ps, cm) {
      LastGuardedIsLast(ps, i, cm);
    }
    var kept := ps[..LastGuarded(ps, cm) + 1];
    assert kept[i] == ps[i];
    TrimmedAllMembers(kept, Text.Trim(ps[i]));
  }

  /** Where a name the type as written keeps comes from. */
  lemma KeptAt(ps: seq<string>, n: string, cm: CaseMapping) returns (i: int)
    requires n in UpToLastGuarded(ps, cm)
    ensures 0 <= i <= LastGuarded(ps, cm) && n == Text.Trim(ps[i])
  {
    var kept := ps[..LastGuarded(ps, cm) + 1];
    TrimmedAllMembers(kept, n);
    i :| 0 <= i < |kept| && n == Text.Trim(kept[i]);
    assert kept[i] == ps[i];
  }

  /** Every name the per-name guard keeps, the type as written keeps too. */
  lemma ParamsWithinAsWritten(s: string, cm: CaseMapping)
    ensures Params(s, cm) <= ParamsAsWritten(s, cm)
  {
    ParamsFlat(s, cm);
    ParamsAsWrittenFlat(s, cm);
    FlatWithinUpToLast(s, cm);
  }

  lemma FlatWithinUpToLast(s: string, cm: CaseMapping)
    ensures FlatParams(s, cm) <= UpToLastGuarded(Scan(s), cm)
  {
    var ps := Scan(s);
    forall n | n in FlatParams(s, cm) ensures n in UpToLastGuarded(ps, cm) {
      var p :| p in ps && ParamGuard(Text.Trim(p), cm) && n == Text.Trim(p);
      PassingIn(ps, p, cm);
    }
  }

  lemma PassingIn(ps: seq<string>, p: string, cm: CaseMapping)
    requires p in ps && ParamGuard(Text.Trim(p), cm)
    ensures Text.Trim(p) in UpToLastGuarded(ps, cm)
  {
    var i :| 0 <= i < |ps| && ps[i] == p;
    PassingKept(ps, i, cm);
  }

  /** When every `{…}` text passes the guard, the type as written and the per-name reading agree. */
  lemma AsWrittenAgrees(s: string, cm: CaseMapping)
    requires forall i | 0 <= i < |Scan(s)| :: ParamGuard(Text.Trim(Scan(s)[i]), cm)
    ensures ParamsAsWritten(s, cm) == Params(s, cm)
  {
    ParamsFlat(s, cm);
    ParamsAsWrittenFlat(s, cm);
    ParamsWithinAsWritten(s, cm);
    var ps := Scan(s);
    forall n | n in UpToLastGuarded(ps, cm) ensures n in FlatParams(s, cm) {
      var i := KeptAt(ps, n, cm);
      assert ps[i] in ps;
    }
  }

  /**
   * `"{p} {q}"` where `q` passes the guard and `p` does not: the type as
   * written still demands `p`, which the per-name guard drops.
   */
  lemma AsWrittenKeepsEarlier(p: string, q: string, cm: CaseMapping)
    requires '{' !in p && '}' !in p && '}' !in q
    requires Text.Trim(p) == p && Text.Trim(q) == q
    requires !ParamGuard(p, cm) && ParamGuard(q, cm)
    ensures p in ParamsAsWritten("{" + p + "} {" + q + "}", cm)
    ensures p !in Params("{" + p + "} {" + q + "}", cm)
  {
    var s := "{" + p + "} {" + q + "}";
    ScanPair(p, q);
    PairKept([p, q], cm);
    ParamsAsWrittenFlat(s, cm);
    ParamsFlat(s, cm);
  }

  lemma ScanPair(p: string, q: string)
    requires '{' !in p && '}' !in p && '}' !in q
    ensures Scan("{" + p + "} {" + q + "}") == [p, q]
  {
    var tail := " {" + q + "}";
    ScanTail(q);
    PairShape(p, q);
    ScanPieces([], p, tail);
  }

  lemma PairShape(p: string, q: string)
    ensures "{" + p + "} {" + q + "}" == [] + "{" + p + "}" + (" {" + q + "}")
  {
  }

  lemma ScanTail(q: string)
    requires '}' !in q
    ensures Scan(" {" + q + "}") == [q]
  {
    ScanPieces(" ", q, "");
    assert " " + "{" + q + "}" + "" == " {" + q + "}";
    ScanEmpty();
  }

  lemma ScanEmpty()
    ensures Scan("") == []
  {
    assert IndexOf("", '{', 0).None?;
  }

  lemma PairKept(ps: seq<string>, cm: CaseMapping)
    requires |ps| == 2 && Text.Trim(ps[0]) == ps[0] && Text.Trim(ps[1]) == ps[1]
    requires !ParamGuard(ps[0], cm) && ParamGuard(ps[1], cm)
    ensures ps[0] in UpToLastGuarded(ps, cm)
    ensures ps[0] !in (set p | p in ps && ParamGuard(Text.Trim(p), cm) :: Text.Trim(p))
  {
    assert LastGuarded(ps, cm) == 1 by {
      assert PassesAt(ps, 1, cm);
    }
    assert ps[..2] == ps;
    TrimmedAllMembers(ps, ps[0]);
  }

  /**
   * `"{first_name} {x}"` under ASCII case mapping: `x` passes the guard, so
   * the type as written also demands `first_name`, which the per-name guard
   * drops for its `_`.
   */
  lemma AsWrittenKeepsNonLetter()
    ensures "first_name" in ParamsAsWritten("{" + "first_name" + "} {" + "x" + "}", Ascii)
    ensures "first_name" !in Params("{" + "first_name" + "} {" + "x" + "}", Ascii)
  {
    var p, q := "first_name", "x";
    TrimStartOfTrimmed(p);
    TrimEndOfTrimmed(p);
    TrimStartOfTrimmed(q);
    TrimEndOfTrimmed(q);
    AsciiLetters('x');
    AsciiLetters('_');
    assert !IsLetter(p[5], Ascii);
    AsWrittenKeepsEarlier(p, q, Ascii);
  }

  lemma {:induction false} IndexOfIs(s: string, c: char, from: nat, k: nat)
    requires from <= k < |s| && s[k] == c
    requires forall i | from <= i < k :: s[i] != c
    ensures IndexOf(s, c, from) == Some(k)
    decreases k - from
  {
    if from < k {
      IndexOfIs(s, c, from + 1, k);
    }
  }

  /** Each `{…}` is read up to the first `}` after it; the scan resumes after that `}`. */
  lemma ScanPieces(a: string, inner: string, rest: string)
    requires '{' !in a && '}' !in inner
    ensures Scan(a + "{" + inner + "}" + rest) == [inner] + Scan(rest)
  {
    var s := a + "{" + inner + "}" + rest;
    var j := |a| + 1 + |inner|;
    assert forall i | 0 <= i < |a| :: s[i] == a[i];
    IndexOfIs(s, '{', 0, |a|);
    assert forall i | |a| + 1 <= i < j :: s[i] == inner[i - |a| - 1];
    IndexOfIs(s, '}', |a| + 1, j);
    assert s[..|a|] == a && s[|a| + 1..j] == inner && s[j + 1..] == rest;
  }

  /** `ParamsMap<T>`: a value, string or number (by its decimal spelling), for every name. */
  predicate ParamsMap(names: set<string>, params: map<string, string>) {
    forall n | n in names :: n in params
  }

  /**
   * Where every name the runtime's placeholder pattern finds is one the type
   * demands, parameters of type `ParamsMap<TemplateParam<T>>` make the
   * runtime substitution succeed.
   */
  lemma ParamsMapSuffices(s: string, cm: CaseMapping, params: map<string, string>, cls: Values.ErrorClass)
    requires forall k | 0 <= k < |ParamRegex.Names(s)| :: ParamRegex.Names(s)[k] in Params(s, cm)
    requires ParamsMap(Params(s, cm), params)
    ensures ParamRegex.Substitute(s, params, cls).Ok?
  {
    ParamRegex.SubstituteOutcome(s, params, cls);
  }

  /** The same for the type as written, which demands at least the names `Params` does. */
  lemma ParamsMapSufficesAsWritten(s: string, cm: CaseMapping, params: map<string, string>, cls: Values.ErrorClass)
    requires forall k | 0 <= k < |ParamRegex.Names(s)| :: ParamRegex.Names(s)[k] in ParamsAsWritten(s, cm)
    requires ParamsMap(ParamsAsWritten(s, cm), params)
    ensures ParamRegex.Substitute(s, params, cls).Ok?
  {
    ParamRegex.SubstituteOutcome(s, params, cls);
  }

  /** Case mapping on the ASCII letters only, leaving every other character alone. */
  function AsciiUpper(s: string): string {
    seq(|s|, i requires 0 <= i < |s| => if 'a' <= s[i] <= 'z' then (s[i] as int - 32) as char else s[i])
  }

  function AsciiLower(s: string): string {
    seq(|s|, i requires 0 <= i < |s| => if 'A' <= s[i] <= 'Z' then (s[i] as int + 32) as char else s[i])
  }

  const Ascii := CaseMapping(AsciiUpper, AsciiLower)

  /** Under an ASCII case mapping the letters are exactly `a`–`z` and `A`–`Z`. */
  lemma AsciiLetters(c: char)
    ensures IsLetter(c, Ascii) <==> 'a' <= c <= 'z' || 'A' <= c <= 'Z'
  {
    if 'a' <= c <= 'z' { assert AsciiUpper([c])[0] != c; }
    if 'A' <= c <= 'Z' { assert AsciiLower([c])[0] != c; }
    if !('a' <= c <= 'z' || 'A' <= c <= 'Z') {
      assert AsciiUpper([c]) == [c];
      assert AsciiLower([c]) == [c];
    }
  }
}
