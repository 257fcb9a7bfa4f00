/**
 * The module-level placeholder pattern `/{\s*([^}\s]+)\s*}/g`: where it
 * matches, what its `test` does with the shared `lastIndex`, and the
 * `replace` that a parameterised string runs when it is called.
 */
module ParamRegex {
  import opened Wrappers
  import opened Values
  import Text

  /** One match: the span `[start, end)` and the captured name. */
  datatype Match = Match(start: nat, end: nat, name: string)

  /** A character of `[^}\s]`. */
  predicate NameChar(c: char) { c != '}' && !Text.IsSpace(c) }

  function SkipSpaces(s: string, i: nat): (j: nat)
    requires i <= |s|
    ensures i <= j <= |s|
    ensures forall k | i <= k < j :: Text.IsSpace(s[k])
    ensures j < |s| ==> !Text.IsSpace(s[j])
    decreases |s| - i
  {
    if i < |s| && Text.IsSpace(s[i]) then SkipSpaces(s, i + 1) else i
  }

  function SkipName(s: string, i: nat): (j: nat)
    requires i <= |s|
    ensures i <= j <= |s|
    ensures forall k | i <= k < j :: NameChar(s[k])
    ensures j < |s| ==> !NameChar(s[j])
    decreases |s| - i
  {
    if i < |s| && NameChar(s[i]) then SkipName(s, i + 1) else i
  }

  /**
   * The match that starts at `i`, if any. The pattern cannot match in two
   * ways at one position: the name cannot start or end with white space
   * and cannot contain `}`, so the greedy reading is the only one.
   */
  function MatchAt(s: string, i: nat): (r: Option<Match>)
    requires i <= |s|
    ensures r.Some? ==>
      && r.value.start == i && i < r.value.end <= |s|
      && s[i] == '{' && s[r.value.end - 1] == '}'
      && |r.value.name| >= 1
      && forall k | 0 <= k < |r.value.name| :: NameChar(r.value.name[k])
  {
    if i < |s| && s[i] == '{' then
      var a := SkipSpaces(s, i + 1);
      var b := SkipName(s, a);
      var c := SkipSpaces(s, b);
      if a < b && c < |s| && s[c] == '}' then Some(Match(i, c + 1, s[a..b])) else None
    else None
  }

  /** The leftmost match at or after `from`. */
  function FindMatch(s: string, from: nat): (r: Option<Match>)
    requires from <= |s|
    ensures r.Some? ==> from <= r.value.start <= |s| && MatchAt(s, r.value.start) == r
    ensures r.None? ==> forall i | from <= i <= |s| :: MatchAt(s, i).None?
    ensures r.Some? ==> forall i | from <= i < r.value.start :: MatchAt(s, i).None?
    decreases |s| - from
  {
    match MatchAt(s, from)
    case Some(m) => Some(m)
    case None => if from == |s| then None else FindMatch(s, from + 1)
  }

  /** A match can only start at a `{`: the search steps over every other character. */
  lemma FindMatchSkips(s: string, from: nat)
    requires from < |s| && s[from] != '{'
    ensures FindMatch(s, from) == FindMatch(s, from + 1)
  {
  }

  /** Whether the pattern matches anywhere in `s`. */
  predicate HasPlaceholder(s: string) {
    exists i | 0 <= i <= |s| :: MatchAt(s, i).Some?
  }

  /** The outcome of `paramRegex.test(s)`: the answer and the new `lastIndex`. */
  datatype TestOutcome = TestOutcome(found: bool, lastIndex: nat)

  /**
   * `paramRegex.test(s)` with the regex's current `lastIndex`: the search
   * starts there; a match moves `lastIndex` to the end of the match, a
   * failure (including a `lastIndex` past the end) resets it to 0.
   */
  function Test(s: string, lastIndex: nat): (r: TestOutcome)
    ensures r.found <==> lastIndex <= |s| && exists i | lastIndex <= i <= |s| :: MatchAt(s, i).Some?
    ensures r.found ==> lastIndex < r.lastIndex <= |s|
    ensures !r.found ==> r.lastIndex == 0
  {
    if lastIndex > |s| then TestOutcome(false, 0)
    else match FindMatch(s, lastIndex)
      case None => TestOutcome(false, 0)
      case Some(m) => TestOutcome(true, m.end)
  }

  /** Started from a reset regex, `test` answers exactly whether the string has a placeholder. */
  lemma TestFromZero(s: string)
    ensures Test(s, 0).found == HasPlaceholder(s)
  {
  }

  function MissingParam(cls: ErrorClass, name: string): Error {
    Error(cls, "Missing parameter \"" + name + "\"")
  }

  /**
   * `value.replace(paramRegex, (_, name) => ...)` from `from` on: each match
   * is replaced by `params[name]`, left to right; the first name without a
   * parameter raises `cls` and no string is produced.
   */
  function ReplaceFrom(s: string, from: nat, params: map<string, string>, cls: ErrorClass): Result<string>
    requires from <= |s|
    decreases |s| - from
  {
    match FindMatch(s, from)
    case None => Ok(s[from..])
    case Some(m) =>
      if m.name !in params then Err(MissingParam(cls, m.name))
      else
        var rest :- ReplaceFrom(s, m.end, params, cls);
        Ok(s[from..m.start] + params[m.name] + rest)
  }

  /** Calling the function `wrapString` made of `template`. */
  function Substitute(template: string, params: map<string, string>, cls: ErrorClass): Result<string> {
    ReplaceFrom(template, 0, params, cls)
  }

  /** What the capture group accepts: one or more characters, none of them `}` or white space. */
  predicate ValidName(name: string) {
    |name| >= 1 && forall k | 0 <= k < |name| :: NameChar(name[k])
  }

  /** The names of the placeholders from `from` on, in scan order. */
  function NamesFrom(s: string, from: nat): (names: seq<string>)
    requires from <= |s|
    ensures names == [] <==> FindMatch(s, from).None?
    ensures forall k | 0 <= k < |names| :: ValidName(names[k])
    decreases |s| - from
  {
    match FindMatch(s, from)
    case None => []
    case Some(m) =>
      assert ValidName(m.name);
      var rest := NamesFrom(s, m.end);
      var names := [m.name] + rest;
      assert names[1..] == rest;
      names
  }

  function Names(s: string): (names: seq<string>)
    ensures names == [] <==> !HasPlaceholder(s)
  {
    NamesFrom(s, 0)
  }

  /** A string without placeholders comes back unchanged, whatever the parameters. */
  lemma SubstituteNoPlaceholder(s: string, params: map<string, string>, cls: ErrorClass)
    requires !HasPlaceholder(s)
    ensures Substitute(s, params, cls) == Ok(s)
  {
  }

  /** The index of the first name without a parameter, or `|names|` when all have one. */
  function FirstMissing(names: seq<string>, params: map<string, string>): (j: nat)
    ensures j <= |names|
    ensures forall k | 0 <= k < j :: names[k] in params
    ensures j < |names| ==> names[j] !in params
  {
    if names == [] || names[0] !in params then 0
    else 1 + FirstMissing(names[1..], params)
  }

  /**
   * Substitution succeeds exactly when every placeholder has a parameter;
   * otherwise it fails naming the first placeholder, in scan order, that
   * has none.
   */
  lemma {:induction false} ReplaceFromOutcome(s: string, from: nat, params: map<string, string>, cls: ErrorClass)
    requires from <= |s|
    ensures var ns := NamesFrom(s, from); var j := FirstMissing(ns, params);
      && (ReplaceFrom(s, from, params, cls).Ok? <==> j == |ns|)
      && (j < |ns| ==> ReplaceFrom(s, from, params, cls) == Err(MissingParam(cls, ns[j])))
    decreases |s| - from
  {
    match FindMatch(s, from)
    case None =>
    case Some(m) =>
      var ns := NamesFrom(s, from);
      var tail := NamesFrom(s, m.end);
      assert ns == [m.name] + tail;
      assert ns[1..] == tail;
      if m.name in params {
        ReplaceFromOutcome(s, m.end, params, cls);
        assert FirstMissing(ns, params) == 1 + FirstMissing(tail, params);
      }
  }

  lemma SubstituteOutcome(s: string, params: map<string, string>, cls: ErrorClass)
    ensures var ns := Names(s); var j := FirstMissing(ns, params);
      && (Substitute(s, params, cls).Ok? <==> forall k | 0 <= k < |ns| :: ns[k] in params)
      && (j < |ns| ==> Substitute(s, params, cls) == Err(MissingParam(cls, ns[j])))
  {
    ReplaceFromOutcome(s, 0, params, cls);
  }
}
