/**
 * String helpers the runtime relies on: JavaScript whitespace, `split` and
 * `join` on one separator character, first-occurrence `replace`, and the
 * two ways JavaScript reads a property key as a number (a canonical array
 * index, and the `key * 0 === 0` test `dset` uses to pick `[]` over `{}`).
 */
module Text {
  import opened Wrappers

  /** The characters JavaScript's `\s` class and `String.prototype.trim` treat as white space. */
  predicate IsSpace(c: char) {
    var n := c as int;
    (9 <= n <= 13) || n == 32 || n == 0xA0 || n == 0x1680 || (0x2000 <= n <= 0x200A)
    || n == 0x2028 || n == 0x2029 || n == 0x202F || n == 0x205F || n == 0x3000 || n == 0xFEFF
  }

  predicate IsDigit(c: char) { '0' <= c <= '9' }

  function TrimStart(s: string): (r: string)
    ensures |r| <= |s| && r == s[|s| - |r|..]
    ensures r == [] || !IsSpace(r[0])
    ensures forall i | 0 <= i < |s| - |r| :: IsSpace(s[i])
  {
    if |s| > 0 && IsSpace(s[0]) then TrimStart(s[1..]) else s
  }

  function TrimEnd(s: string): (r: string)
    ensures |r| <= |s| && r == s[..|r|]
    ensures r == [] || !IsSpace(r[|r| - 1])
    ensures forall i | |r| <= i < |s| :: IsSpace(s[i])
  {
    if |s| > 0 && IsSpace(s[|s| - 1]) then TrimEnd(s[..|s| - 1]) else s
  }

  /** `String.prototype.trim`: the input with its leading and trailing white space removed. */
  function Trim(s: string): (r: string)
    ensures |r| <= |s|
    ensures r != [] ==> !IsSpace(r[0]) && !IsSpace(r[|r| - 1])
  {
    TrimEnd(TrimStart(s))
  }

  /**
   * What `trim` removes: the result is the piece of `s` from `start` on,
   * and every character before it or after its end is white space.
   */
  lemma TrimRemovesSpace(s: string) returns (start: nat)
    ensures start + |Trim(s)| <= |s| && Trim(s) == s[start..start + |Trim(s)|]
    ensures forall i | 0 <= i < start :: IsSpace(s[i])
    ensures forall i | start + |Trim(s)| <= i < |s| :: IsSpace(s[i])
  {
    var t := TrimStart(s);
    start := |s| - |t|;
    assert Trim(s) == t[..|Trim(s)|];
    forall i | start + |Trim(s)| <= i < |s|
      ensures IsSpace(s[i])
    {
      assert s[i] == t[i - start];
    }
  }

  /** `s.split(sep)` for a one-character separator: always at least one part. */
  function Split(s: string, sep: char): (parts: seq<string>)
    ensures |parts| >= 1
    ensures forall i | 0 <= i < |parts| :: sep !in parts[i]
  {
    if |s| == 0 then [""]
    else
      var rest := Split(s[1..], sep);
      if s[0] == sep then [""] + rest else [[s[0]] + rest[0]] + rest[1..]
  }

  /** `parts.join(sep)`. */
  function Join(parts: seq<string>, sep: char): string
    requires |parts| >= 1
  {
    if |parts| == 1 then parts[0] else parts[0] + [sep] + Join(parts[1..], sep)
  }

  /** Joining the parts of a split gives back the string. */
  lemma {:induction false} JoinSplit(s: string, sep: char)
    ensures Join(Split(s, sep), sep) == s
  {
    if |s| > 0 {
      JoinSplit(s[1..], sep);
      var rest := Split(s[1..], sep);
      if s[0] != sep {
        if |rest| > 1 {
          assert Join(rest, sep) == rest[0] + [sep] + Join(rest[1..], sep);
        }
      }
    }
  }

  /** A string without the separator is one part. */
  lemma {:induction false} SplitNoSep(s: string, sep: char)
    requires sep !in s
    ensures Split(s, sep) == [s]
  {
    if |s| > 0 {
      assert s[0] in s;
      SplitNoSep(s[1..], sep);
      assert [s[0]] + s[1..] == s;
    }
  }

  /** Splitting at a separator splits the two sides independently. */
  lemma {:induction false} SplitAround(a: string, sep: char, b: string)
    ensures Split(a + [sep] + b, sep) == Split(a, sep) + Split(b, sep)
  {
    if |a| == 0 {
      assert a + [sep] + b == [sep] + b;
      assert ([sep] + b)[1..] == b;
    } else {
      assert (a + [sep] + b)[1..] == a[1..] + [sep] + b;
      SplitAround(a[1..], sep, b);
    }
  }

  /** Splitting a join of separator-free parts gives back the parts. */
  lemma {:induction false} SplitJoin(parts: seq<string>, sep: char)
    requires |parts| >= 1
    requires forall i | 0 <= i < |parts| :: sep !in parts[i]
    ensures Split(Join(parts, sep), sep) == parts
  {
    if |parts| == 1 {
      SplitNoSep(parts[0], sep);
    } else {
      SplitJoin(parts[1..], sep);
      SplitAround(parts[0], sep, Join(parts[1..], sep));
      SplitNoSep(parts[0], sep);
      assert [parts[0]] + parts[1..] == parts;
    }
  }

  /** Value of a string of decimal digits. */
  function DigitsValue(s: string): nat
    requires forall i | 0 <= i < |s| :: IsDigit(s[i])
  {
    if s == [] then 0 else DigitsValue(s[..|s| - 1]) * 10 + DigitValue(s[|s| - 1])
  }

  function DigitValue(c: char): nat
    requires IsDigit(c)
  {
    c as int - '0' as int
  }

  const MaxArrayLength: nat := 0x1_0000_0000 - 1

  /** A canonical array index: "0", or digits without a leading zero, below 2^32 - 1. */
  predicate IsIndex(k: string) {
    && |k| >= 1
    && (forall i | 0 <= i < |k| :: IsDigit(k[i]))
    && (k[0] != '0' || |k| == 1)
    && DigitsValue(k) < MaxArrayLength
  }

  function IndexValue(k: string): nat
    requires IsIndex(k)
  {
    DigitsValue(k)
  }

  predicate AllDigits(s: string, isDigit: char -> bool) {
    |s| >= 1 && forall i | 0 <= i < |s| :: isDigit(s[i])
  }

  predicate IsHexDigit(c: char) { IsDigit(c) || 'a' <= c <= 'f' || 'A' <= c <= 'F' }

  function Pow(b: nat, e: nat): nat {
    if e == 0 then 1 else b * Pow(b, e - 1)
  }

  /**
   * 2^1024 - 2^970 = (2^54 - 1) * 2^970, the least magnitude that rounds to
   * an infinite double: halfway between the largest finite double and
   * 2^1024, where rounding to even goes up.
   */
  const Overflow: int := 179769313486231580793728971405303415079934132710037826936173778980444968292764750946649017977587207096330286416692887910946555547851940402630657488671505820681908902000708383676273854845817711531764475730270069855571366959622842914819860834936475292719074168444365510704342711559699508093042880177904174497792

  /** `m·10^e`, or `m/10^e` for a negative exponent, is below `Overflow`. */
  predicate ScaledFinite(m: nat, e: nat, negative: bool) {
    if negative then m < Overflow * Pow(10, e) else m * Pow(10, e) < Overflow
  }

  /**
   * A dot-free decimal literal, digits optionally followed by an exponent,
   * whose value converts to a finite double.
   */
  predicate FiniteDecimal(t: string) {
    || (AllDigits(t, IsDigit) && DigitsValue(t) < Overflow)
    || exists i | 1 <= i < |t| ::
         && AllDigits(t[..i], IsDigit)
         && (t[i] == 'e' || t[i] == 'E')
         && (|| (AllDigits(t[i + 1..], IsDigit) && ScaledFinite(DigitsValue(t[..i]), DigitsValue(t[i + 1..]), false))
             || (&& |t| > i + 1 && (t[i + 1] == '+' || t[i + 1] == '-') && AllDigits(t[i + 2..], IsDigit)
                 && ScaledFinite(DigitsValue(t[..i]), DigitsValue(t[i + 2..]), t[i + 1] == '-')))
  }

  /** `0x…`, `0o…` and `0b…` literals (no sign allowed). */
  predicate PrefixedLiteral(t: string) {
    && |t| > 2 && t[0] == '0'
    && ((t[1] in "xX" && AllDigits(t[2..], IsHexDigit))
        || (t[1] in "oO" && AllDigits(t[2..], c => '0' <= c <= '7'))
        || (t[1] in "bB" && AllDigits(t[2..], c => c == '0' || c == '1')))
  }

  function HexDigitValue(c: char): nat {
    if IsDigit(c) then c as int - '0' as int
    else if 'a' <= c <= 'f' then c as int - 'a' as int + 10
    else if 'A' <= c <= 'F' then c as int - 'A' as int + 10
    else 0
  }

  /** Value of a string of digits in base `radix`. */
  function RadixValue(s: string, radix: nat): nat {
    if s == [] then 0 else RadixValue(s[..|s| - 1], radix) * radix + HexDigitValue(s[|s| - 1])
  }

  /** Value of a prefixed literal: its digits in base 16, 8 or 2. */
  function PrefixedValue(t: string): nat
    requires |t| > 2
  {
    RadixValue(t[2..], if t[1] in "xX" then 16 else if t[1] in "oO" then 8 else 2)
  }

  /**
   * `dset` creates an array for the next key `k` when `k * 0 === 0` and `k`
   * holds no dot: `Number(k)` is finite. For a dot-free string that is an
   * empty or blank string, a signed decimal or a prefixed integer literal,
   * surrounded by white space, whose value converts to a finite double.
   */
  predicate NumberLike(k: string) {
    var t := Trim(k);
    && '.' !in k
    && (t == ""
        || FiniteDecimal(t)
        || (|t| > 1 && (t[0] == '+' || t[0] == '-') && FiniteDecimal(t[1..]))
        || (PrefixedLiteral(t) && PrefixedValue(t) < Overflow))
  }

  /** `dset` makes an array for a canonical array index: its value is finite. */
  lemma IndexNumberLike(k: string)
    requires IsIndex(k)
    ensures NumberLike(k)
  {
    assert AllDigits(k, IsDigit);
    DigitsTrimmed(k);
    assert '.' !in k by {
      forall i | 0 <= i < |k| ensures k[i] != '.' {
        assert IsDigit(k[i]);
      }
    }
  }

  /**
   * A digit string too large for a finite double, such as 310 nines, is
   * not number-like: `Number(k)` is Infinity and `Infinity * 0` is NaN, so
   * `dset` makes an object for it.
   */
  lemma OverflowNotNumberLike(k: string)
    requires AllDigits(k, IsDigit) && DigitsValue(k) >= Overflow
    ensures !NumberLike(k)
  {
    DigitsTrimmed(k);
    DigitsNoExponent(k);
    assert !FiniteDecimal(k);
    assert !PrefixedLiteral(k) by {
      if |k| > 1 {
        assert IsDigit(k[1]);
      }
    }
    assert IsDigit(k[0]);
  }

  lemma DigitsTrimmed(k: string)
    requires AllDigits(k, IsDigit)
    ensures Trim(k) == k
  {
    assert TrimStart(k) == k;
    assert TrimEnd(k) == k;
  }

  /** A digit string has no exponent part: it is a finite decimal exactly when its value is. */
  lemma DigitsNoExponent(t: string)
    requires AllDigits(t, IsDigit)
    ensures FiniteDecimal(t) <==> DigitsValue(t) < Overflow
  {
    if FiniteDecimal(t) && DigitsValue(t) >= Overflow {
      var i :| 1 <= i < |t| && AllDigits(t[..i], IsDigit) && (t[i] == 'e' || t[i] == 'E');
      assert false;
    }
  }

  predicate OccursAt(s: string, pat: string, i: nat) {
    i + |pat| <= |s| && s[i..i + |pat|] == pat
  }

  /** Index of the first occurrence of `pat` in `s` at or after `from`. */
  function FindFrom(s: string, pat: string, from: nat): (r: Option<nat>)
    requires from <= |s|
    ensures r.Some? ==> from <= r.value && OccursAt(s, pat, r.value)
    ensures r.Some? ==> forall i | from <= i < r.value :: !OccursAt(s, pat, i)
    ensures r.None? ==> forall i | from <= i <= |s| :: !OccursAt(s, pat, i)
    decreases |s| - from
  {
    if OccursAt(s, pat, from) then Some(from)
    else if from == |s| then None
    else FindFrom(s, pat, from + 1)
  }

  /** `s.replace(pat, rep)` with a string pattern: only the first occurrence is replaced. */
  function ReplaceFirst(s: string, pat: string, rep: string): (r: string)
    ensures FindFrom(s, pat, 0).None? ==> r == s
    ensures FindFrom(s, pat, 0).Some? ==>
      var i := FindFrom(s, pat, 0).value; i + |pat| <= |s| && r == s[..i] + rep + s[i + |pat|..]
  {
    match FindFrom(s, pat, 0)
    case None => s
    case Some(i) => s[..i] + rep + s[i + |pat|..]
  }
}
