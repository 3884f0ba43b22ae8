/**
  String primitives of Go's standard library that the validator relies on:
  unicode.IsSpace, strings.TrimSpace, strings.HasPrefix,
  strings.SplitN(s, ",", 2)[0], and the value of an ASCII digit string.
  Strings are sequences of code points.
 */
module Text {

  /** Go's unicode.IsSpace: the Latin-1 spaces plus the other White_Space code points. */
  predicate IsSpace(c: char) {
    || c == ' ' || c == '\t' || c == '\n' || c == '\r'
    || c == '\U{000B}' || c == '\U{000C}' || c == '\U{0085}' || c == '\U{00A0}'
    || c == '\U{1680}' || ('\U{2000}' <= c <= '\U{200A}')
    || c == '\U{2028}' || c == '\U{2029}' || c == '\U{202F}' || c == '\U{205F}' || c == '\U{3000}'
  }

  predicate AllSpace(s: string) {
    forall i :: 0 <= i < |s| ==> IsSpace(s[i])
  }

  /** True when `s` neither starts nor ends with a space. */
  predicate Trimmed(s: string) {
    s == [] || (!IsSpace(s[0]) && !IsSpace(s[|s| - 1]))
  }

  /** Drops the leading spaces: the result is the suffix that starts at the first non-space. */
  function TrimLeft(s: string): (r: string)
    ensures |r| <= |s| && r == s[|s| - |r|..]
    ensures forall i :: 0 <= i < |s| - |r| ==> IsSpace(s[i])
    ensures r == [] || !IsSpace(r[0])
  {
    if s != [] && IsSpace(s[0]) then
      var r := TrimLeft(s[1..]);
      assert s[..|s| - |r|] == [s[0]] + s[1..][..|s| - 1 - |r|];
      r
    else s
  }

  /** Drops the trailing spaces: the result is the prefix that ends at the last non-space. */
  function TrimRight(s: string): (r: string)
    ensures |r| <= |s| && r == s[..|r|]
    ensures forall i :: |r| <= i < |s| ==> IsSpace(s[i])
    ensures r == [] || !IsSpace(r[|r| - 1])
  {
    if s != [] && IsSpace(s[|s| - 1]) then
      var r := TrimRight(s[..|s| - 1]);
      assert s[|r|..] == s[..|s| - 1][|r|..] + [s[|s| - 1]];
      assert s[..|r|] == s[..|s| - 1][..|r|];
      r
    else s
  }

  /** strings.TrimSpace. */
  function TrimSpace(s: string): (r: string)
    ensures |r| <= |s|
    ensures Trimmed(r)
  {
    var l := TrimLeft(s);
    var r := TrimRight(l);
    assert r != [] ==> r[0] == l[0];
    r
  }

  /** Trimming yields the empty string exactly when every character is a space. */
  lemma TrimSpaceEmpty(s: string)
    ensures TrimSpace(s) == [] <==> AllSpace(s)
  {
    var l := TrimLeft(s);
    if TrimSpace(s) == [] {
      assert AllSpace(l[0..]);
      assert l == [];
      assert s[..|s|] == s;
    } else {
      assert l != [] && l[0] == s[|s| - |l|];
    }
  }

  /** A string that neither starts nor ends with a space is its own trim; so trimming is idempotent. */
  lemma TrimSpaceOfTrimmed(s: string)
    requires Trimmed(s)
    ensures TrimSpace(s) == s
  {
  }

  function HasPrefix(s: string, p: string): bool {
    |p| <= |s| && s[..|p|] == p
  }

  /** strings.SplitN(s, ",", 2)[0]: everything before the first comma, or all of `s`. */
  function BeforeComma(s: string): (r: string)
    ensures |r| <= |s| && r == s[..|r|]
    ensures ',' !in r
    ensures |r| < |s| ==> s[|r|] == ','
  {
    if s == [] || s[0] == ',' then [] else [s[0]] + BeforeComma(s[1..])
  }

  predicate IsDigit(c: char) {
    '0' <= c <= '9'
  }

  predicate AllDigits(s: string) {
    forall i :: 0 <= i < |s| ==> IsDigit(s[i])
  }

  function Digit(c: char): (d: nat)
    requires IsDigit(c)
    ensures d <= 9
  {
    (c as int) - ('0' as int)
  }

  /** The value of the digits `s` read left to right after the already accumulated `acc`. */
  function ValueFrom(acc: nat, s: string): nat
    requires AllDigits(s)
    decreases |s|
  {
    if s == [] then acc else ValueFrom(acc * 10 + Digit(s[0]), s[1..])
  }

  /** The base-10 value of an ASCII digit string. */
  function DecimalValue(s: string): nat
    requires AllDigits(s)
  {
    ValueFrom(0, s)
  }

  function Pow10(n: nat): (p: nat)
    ensures p >= 1
  {
    if n == 0 then 1 else 10 * Pow10(n - 1)
  }

  /** Reading on from `acc` adds the digits' own value below `acc` shifted left. */
  lemma {:induction false} ValueFromShift(acc: nat, s: string)
    requires AllDigits(s)
    ensures ValueFrom(acc, s) == acc * Pow10(|s|) + DecimalValue(s)
    decreases |s|
  {
    if s != [] {
      var d := Digit(s[0]);
      var p := Pow10(|s| - 1);
      ValueFromShift(acc * 10 + d, s[1..]);
      ValueFromShift(d, s[1..]);
      assert ValueFrom(d, s[1..]) == ValueFrom(0 * 10 + d, s[1..]);
      assert Pow10(|s|) == 10 * p;
      assert (acc * 10 + d) * p == acc * (10 * p) + d * p;
    }
  }

  /** Appending digits: value(a + b) = value(a) * 10^|b| + value(b). */
  lemma DecimalValueAppend(a: string, b: string)
    requires AllDigits(a) && AllDigits(b)
    ensures AllDigits(a + b)
    ensures DecimalValue(a + b) == DecimalValue(a) * Pow10(|b|) + DecimalValue(b)
  {
    ValueFromAppend(0, a, b);
    ValueFromShift(DecimalValue(a), b);
  }

  lemma {:induction false} ValueFromAppend(acc: nat, a: string, b: string)
    requires AllDigits(a) && AllDigits(b)
    ensures AllDigits(a + b)
    ensures ValueFrom(acc, a + b) == ValueFrom(ValueFrom(acc, a), b)
    decreases |a|
  {
    if a != [] {
      assert (a + b)[0] == a[0] && (a + b)[1..] == a[1..] + b;
      ValueFromAppend(acc * 10 + Digit(a[0]), a[1..], b);
    } else {
      assert a + b == b;
    }
  }

  /** Reading never decreases the accumulator. */
  lemma {:induction false} ValueFromAtLeast(acc: nat, s: string)
    requires AllDigits(s)
    ensures ValueFrom(acc, s) >= acc
    decreases |s|
  {
    if s != [] {
      ValueFromAtLeast(acc * 10 + Digit(s[0]), s[1..]);
    }
  }

  lemma {:induction false} Pow10Add(a: nat, b: nat)
    ensures Pow10(a + b) == Pow10(a) * Pow10(b)
    decreases a
  {
    if a > 0 {
      Pow10Add(a - 1, b);
    }
  }

  function DigitChar(d: nat): (c: char)
    requires d <= 9
    ensures IsDigit(c) && Digit(c) == d
  {
    ('0' as int + d) as char
  }

  /** The last `w` decimal digits of `n`, with leading zeros. */
  function Numeral(n: nat, w: nat): (s: string)
    ensures |s| == w && AllDigits(s)
  {
    if w == 0 then [] else Numeral(n / 10, w - 1) + [DigitChar(n % 10)]
  }

  /** A numeral reads back as its number when the number has at most `w` digits. */
  lemma {:induction false} NumeralValue(n: nat, w: nat)
    requires n < Pow10(w)
    ensures DecimalValue(Numeral(n, w)) == n
  {
    if w > 0 {
      var p := Pow10(w - 1);
      assert Pow10(w) == 10 * p;
      assert n / 10 < p;
      NumeralValue(n / 10, w - 1);
      DecimalValueAppend(Numeral(n / 10, w - 1), [DigitChar(n % 10)]);
      var c := DigitChar(n % 10);
      assert DecimalValue([c]) == n % 10 by {
        assert [c][0] == c && [c][1..] == [];
        assert ValueFrom(0, [c]) == ValueFrom(0 * 10 + Digit(c), [c][1..]);
      }
    } else {
      assert n == 0;
    }
  }
}
