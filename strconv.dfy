/**
  The parts of Go's strconv package that the parameter coercion calls:
  strconv.ParseInt(s, 10, 64), digit by digit as Go runs it, and
  strconv.ParseFloat(s, 64) as an acceptance predicate with the exact
  decimal value of what it accepts.
 */
module Strconv {
  import opened Wrappers
  import opened Text

  datatype NumError = ErrSyntax | ErrRange

  /** The (value, err) pair a strconv parse function returns; `err == None` is Go's nil. */
  datatype Parsed = Parsed(value: int, err: Option<NumError>)

  const MaxUint64: nat := 0xFFFF_FFFF_FFFF_FFFF
  /** ParseUint's `cutoff`: the smallest accumulator whose product by ten overflows. */
  const UintCutoff: nat := MaxUint64 / 10 + 1
  const MaxInt64: int := 0x7FFF_FFFF_FFFF_FFFF
  const MinInt64: int := -0x8000_0000_0000_0000

  /**
    The digit loop of strconv.ParseUint(s, 10, 64) once `n` has been accumulated.
    Like Go, it stops at the first overflow with a range error, before it
    looks at the characters that follow.
   */
  function ScanUint(n: nat, s: string): Parsed
    requires n <= MaxUint64
    decreases |s|
  {
    if s == [] then Parsed(n, None)
    else if !IsDigit(s[0]) then Parsed(0, Some(ErrSyntax))
    else if n >= UintCutoff then Parsed(MaxUint64, Some(ErrRange))
    else
      var n1 := n * 10 + Digit(s[0]);
      if n1 > MaxUint64 then Parsed(MaxUint64, Some(ErrRange))
      else ScanUint(n1, s[1..])
  }

  /** strconv.ParseUint(s, 10, 64). */
  function ParseUint(s: string): Parsed {
    if s == [] then Parsed(0, Some(ErrSyntax)) else ScanUint(0, s)
  }

  /** `s` without one leading '+' or '-'. */
  function Unsigned(s: string): (r: string)
    ensures |r| <= |s|
  {
    if s != [] && (s[0] == '+' || s[0] == '-') then s[1..] else s
  }

  /** strconv.ParseInt(s, 10, 64): a syntax error yields 0, a range error the clamped bound. */
  function ParseInt(s: string): Parsed {
    if s == [] then Parsed(0, Some(ErrSyntax))
    else
      var neg := s[0] == '-';
      var u := ParseUint(Unsigned(s));
      if u.err == Some(ErrSyntax) then Parsed(0, Some(ErrSyntax))
      else if !neg && u.value >= MaxInt64 + 1 then Parsed(MaxInt64, Some(ErrRange))
      else if neg && u.value > MaxInt64 + 1 then Parsed(MinInt64, Some(ErrRange))
      else Parsed(if neg then -u.value else u.value, None)
  }

  /** The syntax of a base-10 integer: an optional sign, then one or more ASCII digits. */
  predicate IntSyntax(s: string) {
    |Unsigned(s)| > 0 && AllDigits(Unsigned(s))
  }

  /** The mathematical value of an integer literal. */
  function SignedValue(s: string): int
    requires IntSyntax(s)
  {
    var v: int := DecimalValue(Unsigned(s));
    if s[0] == '-' then -v else v
  }

  predicate InInt64(x: int) {
    MinInt64 <= x <= MaxInt64
  }

  /** On digits, the scan returns the accumulated value, or the range error once it passes 2^64 - 1. */
  lemma {:induction false} ScanUintDigits(n: nat, s: string)
    requires n <= MaxUint64 && AllDigits(s)
    ensures ScanUint(n, s) ==
      if ValueFrom(n, s) <= MaxUint64 then Parsed(ValueFrom(n, s), None)
      else Parsed(MaxUint64, Some(ErrRange))
    decreases |s|
  {
    if s != [] {
      var n1 := n * 10 + Digit(s[0]);
      ValueFromAtLeast(n1, s[1..]);
      if n < UintCutoff && n1 <= MaxUint64 {
        ScanUintDigits(n1, s[1..]);
      }
    }
  }

  /**
    A character outside the digits makes the scan fail: with a range error when
    the digits before it already pass 2^64 - 1, with a syntax error otherwise.
   */
  lemma {:induction false} ScanUintNonDigit(n: nat, s: string)
    requires n <= MaxUint64 && !AllDigits(s)
    ensures ScanUint(n, s) ==
      if ValueFrom(n, s[..DigitRun(s)]) > MaxUint64 then Parsed(MaxUint64, Some(ErrRange))
      else Parsed(0, Some(ErrSyntax))
    decreases |s|
  {
    var k := DigitRun(s);
    if IsDigit(s[0]) {
      var n1 := n * 10 + Digit(s[0]);
      assert s[..k][0] == s[0] && s[..k][1..] == s[1..][..k - 1];
      assert DigitRun(s[1..]) == k - 1;
      ValueFromAtLeast(n1, s[1..][..k - 1]);
      if n < UintCutoff && n1 <= MaxUint64 {
        assert !AllDigits(s[1..]) by {
          assert !IsDigit(s[k]) && s[1..][k - 1] == s[k];
        }
        ScanUintNonDigit(n1, s[1..]);
      }
    }
  }

  /** The digits that open `Unsigned(s)` already exceed 2^64 - 1 (ParseUint then stops with a range error). */
  predicate LeadingOverflow(s: string) {
    var b := Unsigned(s);
    DecimalValue(b[..DigitRun(b)]) > MaxUint64
  }

  /**
    What ParseInt(s, 10, 64) accepts and returns: it succeeds exactly on an
    optional sign and digits whose value fits in 64 bits, returning that value;
    a well-formed number out of range is clamped; a syntax error yields 0.
   */
  lemma ParseIntMeaning(s: string)
    ensures ParseInt(s).err == None <==> IntSyntax(s) && InInt64(SignedValue(s))
    ensures ParseInt(s).err == None ==> ParseInt(s).value == SignedValue(s)
    ensures IntSyntax(s) && !InInt64(SignedValue(s)) ==>
      ParseInt(s) == Parsed(if SignedValue(s) > 0 then MaxInt64 else MinInt64, Some(ErrRange))
    ensures !IntSyntax(s) ==>
      ParseInt(s) == if LeadingOverflow(s) then Parsed(if s[0] == '-' then MinInt64 else MaxInt64, Some(ErrRange))
                     else Parsed(0, Some(ErrSyntax))
  {
    if s != [] {
      var b := Unsigned(s);
      if b != [] {
        if AllDigits(b) {
          ScanUintDigits(0, b);
        } else {
          ScanUintNonDigit(0, b);
        }
      }
    }
  }

  // ---- ParseFloat ----

  /** Go's `lower` on ASCII letters. */
  function Lower(c: char): char {
    if 'A' <= c <= 'Z' then (c as int + 32) as char else c
  }

  /** ASCII case-insensitive equality. */
  predicate EqualFold(s: string, t: string) {
    |s| == |t| && forall i :: 0 <= i < |s| ==> Lower(s[i]) == Lower(t[i])
  }

  /** The number of leading ASCII digits of `s`. */
  function DigitRun(s: string): (n: nat)
    ensures n <= |s| && AllDigits(s[..n])
    ensures n < |s| ==> !IsDigit(s[n])
  {
    if s == [] || !IsDigit(s[0]) then 0
    else
      var n := 1 + DigitRun(s[1..]);
      assert forall i :: 1 <= i < n ==> s[..n][i] == s[1..][..n - 1][i - 1];
      n
  }

  /** A decimal floating-point literal split into its digit groups; the exponent is `expDigits`, negated when `expNegative`. */
  datatype Decimal = Decimal(intDigits: string, fracDigits: string, expNegative: bool, expDigits: string)

  /**
    Splits an unsigned decimal literal: digits, an optional '.' and digits (at
    least one digit in all), then optionally 'e' or 'E', a sign and one or more digits.
   */
  function SplitDecimal(b: string): (r: Option<Decimal>)
    ensures r.Some? ==> AllDigits(r.value.intDigits) && AllDigits(r.value.fracDigits) && AllDigits(r.value.expDigits)
    ensures r.Some? ==> |r.value.intDigits| + |r.value.fracDigits| > 0
  {
    var n := DigitRun(b);
    var rest := b[n..];
    var afterDot := if rest != [] && rest[0] == '.' then rest[1..] else [];
    var m := DigitRun(afterDot);
    var frac := afterDot[..m];
    var tail := if rest != [] && rest[0] == '.' then afterDot[m..] else rest;
    if n + m == 0 then None
    else if tail == [] then Some(Decimal(b[..n], frac, false, []))
    else if Lower(tail[0]) != 'e' then None
    else
      var e := tail[1..];
      var digits := Unsigned(e);
      if digits != [] && AllDigits(digits) then Some(Decimal(b[..n], frac, e[0] == '-', digits))
      else None
  }

  /** The forms strconv.ParseFloat(s, 64) accepts that this model covers: decimal literals, "inf", "infinity", "nan". */
  predicate FloatSyntax(s: string) {
    || EqualFold(Unsigned(s), "inf")
    || EqualFold(Unsigned(s), "infinity")
    || EqualFold(s, "nan")
    || SplitDecimal(Unsigned(s)).Some?
  }

  /** Every string ParseInt accepts also parses as a float. */
  lemma IntSyntaxIsFloatSyntax(s: string)
    requires IntSyntax(s)
    ensures FloatSyntax(s)
  {
    var b := Unsigned(s);
    var n := DigitRun(b);
    assert n == |b|;
    assert b[n..] == [];
    assert SplitDecimal(b).Some?;
  }

  /** A float value: finite (an exact rational), an infinity, or NaN. */
  datatype Float = Finite(r: real) | Infinite(negative: bool) | NaN

  function Pow10Real(e: int): (p: real)
    ensures p > 0.0
  {
    if e >= 0 then Pow10(e) as real else 1.0 / (Pow10(-e) as real)
  }

  /** The exact value of a decimal literal; float64 rounding is not modelled. */
  function DecimalReal(d: Decimal): real
    requires AllDigits(d.intDigits) && AllDigits(d.fracDigits) && AllDigits(d.expDigits)
  {
    var mantissa := DecimalValue(d.intDigits + d.fracDigits);
    var exp := (if d.expNegative then -1 else 1) * DecimalValue(d.expDigits);
    mantissa as real * Pow10Real(exp - |d.fracDigits|)
  }

  /** The value ParseFloat returns when it accepts `s`; None where it reports an error. */
  function ParseFloat(s: string): (r: Option<Float>)
    ensures r.Some? <==> FloatSyntax(s)
  {
    var neg := s != [] && s[0] == '-';
    if EqualFold(Unsigned(s), "inf") || EqualFold(Unsigned(s), "infinity") then Some(Infinite(neg))
    else if EqualFold(s, "nan") then Some(NaN)
    else match SplitDecimal(Unsigned(s))
      case Some(d) => Some(Finite(if neg then -DecimalReal(d) else DecimalReal(d)))
      case None => None
  }
}
