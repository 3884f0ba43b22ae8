/**
  The format checkers of funcs/funcs.go: usernames, Iranian phone, mobile,
  postal-code and ID numbers (anchored regular expressions), the national-code
  mod-11 checksum, the bank-card Luhn checksum and the IBAN mod-97 check.
 */
module Funcs {
  import opened Wrappers
  import opened Text
  import opened Pattern

  /** `[a-zA-Z0-9_]` */
  const WordClass: seq<Range> := [Range('a', 'z'), Range('A', 'Z'), Range('0', '9'), Range('_', '_')]

  /** `[1-9]` */
  const NonZeroClass: seq<Range> := [Range('1', '9')]

  predicate IsWordChar(c: char) {
    'a' <= c <= 'z' || 'A' <= c <= 'Z' || IsDigit(c) || c == '_'
  }

  lemma WordClassMeaning(c: char)
    ensures InClass(c, WordClass) <==> IsWordChar(c)
  {
    if 'a' <= c <= 'z' { assert WordClass[0].lo <= c <= WordClass[0].hi; }
    if 'A' <= c <= 'Z' { assert WordClass[1].lo <= c <= WordClass[1].hi; }
    if IsDigit(c) { assert WordClass[2].lo <= c <= WordClass[2].hi; }
    if c == '_' { assert WordClass[3].lo <= c <= WordClass[3].hi; }
  }

  /** Two single characters of the given classes, then exactly `n` digits. */
  lemma TwoThenDigits(a: seq<Range>, b: seq<Range>, n: nat, s: string)
    ensures Match([Piece(a, 1, Some(1)), Piece(b, 1, Some(1)), Digits(n)], s) <==>
      |s| == n + 2 && InClass(s[0], a) && InClass(s[1], b) && AllDigits(s[2..])
  {
    var pb := Piece(b, 1, Some(1));
    assert [Piece(a, 1, Some(1)), pb, Digits(n)] == [Piece(a, 1, Some(1))] + [pb, Digits(n)];
    Single(a, [pb, Digits(n)], s);
    if |s| > 0 {
      assert [pb, Digits(n)] == [pb] + [Digits(n)];
      Single(b, [Digits(n)], s[1..]);
      if |s| > 1 {
        assert s[1..][1..] == s[2..];
        DigitsMeaning(n, s[2..]);
      }
    }
  }

  lemma UsernamePatternMeaning(s: string)
    ensures Match([Piece(WordClass, 1, None)], s) <==> |s| > 0 && forall i :: 0 <= i < |s| ==> IsWordChar(s[i])
  {
    Only(Piece(WordClass, 1, None), s);
    forall i | 0 <= i < |s| ensures InClass(s[i], WordClass) <==> IsWordChar(s[i]) {
      WordClassMeaning(s[i]);
    }
  }

  /** IsValidUsername: `^[a-zA-Z0-9_]+$`, one or more letters, digits or underscores. */
  function IsValidUsername(s: string): (ok: bool)
    ensures ok <==> |s| > 0 && forall i :: 0 <= i < |s| ==> IsWordChar(s[i])
  {
    UsernamePatternMeaning(s);
    Match([Piece(WordClass, 1, None)], s)
  }

  /** `^0[1-9][0-9]{9}$` */
  const PhonePattern: seq<Piece> := [Piece(Lit('0'), 1, Some(1)), Piece(NonZeroClass, 1, Some(1)), Digits(9)]

  lemma PhonePatternMeaning(s: string)
    ensures Match(PhonePattern, s) <==> |s| == 11 && s[0] == '0' && '1' <= s[1] <= '9' && AllDigits(s[2..])
  {
    TwoThenDigits(Lit('0'), NonZeroClass, 9, s);
    if |s| > 1 {
      LitMeaning('0', s[0]);
      if '1' <= s[1] <= '9' {
        assert NonZeroClass[0].lo <= s[1] <= NonZeroClass[0].hi;
      }
    }
  }

  /** IsValidIranianPhone: a 0, a non-zero digit, then nine digits. */
  function IsValidIranianPhone(s: string): (ok: bool)
    ensures ok <==> |s| == 11 && s[0] == '0' && '1' <= s[1] <= '9' && AllDigits(s[2..])
  {
    PhonePatternMeaning(s);
    Match(PhonePattern, s)
  }

  /** `^09[0-9]{9}$` */
  const MobilePattern: seq<Piece> := [Piece(Lit('0'), 1, Some(1)), Piece(Lit('9'), 1, Some(1)), Digits(9)]

  lemma MobilePatternMeaning(s: string)
    ensures Match(MobilePattern, s) <==> |s| == 11 && s[0] == '0' && s[1] == '9' && AllDigits(s[2..])
  {
    TwoThenDigits(Lit('0'), Lit('9'), 9, s);
    if |s| > 1 {
      LitMeaning('0', s[0]);
      LitMeaning('9', s[1]);
    }
  }

  /** IsValidIranianMobile: "09" then nine digits. */
  function IsValidIranianMobile(s: string): (ok: bool)
    ensures ok <==> |s| == 11 && s[0] == '0' && s[1] == '9' && AllDigits(s[2..])
  {
    MobilePatternMeaning(s);
    Match(MobilePattern, s)
  }

  /** Every mobile number is a phone number. */
  lemma MobileIsPhone(s: string)
    ensures IsValidIranianMobile(s) ==> IsValidIranianPhone(s)
  {
  }

  /** IsValidIranianPostalCode: `^[0-9]{10}$`. */
  function IsValidIranianPostalCode(s: string): (ok: bool)
    ensures ok <==> |s| == 10 && AllDigits(s)
  {
    DigitsMeaning(10, s);
    Match([Digits(10)], s)
  }

  /** IsValidIranianIDNumber: `^[0-9]{1,10}$`. */
  function IsValidIranianIDNumber(s: string): (ok: bool)
    ensures ok <==> 1 <= |s| <= 10 && AllDigits(s)
  {
    Only(Piece(DigitClass, 1, Some(10)), s);
    DigitClassMeaning(s);
    Match([Piece(DigitClass, 1, Some(10))], s)
  }

  /** A postal code is also an ID number. */
  lemma PostalCodeIsIdNumber(s: string)
    ensures IsValidIranianPostalCode(s) ==> IsValidIranianIDNumber(s)
  {
  }

  // ---------------------------------------------------------------------
  // National code

  /** Σ Digit(s[j]) · (10 − j) over the first `i` characters. */
  function WeightedSum(s: string, i: nat): int
    requires i <= |s| && AllDigits(s)
  {
    if i == 0 then 0 else WeightedSum(s, i - 1) + Digit(s[i - 1]) * (10 - (i - 1))
  }

  /** The check digit the first nine digits call for: r when r = sum mod 11 is 0 or 1, else 11 − r. */
  function NationalCheckDigit(s: string): (d: nat)
    requires 9 <= |s| && AllDigits(s)
    ensures d <= 9
  {
    var r := WeightedSum(s, 9) % 11;
    if r < 2 then r else 11 - r
  }

  /** A valid national code: ten digits whose last is the check digit of the first nine. */
  predicate NationalCodeValid(s: string) {
    |s| == 10 && AllDigits(s) && Digit(s[9]) == NationalCheckDigit(s)
  }

  /** IsValidIranianNationalCode: the length test, the digit pattern, then the checksum loop. */
  method IsValidIranianNationalCode(s: string) returns (ok: bool)
    ensures ok <==> NationalCodeValid(s)
  {
    if |s| != 10 {
      return false;
    }
    DigitsMeaning(10, s);
    if !Match([Digits(10)], s) {
      return false;
    }
    var sum := 0;
    var i := 0;
    while i < 9
      invariant 0 <= i <= 9
      invariant sum == WeightedSum(s, i)
    {
      sum := sum + Digit(s[i]) * (10 - i);
      i := i + 1;
    }
    var remainder := sum % 11;
    var checkDigit := Digit(s[9]);
    if remainder < 2 {
      ok := checkDigit == remainder;
    } else {
      ok := checkDigit == 11 - remainder;
    }
  }

  /** The weighted sum reads only the first `i` characters. */
  lemma {:induction false} WeightedSumPrefix(s: string, t: string, i: nat)
    requires i <= |s| && i <= |t| && AllDigits(s) && AllDigits(t)
    requires forall j :: 0 <= j < i ==> s[j] == t[j]
    ensures WeightedSum(s, i) == WeightedSum(t, i)
  {
    if i > 0 {
      WeightedSumPrefix(s, t, i - 1);
    }
  }

  /** The check digit: with the first nine digits fixed, exactly one last digit is accepted. */
  lemma NationalCodeCheckDigit(s: string, c: char)
    requires |s| == 10 && AllDigits(s) && IsDigit(c)
    ensures AllDigits(s[9 := c])
    ensures NationalCodeValid(s[9 := c]) <==> Digit(c) == NationalCheckDigit(s)
  {
    var t := s[9 := c];
    assert AllDigits(t) by {
      forall j | 0 <= j < |t| ensures IsDigit(t[j]) { if j != 9 { assert t[j] == s[j]; } }
    }
    WeightedSumPrefix(s, t, 9);
  }

  /** "0499370899" is valid, and no other last digit is. */
  lemma NationalCodeExample()
    ensures NationalCodeValid("0499370899")
    ensures forall c :: IsDigit(c) && c != '9' ==> !NationalCodeValid("0499370899"[9 := c])
  {
    assert AllDigits("0499370899") by {
      var s := "0499370899";
      forall j | 0 <= j < 10 ensures IsDigit(s[j]) { }
    }
    assert WeightedSum("0499370899", 9) == 266;
    forall c | IsDigit(c) && c != '9'
      ensures !NationalCodeValid("0499370899"[9 := c])
    {
      NationalCodeCheckDigit("0499370899", c);
    }
  }

  // ---------------------------------------------------------------------
  // Bank card (Luhn)

  /** One digit's contribution: doubled digits over 9 have 9 subtracted. */
  function LuhnTerm(c: char, doubled: bool): (n: nat)
    requires IsDigit(c)
    ensures n <= 9
    ensures !doubled ==> n == Digit(c)
    ensures doubled ==> n % 9 == (2 * Digit(c)) % 9 && (n == 0 <==> Digit(c) == 0)
  {
    var n := Digit(c);
    if doubled then (if 2 * n > 9 then 2 * n - 9 else 2 * n) else n
  }

  /** The Luhn sum of s[i..]: the digit at index j is doubled when it is an odd distance from the last. */
  function LuhnSum(s: string, i: nat): nat
    requires AllDigits(s)
    decreases |s| - i
  {
    if i >= |s| then 0 else LuhnTerm(s[i], (|s| - 1 - i) % 2 == 1) + LuhnSum(s, i + 1)
  }

  predicate BankCardValid(s: string) {
    |s| == 16 && AllDigits(s) && LuhnSum(s, 0) % 10 == 0
  }

  /** IsValidIranianBankCard: the 16-digit pattern, then the Luhn loop from the right. */
  method IsValidIranianBankCard(s: string) returns (ok: bool)
    ensures ok <==> BankCardValid(s)
  {
    DigitsMeaning(16, s);
    if !Match([Digits(16)], s) {
      return false;
    }
    var sum := 0;
    var alternate := false;
    var i := |s| - 1;
    while i >= 0
      invariant -1 <= i < |s|
      invariant sum == LuhnSum(s, i + 1)
      invariant alternate <==> (|s| - 1 - i) % 2 == 1
    {
      var n := Digit(s[i]);
      if alternate {
        n := n * 2;
        if n > 9 {
          n := n - 9;
        }
      }
      sum := sum + n;
      alternate := !alternate;
      i := i - 1;
    }
    ok := sum % 10 == 0;
  }

  /** Replacing the digit at k changes the sum by the change of that one term. */
  lemma {:induction false} LuhnSumReplace(s: string, k: nat, c: char, i: nat)
    requires AllDigits(s) && k < |s| && IsDigit(c) && i <= k
    ensures AllDigits(s[k := c])
    ensures LuhnSum(s[k := c], i) + LuhnTerm(s[k], (|s| - 1 - k) % 2 == 1)
         == LuhnSum(s, i) + LuhnTerm(c, (|s| - 1 - k) % 2 == 1)
    decreases k - i
  {
    var t := s[k := c];
    assert AllDigits(t) by {
      forall j | 0 <= j < |t| ensures IsDigit(t[j]) { if j != k { assert t[j] == s[j]; } }
    }
    if i == k {
      LuhnSumTail(s, t, k + 1);
    } else {
      LuhnSumReplace(s, k, c, i + 1);
    }
  }

  /** The Luhn sum of a suffix reads only that suffix. */
  lemma {:induction false} LuhnSumTail(s: string, t: string, i: nat)
    requires AllDigits(s) && AllDigits(t) && |s| == |t|
    requires forall j :: i <= j < |s| ==> s[j] == t[j]
    ensures LuhnSum(s, i) == LuhnSum(t, i)
    decreases |s| - i
  {
    if i < |s| {
      LuhnSumTail(s, t, i + 1);
    }
  }

  /** Distinct digits contribute distinct terms in either position. */
  lemma LuhnTermInjective(a: char, b: char, doubled: bool)
    requires IsDigit(a) && IsDigit(b) && a != b
    ensures LuhnTerm(a, doubled) != LuhnTerm(b, doubled)
  {
    assert Digit(a) != Digit(b);
  }

  /** The Luhn check detects every single-digit substitution. */
  lemma LuhnDetectsOneDigit(s: string, k: nat, c: char)
    requires BankCardValid(s) && k < |s| && IsDigit(c) && c != s[k]
    ensures AllDigits(s[k := c])
    ensures !BankCardValid(s[k := c])
  {
    var d := (|s| - 1 - k) % 2 == 1;
    var t := s[k := c];
    LuhnSumReplace(s, k, c, 0);
    LuhnTermInjective(s[k], c, d);
    ShiftByOneDigit(LuhnSum(t, 0), LuhnSum(s, 0), LuhnTerm(s[k], d), LuhnTerm(c, d));
  }

  /** Moving a multiple of 10 by a non-zero single-digit amount leaves a non-multiple of 10. */
  lemma ShiftByOneDigit(x: int, y: int, a: int, b: int)
    requires x + a == y + b && y % 10 == 0
    requires 0 <= a <= 9 && 0 <= b <= 9 && a != b
    ensures x % 10 != 0
  {
    assert y == 10 * (y / 10);
    assert x == 10 * (y / 10) + (b - a);
    if b > a {
      assert x % 10 == b - a;
    } else {
      assert x == 10 * (y / 10 - 1) + (10 + b - a);
      assert x % 10 == 10 + b - a;
    }
  }

  // ---------------------------------------------------------------------
  // IBAN

  /** The IBAN as checked: "IR" is put in front when it is not there. */
  function IbanPrefixed(iban: string): (t: string)
    ensures HasPrefix(t, "IR")
    ensures HasPrefix(iban, "IR") ==> t == iban
  {
    if HasPrefix(iban, "IR") then iban else "IR" + iban
  }

  /** `^IR[0-9]{24}$` */
  const IbanPattern: seq<Piece> := [Piece(Lit('I'), 1, Some(1)), Piece(Lit('R'), 1, Some(1)), Digits(24)]

  predicate IbanShape(t: string) {
    |t| == 26 && t[..2] == "IR" && AllDigits(t[2..])
  }

  lemma IbanPatternMeaning(t: string)
    ensures Match(IbanPattern, t) <==> IbanShape(t)
  {
    TwoThenDigits(Lit('I'), Lit('R'), 24, t);
    if |t| > 1 {
      LitMeaning('I', t[0]);
      LitMeaning('R', t[1]);
    }
  }

  /** The digits "1827" stand for the letters I (18) and R (27). */
  const CountryDigits: string := "1827"

  lemma CountryDigitsValue()
    ensures AllDigits(CountryDigits) && DecimalValue(CountryDigits) == 1827
  {
    var s := CountryDigits;
    assert AllDigits(s) by { forall j | 0 <= j < 4 ensures IsDigit(s[j]) { } }
    assert s[1..] == "827" && s[1..][1..] == "27" && s[1..][1..][1..] == "7" && s[1..][1..][1..][1..] == [];
  }

  /**
    IsValidIranianIBAN as written: "IR" then 24 digits, and the digits after
    "IR" followed by 1827 leave remainder 1 modulo 97. (The big.Int parse
    cannot fail once the pattern has matched.)
   */
  function IsValidIranianIBAN(iban: string): (ok: bool)
    ensures ok <==> (IbanShape(IbanPrefixed(iban))
      && AllDigits(IbanPrefixed(iban)[2..] + CountryDigits)
      && DecimalValue(IbanPrefixed(iban)[2..] + CountryDigits) % 97 == 1)
  {
    var t := IbanPrefixed(iban);
    IbanPatternMeaning(t);
    if !Match(IbanPattern, t) then false
    else
      CountryDigitsValue();
      DecimalValueAppend(t[2..], CountryDigits);
      DecimalValue(t[2..] + CountryDigits) % 97 == 1
  }

  /** Missing "IR" is supplied: the check of s and of "IR" + s agree. */
  lemma IbanPrefixSupplied(s: string)
    requires !HasPrefix(s, "IR")
    ensures IsValidIranianIBAN(s) == IsValidIranianIBAN("IR" + s)
  {
    assert ("IR" + s)[..2] == "IR";
  }

  lemma Pow10Values()
    ensures Pow10(2) == 100 && Pow10(4) == 10000
    ensures Pow10(22) == 10000000000000000000000 && Pow10(26) == 100000000000000000000000000
  {
    Pow10Add(2, 2);
    assert Pow10(4) == 10000;
    Pow10Add(4, 4);
    assert Pow10(8) == 100000000;
    Pow10Add(8, 8);
    assert Pow10(16) == 10000000000000000;
    Pow10Add(16, 4);
    assert Pow10(20) == 100000000000000000000;
    Pow10Add(20, 2);
    assert Pow10(22) == 10000000000000000000000;
    Pow10Add(22, 4);
  }

  /** The number the code reduces: check digits, then the BBAN, then 1827. */
  lemma IbanAsWrittenNumber(kk: string, bban: string)
    requires |kk| == 2 && AllDigits(kk) && |bban| == 22 && AllDigits(bban)
    ensures IsValidIranianIBAN("IR" + kk + bban) <==>
      (DecimalValue(kk) * 100000000000000000000000000 + DecimalValue(bban) * 10000 + 1827) % 97 == 1
  {
    var t := "IR" + kk + bban;
    assert t[..2] == "IR" && t[2..] == kk + bban;
    DecimalValueAppend(kk, bban);
    CountryDigitsValue();
    DecimalValueAppend(kk + bban, CountryDigits);
    Pow10Values();
    Pow10Add(22, 4);
  }

  /**
    The IBAN check of ISO 13616-1 as computed with ISO 7064 MOD 97-10: the
    country code and check digits move behind the BBAN, the letters become
    1827, and the number must leave remainder 1 modulo 97.
   */
  function IsValidIranianIBANIso(iban: string): (ok: bool)
    ensures ok <==> (IbanShape(IbanPrefixed(iban))
      && AllDigits(IbanPrefixed(iban)[4..] + CountryDigits + IbanPrefixed(iban)[2..4])
      && DecimalValue(IbanPrefixed(iban)[4..] + CountryDigits + IbanPrefixed(iban)[2..4]) % 97 == 1)
  {
    var t := IbanPrefixed(iban);
    IbanPatternMeaning(t);
    if !Match(IbanPattern, t) then false
    else
      CountryDigitsValue();
      assert AllDigits(t[4..]) && AllDigits(t[2..4]) by {
        assert forall j :: 0 <= j < |t[4..]| ==> t[4..][j] == t[2..][j + 2];
        assert forall j :: 0 <= j < 2 ==> t[2..4][j] == t[2..][j];
      }
      DecimalValueAppend(t[4..], CountryDigits);
      DecimalValueAppend(t[4..] + CountryDigits, t[2..4]);
      DecimalValue(t[4..] + CountryDigits + t[2..4]) % 97 == 1
  }

  /** The number ISO reduces: the BBAN, then 1827, then the check digits. */
  lemma IbanIsoNumber(kk: string, bban: string)
    requires |kk| == 2 && AllDigits(kk) && |bban| == 22 && AllDigits(bban)
    ensures IsValidIranianIBANIso("IR" + kk + bban) <==>
      (DecimalValue(bban) * 1000000 + 182700 + DecimalValue(kk)) % 97 == 1
  {
    var t := "IR" + kk + bban;
    assert t[..2] == "IR" && t[2..] == kk + bban && t[4..] == bban && t[2..4] == kk;
    CountryDigitsValue();
    DecimalValueAppend(bban, CountryDigits);
    DecimalValueAppend(bban + CountryDigits, kk);
    Pow10Values();
  }

  /** The ISO check digits of a BBAN: 98 minus the remainder of BBAN, 1827, 00. */
  function IsoCheckDigits(bban: string): (k: nat)
    requires AllDigits(bban)
    ensures 2 <= k <= 98
  {
    98 - (DecimalValue(bban) * 1000000 + 182700) % 97
  }

  /** Remainder 1 is reached exactly by the addends congruent to 98 minus the remainder of v. */
  lemma CheckDigitsMod(v: nat, k: nat)
    ensures (v + k) % 97 == 1 <==> k % 97 == (98 - v % 97) % 97
  {
    var r, m := v % 97, k % 97;
    assert v + k == 97 * (v / 97 + k / 97) + (r + m);
    assert (v + k) % 97 == (r + m) % 97;
    if r + m >= 97 {
      assert (r + m) % 97 == r + m - 97;
    }
  }

  /** The corrected check accepts exactly the check digits IsoCheckDigits computes. */
  lemma IsoCheckDigitsUnique(kk: string, bban: string)
    requires |kk| == 2 && AllDigits(kk) && |bban| == 22 && AllDigits(bban)
    ensures IsValidIranianIBANIso("IR" + kk + bban) <==> DecimalValue(kk) % 97 == IsoCheckDigits(bban) % 97
  {
    IbanIsoNumber(kk, bban);
    CheckDigitsMod(DecimalValue(bban) * 1000000 + 182700, DecimalValue(kk));
  }

  /** Every BBAN has a valid IBAN under the corrected check. */
  lemma IsoCheckDigitsExist(bban: string)
    requires |bban| == 22 && AllDigits(bban)
    ensures IsValidIranianIBANIso("IR" + Numeral(IsoCheckDigits(bban), 2) + bban)
  {
    assert Pow10(2) == 100;
    NumeralValue(IsoCheckDigits(bban), 2);
    IsoCheckDigitsUnique(Numeral(IsoCheckDigits(bban), 2), bban);
  }

  /** The digits of the example IBANs below exist: "06", "95" and "2960000000100324200001". */
  lemma ExampleDigits()
    ensures DecimalValue(Numeral(2960000000100324200001, 22)) == 2960000000100324200001
    ensures DecimalValue(Numeral(6, 2)) == 6 && DecimalValue(Numeral(95, 2)) == 95
  {
    Pow10Values();
    NumeralValue(2960000000100324200001, 22);
    NumeralValue(6, 2);
    NumeralValue(95, 2);
  }

  /** IR062960000000100324200001 passes the ISO check and fails the code's (its remainder there is 55). */
  lemma IsoValidRejected(kk: string, bban: string)
    requires |kk| == 2 && AllDigits(kk) && DecimalValue(kk) == 6
    requires |bban| == 22 && AllDigits(bban) && DecimalValue(bban) == 2960000000100324200001
    ensures IsValidIranianIBANIso("IR" + kk + bban)
    ensures !IsValidIranianIBAN("IR" + kk + bban)
  {
    IbanAsWrittenNumber(kk, bban);
    IbanIsoNumber(kk, bban);
  }

  /** IR952960000000100324200001 passes the code's check and fails the ISO check. */
  lemma IsoInvalidAccepted(kk: string, bban: string)
    requires |kk| == 2 && AllDigits(kk) && DecimalValue(kk) == 95
    requires |bban| == 22 && AllDigits(bban) && DecimalValue(bban) == 2960000000100324200001
    ensures IsValidIranianIBAN("IR" + kk + bban)
    ensures !IsValidIranianIBANIso("IR" + kk + bban)
  {
    IbanAsWrittenNumber(kk, bban);
    IbanIsoNumber(kk, bban);
  }
}
