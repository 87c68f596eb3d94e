/**
 What a JSON number's spelling means to its two readers: the gateway's parser, which wants a finite double,
 and the backend's decoder, which wants an exact Python integer or Decimal.
 */
module Numbers {
  import opened Document
  import opened Events
  import opened Json
  import Formatting

  /** The number is digits * 10^scale, up to its sign; `whole` when it has neither fraction nor exponent. */
  datatype Spelling = Spelling(digits: string, scale: int, whole: bool)

  function Unsigned(s: string): string {
    if s != "" && s[0] == '-' then s[1..] else s
  }

  function Digits(s: string): (d: string)
    ensures AllDigits(d) && d <= s
  {
    s[..DigitRun(s)]
  }

  /** The fraction's digits, of what follows the whole part. */
  function Fraction(rest: string): (d: string)
    ensures AllDigits(d)
  {
    if rest != "" && rest[0] == '.' then Digits(rest[1..]) else ""
  }

  /** What follows the fraction. */
  function AfterFraction(rest: string): string {
    if rest != "" && rest[0] == '.' then rest[1 + DigitRun(rest[1..])..] else rest
  }

  function Exponent(s: string): int {
    if s == "" then 0
    else
      var signed := |s| > 1 && s[1] in "+-";
      var n: int := DigitsValue(Digits(if signed then s[2..] else s[1..]));
      if signed && s[1] == '-' then -n else n
  }

  function SpellingOf(s: string): (n: Spelling)
    ensures AllDigits(n.digits)
  {
    var t := Unsigned(s);
    var rest := t[DigitRun(t)..];
    Spelling(Digits(t) + Fraction(rest), Exponent(AfterFraction(rest)) - |Fraction(rest)|, rest == "")
  }

  // The gateway: a finite double

  /** Half a step above the largest double: from here on a spelling is read as infinite. */
  const TOO_LARGE: nat :=
    var step := 0x2_0000_0000_0000_0000_0000_0000;   // ten of these make 2^970
    0x3f_ffff_ffff_ffff * (step * step * step * step * step * step * step * step * step * step)

  /** The parser refuses a text with such a number. */
  predicate Overflows(s: string) {
    var n := SpellingOf(s);
    if n.scale >= 0 then DigitsValue(n.digits) * Formatting.Power(10, n.scale) >= TOO_LARGE
    else DigitsValue(n.digits) >= TOO_LARGE * Formatting.Power(10, -n.scale)
  }

  predicate Finite(s: string) {
    !Overflows(s)
  }

  // The backend: an exact number

  const MAX_INT_DIGITS := 4300
  const MAX_EXPONENT := 999_999_999_999_999_999
  const MIN_SCALE := -1_999_999_999_999_999_997

  /** The digits from the first that is not zero on; one zero when there is none. */
  function Significant(digits: string): nat {
    if |digits| <= 1 then 1 else if digits[0] == '0' then Significant(digits[1..]) else |digits|
  }

  /** `Decimal(text)` is exact within these bounds and raises `InvalidOperation` outside them. */
  predicate DecimalReads(n: Spelling) {
    n.scale >= MIN_SCALE && n.scale + Significant(n.digits) - 1 <= MAX_EXPONENT
  }

  predicate Decodes(s: string) {
    var n := SpellingOf(s);
    if n.whole then |n.digits| <= MAX_INT_DIGITS else DecimalReads(n)
  }

  // All numbers of a document

  predicate NumbersMeet(p: string -> bool, v: Value) {
    match v
    case Number(digits) => p(digits)
    case Array(_, es) => forall e :: e in es ==> NumbersMeet(p, e.value)
    case Object(_, ms) => forall m :: m in ms ==> NumbersMeet(p, m.value)
    case _ => true
  }

  // Ordinary numbers

  lemma PowerIsPositive(base: nat, n: nat)
    requires base > 0
    ensures Formatting.Power(base, n) >= 1
  {
  }

  lemma {:induction false} ValueBelowPower(s: string)
    requires AllDigits(s)
    ensures DigitsValue(s) < Formatting.Power(10, |s|)
  {
    if s != "" {
      ValueBelowPower(s[..|s| - 1]);
    }
  }

  lemma SignificantAtMost(digits: string)
    ensures 1 <= Significant(digits) <= if digits == "" then 1 else |digits|
  {
  }

  /** A printed counter is a whole number both readers take. */
  lemma CounterReads(n: nat)
    requires n <= MAX_COUNTER
    ensures Finite(Formatting.Decimal(n)) && Decodes(Formatting.Decimal(n))
  {
    hide Formatting.Digits;
    var s := Formatting.Decimal(n);
    Formatting.DecimalDigits(n);
    Formatting.NineteenDigits(n);
    Formatting.RunOfDigits(s, "");
    assert s + "" == s && s[0] in s;
    Formatting.SameValue(s);
    Formatting.ValueOfDigits(n, 10);
    assert Unsigned(s) == s && s[|s|..] == "" && Digits(s) + "" == s;
    assert SpellingOf(s) == Spelling(s, 0, true);
    assert Formatting.Power(10, 0) == 1;
  }

  /** How a number with a fraction and no exponent is read. */
  lemma FractionSpelling(t: string, whole: string, part: string)
    requires t == whole + ("." + part) && AllDigits(whole) && AllDigits(part)
    ensures DigitRun(t) == |whole| && t[|whole|..] == "." + part
    ensures Digits(t) == whole && Fraction("." + part) == part && AfterFraction("." + part) == ""
  {
    hide Exponent, Formatting.Digits;
    Formatting.RunOfDigits(whole, "." + part);
    Formatting.RunOfDigits(part, "");
    assert part + "" == part;
    assert t[..|whole|] == whole;
    assert ("." + part)[1..] == part && part[..|part|] == part;
  }

  /** A number with a short fraction and no exponent is one both readers take. */
  lemma FractionReads(s: string, whole: string, part: string)
    requires whole != "" && AllDigits(whole) && AllDigits(part) && 0 < |part| && |whole| + |part| <= 30
    requires s == whole + ("." + part) || s == "-" + (whole + ("." + part))
    ensures Finite(s) && Decodes(s)
  {
    hide Digits, Fraction, AfterFraction, DigitRun, DigitsValue, Significant, Formatting.Power;
    var t := whole + ("." + part);
    assert Unsigned(s) == t;
    FractionSpelling(t, whole, part);
    assert Exponent("") == 0;
    assert SpellingOf(s) == Spelling(whole + part, -|part|, false);
    SignificantAtMost(whole + part);
    SmallIsFinite(whole + part, |part|);
  }

  lemma SmallIsFinite(digits: string, places: nat)
    requires AllDigits(digits) && |digits| <= 30
    ensures DigitsValue(digits) < TOO_LARGE * Formatting.Power(10, places)
  {
    hide DigitsValue, Formatting.Power;
    ValueBelowPower(digits);
    PowersGrow(|digits|, 30);
    LargePower();
    PowerIsPositive(10, places);
    TimesGrows(TOO_LARGE, Formatting.Power(10, places));
  }

  lemma TimesGrows(a: nat, b: nat)
    requires b >= 1
    ensures a <= a * b
  {
  }

  lemma {:induction false} PowersGrow(m: nat, n: nat)
    requires m <= n
    ensures Formatting.Power(10, m) <= Formatting.Power(10, n)
  {
    if m < n {
      PowersGrow(m, n - 1);
    }
  }

  lemma LargePower()
    ensures Formatting.Power(10, 30) < TOO_LARGE
  {
    assert Formatting.Power(10, 6) == 1_000_000;
    assert Formatting.Power(10, 12) == 1_000_000_000_000;
    assert Formatting.Power(10, 18) == 1_000_000_000_000_000_000;
    assert Formatting.Power(10, 24) == 1_000_000_000_000_000_000_000_000;
  }

  // Numbers only one reader takes

  lemma {:induction false} LeadingDigit(s: string)
    requires s != "" && AllDigits(s)
    ensures DigitsValue(s) >= HexValue(s[0]) * Formatting.Power(10, |s| - 1)
  {
    if |s| == 1 {
      assert s[..0] == "";
    } else {
      var front := s[..|s| - 1];
      LeadingDigit(front);
      Tenfold(HexValue(s[0]), Formatting.Power(10, |s| - 2), DigitsValue(front));
    }
  }

  lemma Tenfold(d: nat, p: nat, n: nat)
    requires n >= d * p
    ensures 10 * n >= d * (10 * p)
  {
    assert d * (10 * p) == 10 * (d * p);
  }

  const TINY := "1e-9999999999999999999"
  const VAST_ZERO := "0e99999999999999999999"

  lemma EighteenZeros()
    ensures Formatting.Power(10, 18) == 1_000_000_000_000_000_000
  {
    assert Formatting.Power(10, 6) == 1_000_000;
    assert Formatting.Power(10, 12) == 1_000_000_000_000;
  }

  lemma NineteenZeros()
    ensures Formatting.Power(10, 19) == 10_000_000_000_000_000_000
  {
    hide Formatting.Power;
    EighteenZeros();
    NextPower(18);
  }

  lemma NextPower(n: nat)
    ensures Formatting.Power(10, n + 1) == 10 * Formatting.Power(10, n)
  {
  }

  lemma ExponentText(rest: string, signed: bool, t: string)
    requires t != "" && AllDigits(t) && rest == (if signed then "e-" else "e") + t
    ensures ValidExponent(rest) && rest != "" && rest[0] == 'e'
    ensures Exponent(rest) == if signed then 0 - DigitsValue(t) else DigitsValue(t)
  {
    hide DigitsValue;
    Formatting.RunOfDigits(t, "");
    assert t + "" == t && t[..|t|] == t;
    assert signed ==> rest[2..] == t;
    assert !signed ==> rest[1..] == t;
  }

  /** How a digit with an exponent is read. */
  lemma ExponentSpelling(s: string, d: char, signed: bool, t: string)
    requires Digit(d) && t != "" && AllDigits(t) && s == [d] + (if signed then "e-" else "e") + t
    ensures SpellingOf(s) == Spelling([d], if signed then 0 - DigitsValue(t) else DigitsValue(t), false)
    ensures ValidNumber(s)
  {
    hide DigitsValue, Exponent, ValidExponent;
    var rest := (if signed then "e-" else "e") + t;
    assert s == [d] + rest && s[1..] == rest;
    ExponentText(rest, signed, t);
    Formatting.RunOfDigits([d], rest);
    assert s[..1] == [d] && [d] + "" == [d];
  }

  lemma DeepIsRefused(s: string, d: char, n: nat)
    requires Digit(d) && SpellingOf(s) == Spelling([d], 0 - n, false) && n > 0 - MIN_SCALE
    ensures Finite(s) && !Decodes(s)
  {
    hide DigitsValue, Formatting.Power, SpellingOf;
    OneDigit(d);
    PowerIsPositive(10, n);
    TimesGrows(TOO_LARGE, Formatting.Power(10, n));
  }

  lemma VastIsRefused(s: string, n: nat)
    requires SpellingOf(s) == Spelling("0", n, false) && n > MAX_EXPONENT
    ensures Finite(s) && !Decodes(s)
  {
    hide DigitsValue, Formatting.Power, SpellingOf;
    OneDigit('0');
    assert DigitsValue("0") * Formatting.Power(10, n) == 0;
  }

  lemma NinesAreLarge(t: string)
    requires AllDigits(t) && |t| >= 19 && t[0] == '9'
    ensures DigitsValue(t) >= 9_000_000_000_000_000_000
  {
    hide DigitsValue;
    LeadingDigit(t);
    EighteenZeros();
    PowersGrow(18, |t| - 1);
  }

  /** The double nearest to it is zero; no Decimal is exact that far down. */
  lemma TinyIsRefused()
    ensures ValidNumber(TINY) && Finite(TINY) && !Decodes(TINY)
  {
    hide DigitsValue, ValidNumber, SpellingOf, Finite, Decodes;
    var t := "9999999999999999999";
    assert TINY == ['1'] + "e-" + t;
    ExponentSpelling(TINY, '1', true, t);
    NinesAreLarge(t);
    DeepIsRefused(TINY, '1', DigitsValue(t));
  }

  /** A zero, but one whose exponent no Decimal has. */
  lemma VastZeroIsRefused()
    ensures ValidNumber(VAST_ZERO) && Finite(VAST_ZERO) && !Decodes(VAST_ZERO)
  {
    hide DigitsValue, ValidNumber, SpellingOf, Finite, Decodes;
    var t := "99999999999999999999";
    assert VAST_ZERO == ['0'] + "e" + t;
    ExponentSpelling(VAST_ZERO, '0', false, t);
    NinesAreLarge(t);
    VastIsRefused(VAST_ZERO, DigitsValue(t));
  }

  lemma OneDigit(d: char)
    requires Digit(d)
    ensures DigitsValue([d]) == HexValue(d)
  {
    assert [d][..0] == "";
  }
}
