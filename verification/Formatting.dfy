/**
 The `printf` conversions the firmware uses: `%d`, `%0wd`, `%0wx` of numbers that are not negative.
 */
module Formatting {
  import Document
  import opened Events
  import Json

  /** The shortest spelling, at least one digit. */
  function Digits(n: nat, base: nat): (s: string)
    requires base == 10 || base == 16
    ensures s != "" && forall c :: c in s ==> Json.HexDigit(c)
  {
    if n < base then [Json.HexDigitOf(n)] else Digits(n / base, base) + [Json.HexDigitOf(n % base)]
  }

  function Zeros(n: nat): (s: string)
    ensures |s| == n && forall c :: c in s ==> c == '0'
  {
    seq(n, _ => '0')
  }

  /** `%0<width>`: zeros in front when the spelling is shorter than the width. */
  function Padded(n: nat, width: nat, base: nat): (s: string)
    requires base == 10 || base == 16
    ensures |s| >= width && forall c :: c in s ==> Json.HexDigit(c)
  {
    var s := Digits(n, base);
    if |s| >= width then s else Zeros(width - |s|) + s
  }

  function Decimal(n: nat): string {
    Digits(n, 10)
  }

  function Value(s: string, base: nat): nat
    requires forall c :: c in s ==> Json.HexDigit(c)
  {
    if s == "" then 0 else base * Value(s[..|s| - 1], base) + Json.HexValue(s[|s| - 1])
  }

  lemma Quotient(n: nat, base: nat, bound: nat)
    requires base == 10 || base == 16
    ensures n == base * (n / base) + n % base
    ensures n < base * bound ==> n / base < bound
  {
    if base == 10 {
      assert n == 10 * (n / 10) + n % 10;
    } else {
      assert n == 16 * (n / 16) + n % 16;
    }
  }

  lemma {:induction false} ValueOfDigits(n: nat, base: nat)
    requires base == 10 || base == 16
    ensures Value(Digits(n, base), base) == n
  {
    if n < base {
      assert Value([Json.HexDigitOf(n)][..0], base) == 0;
    } else {
      var s := Digits(n / base, base);
      Quotient(n, base, 0);
      ValueOfDigits(n / base, base);
      assert Digits(n, base)[..|s|] == s;
    }
  }

  lemma {:induction false} ZerosAddNothing(k: nat, s: string, base: nat)
    requires forall c :: c in s ==> Json.HexDigit(c)
    ensures forall c :: c in Zeros(k) + s ==> Json.HexDigit(c)
    ensures Value(Zeros(k) + s, base) == Value(s, base)
    decreases |s|, k
  {
    var t := Zeros(k) + s;
    if s != "" {
      assert t[..|t| - 1] == Zeros(k) + s[..|s| - 1];
      ZerosAddNothing(k, s[..|s| - 1], base);
    } else if k > 0 {
      assert t[..|t| - 1] == Zeros(k - 1) + s;
      ZerosAddNothing(k - 1, s, base);
    }
  }

  /** A padded spelling still denotes its number, so equal spellings come from equal numbers. */
  lemma PaddedValue(n: nat, width: nat, base: nat)
    requires base == 10 || base == 16
    ensures Value(Padded(n, width, base), base) == n
  {
    ValueOfDigits(n, base);
    if |Digits(n, base)| < width {
      ZerosAddNothing(width - |Digits(n, base)|, Digits(n, base), base);
    }
  }

  function Power(base: nat, exponent: nat): nat {
    if exponent == 0 then 1 else base * Power(base, exponent - 1)
  }

  lemma {:induction false} DigitsLength(n: nat, width: nat, base: nat)
    requires (base == 10 || base == 16) && n < Power(base, width) && width > 0
    ensures |Digits(n, base)| <= width
  {
    if n >= base {
      Quotient(n, base, Power(base, width - 1));
      assert width > 1 by {
        assert Power(base, 1) == base * Power(base, 0);
      }
      DigitsLength(n / base, width - 1, base);
    }
  }

  /** Numbers that fit are spelt with exactly the width. */
  lemma PaddedLength(n: nat, width: nat, base: nat)
    requires (base == 10 || base == 16) && n < Power(base, width) && width > 0
    ensures |Padded(n, width, base)| == width
  {
    DigitsLength(n, width, base);
  }

  /** A 64-bit counter prints in at most 19 digits. */
  lemma NineteenDigits(n: nat)
    requires n <= MAX_COUNTER
    ensures |Decimal(n)| <= 19
  {
    hide Digits;
    assert Power(10, 6) == 1000000;
    assert Power(10, 12) == 1000000000000;
    assert Power(10, 19) == 10000000000000000000;
    DigitsLength(n, 19, 10);
  }

  // Decimal spellings as JSON numbers

  lemma {:induction false} DecimalDigits(n: nat)
    ensures forall c :: c in Decimal(n) ==> Json.Digit(c)
    ensures n > 0 ==> Decimal(n)[0] != '0'
    ensures n < 10 ==> |Decimal(n)| == 1
  {
    if n >= 10 {
      DecimalDigits(n / 10);
    }
  }

  lemma {:induction false} SameValue(s: string)
    requires forall c :: c in s ==> Json.Digit(c)
    ensures Document.DigitsValue(s) == Value(s, 10)
  {
    if s != "" {
      SameValue(s[..|s| - 1]);
    }
  }

  lemma {:induction false} RunOfDigits(s: string, rest: string)
    requires forall c :: c in s ==> Json.Digit(c)
    requires rest == "" || !Json.Digit(rest[0])
    ensures Json.DigitRun(s + rest) == |s|
  {
    if s == "" {
      assert s + rest == rest;
    } else {
      assert (s + rest)[1..] == s[1..] + rest;
      RunOfDigits(s[1..], rest);
    }
  }

  /** `%d` prints a JSON number that reads back as the same integer. */
  lemma DecimalIsNumber(n: nat)
    ensures Json.ValidNumber(Decimal(n))
    ensures n < 0x1_0000_0000_0000_0000 ==> Document.NumberDoc(Decimal(n)) == Document.Integer(n)
  {
    var s := Decimal(n);
    DecimalDigits(n);
    SameValue(s);
    ValueOfDigits(n, 10);
    RunOfDigits(s, "");
    assert s + "" == s && s[|s|..] == "";
    assert s[0] in s;
  }
}
