/**
 UTF-8 (RFC 3629) as the firmware's C strings carry it: a byte is a character below 256, so one
 function can spell both bytes and Unicode text.
 */
module Utf8 {
  import Json

  predicate IsBytes(s: string) {
    forall i :: 0 <= i < |s| ==> s[i] < '\U{100}'
  }

  predicate Ascii(s: string) {
    forall i :: 0 <= i < |s| ==> s[i] < '\U{80}'
  }

  /** The bytes of a C string: none is the terminator. */
  predicate CText(s: string) {
    IsBytes(s) && '\0' !in s
  }

  function EncodeChar(c: char): (s: string)
    ensures |s| == Json.Width(c) && IsBytes(s)
    ensures c < '\U{80}' ==> s == [c]
    ensures c >= '\U{80}' ==> forall i :: 0 <= i < |s| ==> s[i] >= '\U{80}'
  {
    var n := c as int;
    if n < 0x80 then [c]
    else if n < 0x800 then [(0xC0 + n / 64) as char, (0x80 + n % 64) as char]
    else if n < 0x1_0000 then [(0xE0 + n / 4096) as char, (0x80 + n / 64 % 64) as char, (0x80 + n % 64) as char]
    else
      [(0xF0 + n / 0x4_0000) as char, (0x80 + n / 4096 % 64) as char, (0x80 + n / 64 % 64) as char,
       (0x80 + n % 64) as char]
  }

  function Encode(s: string): (bytes: string)
    ensures |bytes| == Json.Bytes(s) && IsBytes(bytes)
  {
    if s == "" then "" else EncodeChar(s[0]) + Encode(s[1..])
  }

  lemma {:induction false} EncodeConcat(a: string, b: string)
    ensures Encode(a + b) == Encode(a) + Encode(b)
  {
    hide EncodeChar;
    if a == "" {
      assert a + b == b;
    } else {
      assert (a + b)[1..] == a[1..] + b;
      EncodeConcat(a[1..], b);
    }
  }

  lemma {:induction false} EncodeAscii(s: string)
    requires Ascii(s)
    ensures Encode(s) == s
  {
    if s != "" {
      EncodeAscii(s[1..]);
    }
  }

  // The encoding is one to one

  lemma Head(a: char, s: string, b: char, t: string)
    requires EncodeChar(a) + s == EncodeChar(b) + t
    ensures a == b && s == t
  {
    var u := EncodeChar(a) + s;
    LeadByte(a);
    LeadByte(b);
    assert u[0] == EncodeChar(a)[0] == EncodeChar(b)[0];
    var n := |EncodeChar(a)|;
    assert n == |EncodeChar(b)|;
    assert u[..n] == EncodeChar(a) && u[..n] == EncodeChar(b);
    assert u[n..] == s && u[n..] == t;
    SameBytes(a, b);
  }

  /** The first byte tells how many there are. */
  lemma LeadByte(c: char)
    ensures
      var b := EncodeChar(c)[0] as int;
      |EncodeChar(c)| == if b < 0x80 then 1 else if b < 0xE0 then 2 else if b < 0xF0 then 3 else 4
  {
  }

  lemma SameBytes(a: char, b: char)
    requires EncodeChar(a) == EncodeChar(b)
    ensures a == b
  {
    var m, n, s, t := a as int, b as int, EncodeChar(a), EncodeChar(b);
    LeadByte(a);
    LeadByte(b);
    assert s[0] == t[0];
    if |s| == 2 {
      assert s[1] == t[1];
    } else if |s| == 3 {
      assert s[1] == t[1] && s[2] == t[2];
      Sextets(m);
      Sextets(n);
    } else if |s| == 4 {
      assert s[1] == t[1] && s[2] == t[2] && s[3] == t[3];
      Sextets(m);
      Sextets(n);
    }
  }

  lemma Sextets(n: nat)
    ensures n == 4096 * (n / 4096) + 64 * (n / 64 % 64) + n % 64
    ensures n / 4096 == 64 * (n / 0x4_0000) + n / 4096 % 64
  {
  }

  lemma {:induction false} EncodeInjective(a: string, b: string)
    requires Encode(a) == Encode(b)
    ensures a == b
  {
    hide EncodeChar;
    if a != "" && b != "" {
      Head(a[0], Encode(a[1..]), b[0], Encode(b[1..]));
      EncodeInjective(a[1..], b[1..]);
      assert a == [a[0]] + a[1..] && b == [b[0]] + b[1..];
    }
  }

  // What the bytes denote (section 3 of RFC 3629)

  /** The scalar value that a sequence of one to four bytes stands for. */
  function Denoted(bytes: seq<char>): int
    requires 1 <= |bytes| <= 4
  {
    var tail := i requires 0 <= i < |bytes| => bytes[i] as int - 0x80;
    match |bytes|
    case 1 => bytes[0] as int
    case 2 => (bytes[0] as int - 0xC0) * 0x40 + tail(1)
    case 3 => (bytes[0] as int - 0xE0) * 0x1000 + tail(1) * 0x40 + tail(2)
    case _ => (bytes[0] as int - 0xF0) * 0x4_0000 + tail(1) * 0x1000 + tail(2) * 0x40 + tail(3)
  }

  /** The lead byte tells the length, and continuation bytes are recognizable. */
  predicate WellLed(bytes: seq<char>) {
    && 1 <= |bytes| <= 4
    && (var lead := bytes[0] as int;
        match |bytes|
        case 1 => lead < 0x80
        case 2 => 0xC2 <= lead < 0xE0
        case 3 => 0xE0 <= lead < 0xF0
        case _ => 0xF0 <= lead < 0xF5)
    && forall i :: 1 <= i < |bytes| ==> 0x80 <= bytes[i] as int < 0xC0
  }

  /** A character's bytes are a well-led sequence that denotes it. */
  lemma EncodeCharDenotes(c: char)
    ensures WellLed(EncodeChar(c)) && Denoted(EncodeChar(c)) == c as int
  {
    var n := c as int;
    SixBitGroups(n);
  }

  lemma SixBitGroups(n: nat)
    ensures n == n / 64 * 0x40 + n % 64
    ensures n == n / 4096 * 0x1000 + n / 64 % 64 * 0x40 + n % 64
    ensures n == n / 0x4_0000 * 0x4_0000 + n / 4096 % 64 * 0x1000 + n / 64 % 64 * 0x40 + n % 64
  {
    DivideTwice(n, 64);
    DivideTwice(n, 4096);
    assert n / 64 == n / 64 / 64 * 64 + n / 64 % 64;
    assert n / 4096 == n / 4096 / 64 * 64 + n / 4096 % 64;
  }

  lemma DivideTwice(n: nat, d: nat)
    requires d == 64 || d == 4096
    ensures n / d / 64 == n / (64 * d)
  {
  }
}
