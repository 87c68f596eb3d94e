/**
 JSON texts as RFC 8259 defines them: concrete syntax trees that remember every blank, and the
 text each tree stands for.  A text is well formed when it is the text of a valid tree.

 A character stands for one Unicode scalar value.  The gateway scans UTF-8 bytes, but it only ever
 compares them with ASCII characters, which never occur inside a multi-byte sequence.
 */
module Json {
  import opened Options

  /** `blank` is what stands between the brackets of an empty array or object. */
  datatype Value =
    | Literal(name: string)
    | Number(digits: string)
    | Quoted(raw: string)
    | Array(blank: string, elements: seq<Element>)
    | Object(blank: string, members: seq<Member>)

  datatype Element = Element(before: string, value: Value, after: string)

  datatype Member =
    Member(before: string, key: string, afterKey: string, beforeValue: string, value: Value, after: string)

  // Text

  function Text(v: Value): string
    decreases v, 1
  {
    match v
    case Literal(name) => name
    case Number(digits) => digits
    case Quoted(raw) => "\"" + raw + "\""
    case Array(blank, es) => "[" + (if es == [] then blank else ElementsText(es)) + "]"
    case Object(blank, ms) => "{" + (if ms == [] then blank else MembersText(ms)) + "}"
  }

  function ElementsText(es: seq<Element>): string
    requires es != []
    decreases es, 0
  {
    var first := es[0].before + Text(es[0].value) + es[0].after;
    if |es| == 1 then first else first + "," + ElementsText(es[1..])
  }

  /** A member from the first character of its key to the separator that follows it. */
  function Span(m: Member): string
    decreases m, 2
  {
    "\"" + m.key + "\"" + m.afterKey + ":" + m.beforeValue + Text(m.value) + m.after
  }

  function MembersText(ms: seq<Member>): string
    requires ms != []
    decreases ms, 0
  {
    var first := ms[0].before + Span(ms[0]);
    if |ms| == 1 then first else first + "," + MembersText(ms[1..])
  }

  // Grammar (RFC 8259 sections 2 to 7)

  predicate Blank(s: string) {
    forall i :: 0 <= i < |s| ==> s[i] in " \t\n\r"
  }

  predicate Digit(c: char) { '0' <= c <= '9' }

  predicate HexDigit(c: char) { Digit(c) || 'a' <= c <= 'f' || 'A' <= c <= 'F' }

  /** How many digits the text starts with. */
  function DigitRun(s: string): (n: nat)
    ensures n <= |s| && forall i :: 0 <= i < n ==> Digit(s[i])
    ensures n < |s| ==> !Digit(s[n])
  {
    if s == "" || !Digit(s[0]) then 0 else 1 + DigitRun(s[1..])
  }

  predicate ValidFraction(s: string) {
    if s != "" && s[0] == '.' then DigitRun(s[1..]) > 0 && ValidExponent(s[1 + DigitRun(s[1..])..])
    else ValidExponent(s)
  }

  predicate ValidExponent(s: string) {
    s == "" ||
    (s[0] in "eE" &&
     var t := if |s| > 1 && s[1] in "+-" then s[2..] else s[1..];
     0 < DigitRun(t) == |t|)
  }

  predicate ValidNumber(s: string) {
    var t := if s != "" && s[0] == '-' then s[1..] else s;
    var n := DigitRun(t);
    n > 0 && (t[0] == '0' ==> n == 1) && ValidFraction(t[n..])
  }

  /** The characters between the quotes of a string. */
  predicate ValidChars(raw: string) {
    if raw == "" then true
    else if raw[0] == '\\' then
      |raw| >= 2 &&
      if raw[1] == 'u' then
        |raw| >= 6 && (forall i :: 2 <= i < 6 ==> HexDigit(raw[i])) && ValidChars(raw[6..])
      else raw[1] in "\"\\/bfnrt" && ValidChars(raw[2..])
    else raw[0] != '"' && raw[0] >= ' ' && ValidChars(raw[1..])
  }

  predicate Valid(v: Value)
    decreases v, 1
  {
    match v
    case Literal(name) => name == "true" || name == "false" || name == "null"
    case Number(digits) => ValidNumber(digits)
    case Quoted(raw) => ValidChars(raw)
    case Array(blank, es) => Blank(blank) && (es != [] ==> blank == "") && ValidElements(es)
    case Object(blank, ms) => Blank(blank) && (ms != [] ==> blank == "") && ValidMembers(ms)
  }

  predicate ValidElements(es: seq<Element>)
    decreases es, 0
  {
    es == [] ||
    (Blank(es[0].before) && Valid(es[0].value) && Blank(es[0].after) && ValidElements(es[1..]))
  }

  predicate ValidMembers(ms: seq<Member>)
    decreases ms, 0
  {
    ms == [] || (ValidMember(ms[0]) && ValidMembers(ms[1..]))
  }

  predicate ValidMember(m: Member)
    decreases m, 2
  {
    && Blank(m.before) && ValidChars(m.key) && Blank(m.afterKey)
    && Blank(m.beforeValue) && Valid(m.value) && Blank(m.after)
  }

  lemma {:induction false} ValidMembersConcat(a: seq<Member>, b: seq<Member>)
    requires ValidMembers(a) && ValidMembers(b)
    ensures ValidMembers(a + b)
  {
    if a == [] {
      assert a + b == b;
    } else {
      assert (a + b)[1..] == a[1..] + b;
      ValidMembersConcat(a[1..], b);
    }
  }

  // Meaning of strings and numbers

  function HexValue(c: char): (n: nat)
    requires HexDigit(c)
    ensures n < 16
  {
    if Digit(c) then (c - '0') as int
    else if 'a' <= c <= 'f' then 10 + (c - 'a') as int
    else 10 + (c - 'A') as int
  }

  function HexDigitOf(n: nat): (c: char)
    requires n < 16
    ensures HexDigit(c) && HexValue(c) == n
  {
    if n < 10 then '0' + n as char else 'a' + (n - 10) as char
  }

  function CodeUnit(raw: string): (n: nat)
    requires |raw| >= 6 && forall i :: 2 <= i < 6 ==> HexDigit(raw[i])
    ensures n < 0x1_0000
  {
    4096 * HexValue(raw[2]) + 256 * HexValue(raw[3]) + 16 * HexValue(raw[4]) + HexValue(raw[5])
  }

  function Unescape(c: char): char {
    match c
    case 'b' => '\U{8}'
    case 'f' => '\U{c}'
    case 'n' => '\n'
    case 'r' => '\r'
    case 't' => '\t'
    case _ => c
  }

  function Prepend(c: char, rest: Option<string>): Option<string> {
    match rest case None => None case Some(s) => Some([c] + s)
  }

  /** The string a raw spelling denotes, or nothing when it is malformed or has a lone surrogate. */
  function Decode(raw: string): Option<string> {
    if raw == "" then Some("")
    else if raw[0] == '\\' then
      if |raw| < 2 then None
      else if raw[1] == 'u' then
        if |raw| < 6 || !(forall i :: 2 <= i < 6 ==> HexDigit(raw[i])) then None
        else
          var unit := CodeUnit(raw);
          if unit < 0xD800 || unit >= 0xE000 then Prepend(unit as char, Decode(raw[6..]))
          else if unit >= 0xDC00 then None
          else
            var low := raw[6..];
            if |low| < 6 || low[0] != '\\' || low[1] != 'u'
               || !(forall i :: 2 <= i < 6 ==> HexDigit(low[i])) then None
            else if CodeUnit(low) < 0xDC00 || CodeUnit(low) >= 0xE000 then None
            else
              var scalar := 0x1_0000 + 0x400 * (unit - 0xD800) + (CodeUnit(low) - 0xDC00);
              Prepend(scalar as char, Decode(raw[12..]))
      else if raw[1] in "\"\\/bfnrt" then Prepend(Unescape(raw[1]), Decode(raw[2..]))
      else None
    else if raw[0] == '"' || raw[0] < ' ' then None
    else Prepend(raw[0], Decode(raw[1..]))
  }

  /** A control character spelled as a four-digit escape decodes to itself. */
  lemma UnitEscapeDecodes(c: char, rest: string)
    requires ValidChars(rest) && c < ' '
    ensures
      var s := "\\u00" + [HexDigitOf(c as int / 16), HexDigitOf(c as int % 16)] + rest;
      ValidChars(s) && Decode(s) == Prepend(c, Decode(rest))
  {
    var s := "\\u00" + [HexDigitOf(c as int / 16), HexDigitOf(c as int % 16)] + rest;
    assert s[6..] == rest && s[1] == 'u';
    assert CodeUnit(s) == c as int;
  }

  // Sizes

  /** UTF-8 length of a text: what `std::string::size` reports. */
  function Bytes(s: string): (n: nat)
    ensures n >= |s|
  {
    if s == "" then 0 else Width(s[0]) + Bytes(s[1..])
  }

  function Width(c: char): (n: nat)
    ensures 1 <= n <= 4
  {
    if c < '\U{80}' then 1 else if c < '\U{800}' then 2 else if c < '\U{10000}' then 3 else 4
  }

  lemma {:induction false} BytesConcat(a: string, b: string)
    ensures Bytes(a + b) == Bytes(a) + Bytes(b)
  {
    if a == "" {
      assert a + b == b;
    } else {
      assert (a + b)[1..] == a[1..] + b;
      BytesConcat(a[1..], b);
    }
  }
}
