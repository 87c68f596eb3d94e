/**
 The forwarder's raw splicer (gateway/src/forwarder.cpp): it rewrites a stored event for the backend
 by copying member spans, so that a number is never parsed and printed again.

 `StringEnd`, `SpanEnd` and `Splice` say what the scanning methods compute on any text at all; the
 lemmas say what that means for the well-formed texts of module Json.
 */
module Splicer {
  import opened Options
  import opened Json

  datatype Fault =
    | NotAnObject
    | IncompleteObject
    | InvalidMember
    | UnterminatedString
    | InvalidKey
    | InvalidSeparator
    | IncompleteMember
    | MissingContent

  type Scan = Result<nat, Fault>

  function Past(n: nat, r: Scan): Scan {
    match r case Ok(m) => Ok(n + m) case Err(f) => Err(f)
  }

  /** `std::isspace` in the C locale. */
  predicate IsSpace(c: char) { c in " \t\n\r\U{b}\U{c}" }

  function SpaceRun(s: string): (n: nat)
    ensures n <= |s|
  {
    if s == "" || !IsSpace(s[0]) then 0 else 1 + SpaceRun(s[1..])
  }

  /** Length of a string body up to and including its closing quote; `s` starts after the opening one. */
  function StringEnd(s: string): (r: Scan)
    ensures r.Ok? ==> 0 < r.value <= |s|
  {
    if s == "" then Err(UnterminatedString)
    else if s[0] == '"' then Ok(1)
    else if s[0] != '\\' then Past(1, StringEnd(s[1..]))
    else if |s| == 1 then Err(UnterminatedString)
    else Past(2, StringEnd(s[2..]))
  }

  predicate Opens(c: char) { c == '{' || c == '[' }

  predicate Closes(c: char) { c == '}' || c == ']' }

  predicate EndsMember(c: char) { Closes(c) || c == ',' }

  /** Distance to the first separator or closing bracket outside every string and nested value. */
  function SpanEnd(s: string, depth: nat): (r: Scan)
    ensures r.Ok? ==> r.value < |s| && EndsMember(s[r.value])
    decreases |s|
  {
    if s == "" then Err(IncompleteMember)
    else if s[0] == '"' then
      match StringEnd(s[1..])
      case Err(f) => Err(f)
      case Ok(n) => Past(1 + n, SpanEnd(s[1 + n..], depth))
    else if Opens(s[0]) then Past(1, SpanEnd(s[1..], depth + 1))
    else if Closes(s[0]) then if depth == 0 then Ok(0) else Past(1, SpanEnd(s[1..], depth - 1))
    else if s[0] == ',' && depth == 0 then Ok(0)
    else Past(1, SpanEnd(s[1..], depth))
  }

  // The scanning loops

  method SkipSpace(source: string, start: nat) returns (position: nat)
    requires start <= |source|
    ensures position == start + SpaceRun(source[start..])
  {
    position := start;
    while position < |source| && IsSpace(source[position])
      invariant start <= position <= |source|
      invariant SpaceRun(source[start..]) == position - start + SpaceRun(source[position..])
    {
      assert source[position..][1..] == source[position + 1..];
      position := position + 1;
    }
  }

  /** The absolute answer of a scan that began at `start`. */
  function From(start: nat, r: Scan): Scan { Past(start, r) }

  method QuotedEnd(source: string, start: nat) returns (r: Scan)
    requires start <= |source|
    ensures start == |source| || source[start] != '"' ==> r == Err(InvalidMember)
    ensures start < |source| && source[start] == '"' ==> r == From(start + 1, StringEnd(source[start + 1..]))
  {
    if start >= |source| || source[start] != '"' {
      return Err(InvalidMember);
    }
    var position := start + 1;
    while position < |source|
      invariant start < position
      invariant position <= |source| ==>
        From(start + 1, StringEnd(source[start + 1..])) == From(position, StringEnd(source[position..]))
      invariant position > |source| ==> StringEnd(source[start + 1..]) == Err(UnterminatedString)
    {
      ghost var here := source[position..];
      assert here[1..] == source[position + 1..];
      assert |here| > 1 ==> here[2..] == source[position + 2..];
      if source[position] == '\\' {
        position := position + 1;
      } else if source[position] == '"' {
        return Ok(position + 1);
      }
      position := position + 1;
    }
    return Err(UnterminatedString);
  }

  method MemberEnd(source: string, start: nat) returns (r: Scan)
    requires start <= |source|
    ensures r == From(start, SpanEnd(source[start..], 0))
  {
    var depth: nat := 0;
    var position := start;
    while position < |source|
      invariant start <= position <= |source|
      invariant Rest(source, start, 0) == Rest(source, position, depth)
    {
      var symbol := source[position];
      if symbol == '"' {
        SpanEndString(source, position, depth);
        var quoted := QuotedEnd(source, position);
        if quoted.Err? {
          return quoted;
        }
        position := quoted.value;
        continue;
      }
      SpanEndStep(source, position, depth);
      if symbol == '{' || symbol == '[' {
        depth := depth + 1;
      } else if symbol == '}' || symbol == ']' {
        if depth == 0 {
          return Ok(position);
        }
        depth := depth - 1;
      } else if symbol == ',' && depth == 0 {
        return Ok(position);
      }
      position := position + 1;
    }
    return Err(IncompleteMember);
  }

  /** The answer still to be found from `position` on. */
  function Rest(source: string, position: nat, depth: nat): Scan
    requires position <= |source|
  {
    From(position, SpanEnd(source[position..], depth))
  }

  lemma SpanEndString(source: string, position: nat, depth: nat)
    requires position < |source| && source[position] == '"'
    ensures
      var quoted := From(position + 1, StringEnd(source[position + 1..]));
      Rest(source, position, depth) == if quoted.Err? then quoted else Rest(source, quoted.value, depth)
  {
    var here := source[position..];
    assert here[1..] == source[position + 1..];
    match StringEnd(here[1..])
    case Err(_) =>
    case Ok(n) => assert here[1 + n..] == source[position + 1 + n..];
  }

  lemma SpanEndStep(source: string, position: nat, depth: nat)
    requires position < |source| && source[position] != '"'
    ensures
      var symbol, here := source[position], Rest(source, position, depth);
      if Opens(symbol) then here == Rest(source, position + 1, depth + 1)
      else if Closes(symbol) && depth > 0 then here == Rest(source, position + 1, depth - 1)
      else if Closes(symbol) || (symbol == ',' && depth == 0) then here == Ok(position)
      else here == Rest(source, position + 1, depth)
  {
    assert source[position..][1..] == source[position + 1..];
  }

  // What the scans mean on well-formed texts

  /** Scanning `p + rest` from inside `depth` open brackets passes over the whole of `p`. */
  predicate Skips(p: string, rest: string, depth: nat) {
    SpanEnd(p + rest, depth) == Past(|p|, SpanEnd(rest, depth))
  }

  lemma SkipsConcat(p: string, q: string, rest: string, depth: nat)
    requires Skips(p, q + rest, depth) && Skips(q, rest, depth)
    ensures Skips(p + q, rest, depth)
  {
    assert p + q + rest == p + (q + rest);
  }

  predicate Plain(s: string) {
    forall i :: 0 <= i < |s| ==> !Opens(s[i]) && !Closes(s[i]) && s[i] != ',' && s[i] != '"'
  }

  lemma {:induction false} PlainSkips(p: string, rest: string, depth: nat)
    requires Plain(p)
    ensures Skips(p, rest, depth)
  {
    if p == "" {
      assert p + rest == rest;
    } else {
      PlainSkips(p[1..], rest, depth);
      assert (p + rest)[1..] == p[1..] + rest;
    }
  }

  lemma CommaSkips(rest: string, depth: nat)
    requires depth > 0
    ensures Skips(",", rest, depth)
  {
    assert ("," + rest)[1..] == rest;
  }

  lemma {:induction false} StringEndOnChars(raw: string, rest: string)
    requires ValidChars(raw)
    ensures StringEnd(raw + "\"" + rest) == Ok(|raw| + 1)
    decreases |raw|
  {
    var s := raw + "\"" + rest;
    if raw != "" {
      assert s[1..] == raw[1..] + "\"" + rest;
      if raw[0] != '\\' {
        StringEndOnChars(raw[1..], rest);
      } else {
        assert s[2..] == raw[2..] + "\"" + rest;
        if raw[1] == 'u' {
          HexPasses(raw[2..6], raw[6..], rest);
          assert raw[2..] == raw[2..6] + raw[6..];
          StringEndOnChars(raw[6..], rest);
        } else {
          StringEndOnChars(raw[2..], rest);
        }
      }
    }
  }

  lemma {:induction false} HexPasses(hex: string, raw: string, rest: string)
    requires forall i :: 0 <= i < |hex| ==> HexDigit(hex[i])
    ensures StringEnd(hex + raw + "\"" + rest) == Past(|hex|, StringEnd(raw + "\"" + rest))
  {
    if hex == "" {
      assert hex + raw == raw;
    } else {
      assert (hex + raw + "\"" + rest)[1..] == hex[1..] + raw + "\"" + rest;
      HexPasses(hex[1..], raw, rest);
    }
  }

  lemma QuotedSkips(raw: string, rest: string, depth: nat)
    requires ValidChars(raw)
    ensures Skips("\"" + raw + "\"", rest, depth)
  {
    var p := "\"" + raw + "\"";
    StringEndOnChars(raw, rest);
    assert (p + rest)[1..] == raw + "\"" + rest;
    assert (p + rest)[|p|..] == rest;
  }

  lemma BracketsSkip(open: char, body: string, close: char, rest: string, depth: nat)
    requires Opens(open) && Closes(close)
    requires Skips(body, [close] + rest, depth + 1)
    ensures Skips([open] + body + [close], rest, depth)
  {
    var all := [open] + body + [close] + rest;
    assert all[1..] == body + ([close] + rest);
    assert ([close] + rest)[1..] == rest;
    assert SpanEnd([close] + rest, depth + 1) == Past(1, SpanEnd(rest, depth));
    assert SpanEnd(all, depth) == Past(1, SpanEnd(all[1..], depth + 1));
  }

  lemma NumberIsPlain(digits: string)
    requires ValidNumber(digits)
    ensures Plain(digits)
  {
    var t := if digits != "" && digits[0] == '-' then digits[1..] else digits;
    UnsignedIsPlain(t, DigitRun(t));
    assert digits == t || digits == "-" + t;
  }

  lemma UnsignedIsPlain(t: string, n: nat)
    requires n == DigitRun(t) && ValidFraction(t[n..])
    ensures Plain(t)
  {
    hide DigitRun, ValidFraction;
    FractionIsPlain(t[n..]);
    DigitsArePlain(t[..n]);
    assert t == t[..n] + t[n..];
  }

  lemma DigitsArePlain(s: string)
    requires forall i :: 0 <= i < |s| ==> Digit(s[i])
    ensures Plain(s)
  {
  }

  lemma FractionIsPlain(s: string)
    requires ValidFraction(s)
    ensures Plain(s)
  {
    hide DigitRun, ValidExponent;
    if s != "" && s[0] == '.' {
      var n := DigitRun(s[1..]);
      ExponentIsPlain(s[1 + n..]);
      DigitsArePlain(s[1..][..n]);
      assert s == "." + s[1..][..n] + s[1 + n..];
    } else {
      ExponentIsPlain(s);
    }
  }

  lemma ExponentIsPlain(s: string)
    requires ValidExponent(s)
    ensures Plain(s)
  {
    if s != "" {
      var t := if |s| > 1 && s[1] in "+-" then s[2..] else s[1..];
      DigitsArePlain(t);
      assert s == s[..|s| - |t|] + t;
    }
  }

  lemma {:induction false} ValueSkips(v: Value, rest: string, depth: nat)
    requires Valid(v)
    ensures Skips(Text(v), rest, depth)
    decreases v, 1
  {
    hide Skips, ValidNumber, ValidChars;
    match v
    case Literal(name) => PlainSkips(name, rest, depth);
    case Number(digits) => NumberIsPlain(digits); PlainSkips(digits, rest, depth);
    case Quoted(raw) => QuotedSkips(raw, rest, depth);
    case Array(blank, es) =>
      var after := "]" + rest;
      if es == [] {
        PlainSkips(blank, after, depth + 1);
        BracketsSkip('[', blank, ']', rest, depth);
      } else {
        ElementsSkip(es, after, depth + 1);
        BracketsSkip('[', ElementsText(es), ']', rest, depth);
      }
    case Object(blank, ms) =>
      var after := "}" + rest;
      if ms == [] {
        PlainSkips(blank, after, depth + 1);
        BracketsSkip('{', blank, '}', rest, depth);
      } else {
        MembersSkip(ms, after, depth + 1);
        BracketsSkip('{', MembersText(ms), '}', rest, depth);
      }
  }

  /** Blanks, a value, blanks: the shape of an array element and of a member after its colon. */
  lemma {:induction false} PaddedSkips(before: string, v: Value, after: string, rest: string, depth: nat)
    requires Blank(before) && Valid(v) && Blank(after)
    ensures Skips(before + Text(v) + after, rest, depth)
    decreases v, 2
  {
    hide Skips, Text, Valid;
    PlainSkips(after, rest, depth);
    ValueSkips(v, after + rest, depth);
    SkipsConcat(Text(v), after, rest, depth);
    PlainSkips(before, Text(v) + after + rest, depth);
    SkipsConcat(before, Text(v) + after, rest, depth);
    assert before + Text(v) + after == before + (Text(v) + after);
  }

  lemma {:induction false} ElementsSkip(es: seq<Element>, rest: string, depth: nat)
    requires es != [] && ValidElements(es) && depth > 0
    ensures Skips(ElementsText(es), rest, depth)
    decreases es, 0
  {
    hide Skips, Text, Valid;
    var e := es[0];
    var first := e.before + Text(e.value) + e.after;
    if |es| == 1 {
      PaddedSkips(e.before, e.value, e.after, rest, depth);
    } else {
      var others := ElementsText(es[1..]);
      ElementsSkip(es[1..], rest, depth);
      CommaSkips(others + rest, depth);
      SkipsConcat(",", others, rest, depth);
      PaddedSkips(e.before, e.value, e.after, "," + others + rest, depth);
      SkipsConcat(first, "," + others, rest, depth);
      assert first + "," + others == first + ("," + others);
    }
  }

  lemma {:induction false} SpanSkips(m: Member, rest: string, depth: nat)
    requires ValidMember(m)
    ensures Skips(m.before + Span(m), rest, depth)
    decreases m, 2
  {
    hide Skips, Text, Valid, ValidChars;
    var key, colon := "\"" + m.key + "\"", m.afterKey + ":";
    var tail := m.beforeValue + Text(m.value) + m.after;
    PaddedSkips(m.beforeValue, m.value, m.after, rest, depth);
    PlainSkips(colon, tail + rest, depth);
    SkipsConcat(colon, tail, rest, depth);
    QuotedSkips(m.key, colon + tail + rest, depth);
    SkipsConcat(key, colon + tail, rest, depth);
    assert Span(m) == key + (colon + tail);
    PlainSkips(m.before, Span(m) + rest, depth);
    SkipsConcat(m.before, Span(m), rest, depth);
  }

  lemma {:induction false} MembersSkip(ms: seq<Member>, rest: string, depth: nat)
    requires ms != [] && ValidMembers(ms) && depth > 0
    ensures Skips(MembersText(ms), rest, depth)
    decreases ms, 0
  {
    hide Skips, ValidMember;
    var first := ms[0].before + Span(ms[0]);
    if |ms| == 1 {
      SpanSkips(ms[0], rest, depth);
    } else {
      var others := MembersText(ms[1..]);
      MembersSkip(ms[1..], rest, depth);
      CommaSkips(others + rest, depth);
      SkipsConcat(",", others, rest, depth);
      SpanSkips(ms[0], "," + others + rest, depth);
      SkipsConcat(first, "," + others, rest, depth);
      assert first + "," + others == first + ("," + others);
    }
  }

  /** The scan stops exactly at the separator after a member's value, whatever the value contains. */
  lemma SpanEndStopsAtSeparator(m: Member, rest: string)
    requires ValidMember(m) && rest != "" && EndsMember(rest[0])
    ensures SpanEnd(m.beforeValue + Text(m.value) + m.after + rest, 0)
      == Ok(|m.beforeValue + Text(m.value) + m.after|)
  {
    hide Text, Valid, ValidChars;
    PaddedSkips(m.beforeValue, m.value, m.after, rest, 0);
  }

  // Building the backend's event

  const SCHEMA_KEY := "schema_version"
  const RECEIPT_KEY := "gateway_received_at"

  /** One character as `nlohmann::json::dump` spells it. */
  function DumpChar(c: char): string {
    if c == '"' then "\\\""
    else if c == '\\' then "\\\\"
    else if c == '\U{8}' then "\\b"
    else if c == '\U{c}' then "\\f"
    else if c == '\n' then "\\n"
    else if c == '\r' then "\\r"
    else if c == '\t' then "\\t"
    else if c < ' ' then "\\u00" + [HexDigitOf(c as int / 16), HexDigitOf(c as int % 16)]
    else [c]
  }

  function Dump(s: string): string {
    if s == "" then "" else DumpChar(s[0]) + Dump(s[1..])
  }

  lemma DumpCharDecodes(c: char, rest: string)
    requires ValidChars(rest)
    ensures ValidChars(DumpChar(c) + rest) && Decode(DumpChar(c) + rest) == Prepend(c, Decode(rest))
  {
    if c >= ' ' || c == '\U{8}' || c == '\U{c}' || c == '\n' || c == '\r' || c == '\t' {
      ShortEscapeDecodes(c, rest);
    } else {
      UnitEscapeDecodes(c, rest);
    }
  }

  lemma ShortEscapeDecodes(c: char, rest: string)
    requires ValidChars(rest)
    requires c >= ' ' || c == '\U{8}' || c == '\U{c}' || c == '\n' || c == '\r' || c == '\t'
    ensures ValidChars(DumpChar(c) + rest) && Decode(DumpChar(c) + rest) == Prepend(c, Decode(rest))
  {
    var s := DumpChar(c) + rest;
    if s[0] == '\\' {
      assert s[2..] == rest && s[1] in "\"\\/bfnrt";
    } else {
      assert s[1..] == rest;
    }
  }

  lemma {:induction false} DumpRoundTrips(s: string)
    ensures ValidChars(Dump(s)) && Decode(Dump(s)) == Some(s)
  {
    if s != "" {
      DumpRoundTrips(s[1..]);
      DumpCharDecodes(s[0], Dump(s[1..]));
      assert s == [s[0]] + s[1..];
    }
  }

  datatype Progress = Progress(output: string, hasSchema: bool, hasMember: bool)

  /** One turn of the member loop: copies the span, or drops the schema version. */
  function Take(p: Progress, key: string, span: string): Progress {
    if key == SCHEMA_KEY then p.(hasSchema := true)
    else Progress(p.output + (if p.hasMember then "," else "") + span, p.hasSchema, true)
  }

  /** The member at the start of the text: its decoded key and the length of its span. */
  function ReadMember(t: string): (r: Result<(string, nat), Fault>)
    ensures r.Ok? ==> 0 < r.value.1 < |t|
  {
    if t == "" || t[0] != '"' then Err(InvalidMember)
    else if StringEnd(t[1..]).Err? then Err(StringEnd(t[1..]).error)
    else
      var n := StringEnd(t[1..]).value;
      var key := Decode(t[1..n]);
      if key.None? then Err(InvalidKey)
      else
        match ReadValue(t[1 + n..])
        case Err(f) => Err(f)
        case Ok(length) => Ok((key.value, 1 + n + length))
  }

  /** From the end of a key over its separator to the end of the value. */
  function ReadValue(u: string): (r: Scan)
    ensures r.Ok? ==> r.value < |u|
  {
    var w := u[SpaceRun(u)..];
    if w == "" || w[0] != ':' then Err(InvalidSeparator)
    else Past(SpaceRun(u) + 1, SpanEnd(w[1..], 0))
  }

  /** What the member loop makes of the rest of the text. */
  function SpliceMembers(s: string, p: Progress): Result<Progress, Fault>
    decreases |s|
  {
    var t := s[SpaceRun(s)..];
    if t == "" then Err(IncompleteObject)
    else if t[0] == '}' then Ok(p)
    else
      match ReadMember(t)
      case Err(f) => Err(f)
      case Ok((key, length)) =>
        var next := Take(p, key, t[..length]);
        if t[length] == '}' then Ok(next) else SpliceMembers(t[length + 1..], next)
  }

  function ReceiptText(receivedAt: string): string {
    "\"" + RECEIPT_KEY + "\"" + ":" + ("\"" + Dump(receivedAt) + "\"")
  }

  function Finish(p: Progress, receivedAt: string): Result<string, Fault> {
    if !p.hasSchema || !p.hasMember then Err(MissingContent)
    else Ok(p.output + "," + ReceiptText(receivedAt) + "}")
  }

  /** What `backend_event_json` computes, on any text. */
  function Splice(source: string, receivedAt: string): Result<string, Fault> {
    var t := source[SpaceRun(source)..];
    if t == "" || t[0] != '{' then Err(NotAnObject)
    else
      match SpliceMembers(t[1..], Progress("{", false, false))
      case Err(f) => Err(f)
      case Ok(p) => Finish(p, receivedAt)
  }

  method ReadValueAt(source: string, keyEnd: nat) returns (r: Scan)
    requires keyEnd <= |source|
    ensures r == From(keyEnd, ReadValue(source[keyEnd..]))
  {
    hide SpanEnd, SpaceRun;
    var position := SkipSpace(source, keyEnd);
    ghost var u := source[keyEnd..];
    ghost var w := u[SpaceRun(u)..];
    assert w == source[position..];
    if position >= |source| || source[position] != ':' {
      return Err(InvalidSeparator);
    }
    assert w[1..] == source[position + 1..];
    r := MemberEnd(source, position + 1);
  }

  method ReadMemberAt(source: string, start: nat) returns (r: Result<(string, nat), Fault>)
    requires start <= |source|
    ensures
      var m := ReadMember(source[start..]);
      r == if m.Err? then m else Ok((m.value.0, start + m.value.1))
  {
    var quoted := QuotedEnd(source, start);
    ghost var t := source[start..];
    if quoted.Err? {
      assert start < |source| ==> t[1..] == source[start + 1..];
      return Err(quoted.error);
    }
    var keyEnd := quoted.value;
    assert t[1..] == source[start + 1..];
    assert t[1..keyEnd - start - 1] == source[start + 1..keyEnd - 1];
    assert t[keyEnd - start..] == source[keyEnd..];
    var key := Decode(source[start + 1..keyEnd - 1]);
    if key.None? {
      return Err(InvalidKey);
    }
    var end := ReadValueAt(source, keyEnd);
    if end.Err? {
      return Err(end.error);
    }
    return Ok((key.value, end.value));
  }

  lemma MembersTurn(source: string, position: nat, p: Progress)
    requires position <= |source|
    ensures
      var at := position + SpaceRun(source[position..]);
      && at <= |source|
      && SpliceMembers(source[position..], p)
         == (if at == |source| then Err(IncompleteObject)
             else if source[at] == '}' then Ok(p)
             else SpliceFrom(source, at, p))
  {
    hide ReadMember, Take, SpaceRun;
    var s := source[position..];
    assert s[SpaceRun(s)..] == source[position + SpaceRun(s)..];
  }

  /** The rest of the loop once a member starts at `at`. */
  function SpliceFrom(source: string, at: nat, p: Progress): Result<Progress, Fault>
    requires at < |source|
  {
    var t := source[at..];
    match ReadMember(t)
    case Err(f) => Err(f)
    case Ok((key, length)) =>
      var next := Take(p, key, t[..length]);
      if t[length] == '}' then Ok(next) else SpliceMembers(t[length + 1..], next)
  }

  /** The member loop from just after the opening brace. */
  method SpliceLoop(source: string, start: nat) returns (r: Result<Progress, Fault>)
    requires start <= |source|
    ensures r == SpliceMembers(source[start..], Progress("{", false, false))
  {
    hide ReadMember, Take, SpaceRun, Decode, SpliceMembers;
    var p, position := Progress("{", false, false), start;
    while true
      invariant position <= |source|
      invariant SpliceMembers(source[start..], Progress("{", false, false)) == SpliceMembers(source[position..], p)
      decreases |source| - position
    {
      MembersTurn(source, position, p);
      position := SkipSpace(source, position);
      if position >= |source| {
        return Err(IncompleteObject);
      }
      if source[position] == '}' {
        return Ok(p);
      }
      var member := ReadMemberAt(source, position);
      if member.Err? {
        return Err(member.error);
      }
      var (key, end) := member.value;
      assert source[position..][..end - position] == source[position..end];
      assert source[position..][end - position + 1..] == source[end + 1..];
      p := Take(p, key, source[position..end]);
      if source[end] == '}' {
        return Ok(p);
      }
      position := end + 1;
    }
  }

  method BackendEventJson(source: string, receivedAt: string) returns (r: Result<string, Fault>)
    ensures r == Splice(source, receivedAt)
  {
    hide SpliceMembers, Finish, SpaceRun;
    var position := SkipSpace(source, 0);
    assert source[0..] == source;
    if position >= |source| || source[position] != '{' {
      return Err(NotAnObject);
    }
    assert source[position..][1..] == source[position + 1..];
    var p := SpliceLoop(source, position + 1);
    if p.Err? {
      return Err(p.error);
    }
    r := Finish(p.value, receivedAt);
  }

  // The splicer's promise

  /** The members the backend still sees, in their order and spelling. */
  function Kept(ms: seq<Member>): (kept: seq<Member>)
    ensures |kept| <= |ms|
  {
    if ms == [] then []
    else if Decode(ms[0].key) == Some(SCHEMA_KEY) then Kept(ms[1..])
    else [ms[0].(before := "")] + Kept(ms[1..])
  }

  function Receipt(receivedAt: string): Member {
    Member("", RECEIPT_KEY, "", "", Quoted(Dump(receivedAt)), "")
  }

  predicate HasKey(ms: seq<Member>, key: string) {
    exists i :: 0 <= i < |ms| && Decode(ms[i].key) == Some(key)
  }

  predicate KeysDecode(ms: seq<Member>) {
    forall i :: 0 <= i < |ms| ==> Decode(ms[i].key).Some?
  }

  /** The loop's progress after a list of members, stated on trees. */
  function TakeAll(p: Progress, ms: seq<Member>): Progress
    requires KeysDecode(ms)
    decreases |ms|
  {
    if ms == [] then p else TakeAll(Take(p, Decode(ms[0].key).value, Span(ms[0])), ms[1..])
  }

  lemma SpaceRunOnBlank(b: string, rest: string)
    requires Blank(b) && rest != "" && !IsSpace(rest[0])
    ensures SpaceRun(b + rest) == |b| && (b + rest)[|b|..] == rest
  {
    if b == "" {
      assert b + rest == rest;
    } else {
      assert (b + rest)[1..] == b[1..] + rest;
      SpaceRunOnBlank(b[1..], rest);
    }
  }

  lemma ReadValueOnMember(m: Member, rest: string)
    requires ValidMember(m) && rest != "" && EndsMember(rest[0])
    ensures
      var tail := m.afterKey + ":" + (m.beforeValue + Text(m.value) + m.after);
      ReadValue(tail + rest) == Ok(|tail|)
  {
    hide Text, Valid, SpanEnd, ValidChars;
    var value := m.beforeValue + Text(m.value) + m.after;
    var w := ":" + value + rest;
    SpaceRunOnBlank(m.afterKey, w);
    assert m.afterKey + ":" + value + rest == m.afterKey + w;
    assert w[1..] == value + rest;
    SpanEndStopsAtSeparator(m, rest);
  }

  lemma ReadMemberOnSpan(m: Member, rest: string)
    requires ValidMember(m) && Decode(m.key).Some? && rest != "" && EndsMember(rest[0])
    ensures ReadMember(Span(m) + rest) == Ok((Decode(m.key).value, |Span(m)|))
  {
    hide Decode, StringEnd, ReadValue, ValidChars, Text, Valid;
    var tail := m.afterKey + ":" + (m.beforeValue + Text(m.value) + m.after);
    var t := Span(m) + rest;
    StringEndOnChars(m.key, tail + rest);
    assert t[1..] == m.key + "\"" + (tail + rest);
    var n := |m.key| + 1;
    assert t[1..n] == m.key && t[1 + n..] == tail + rest;
    ReadValueOnMember(m, rest);
  }

  lemma SpliceStep(s: string, p: Progress, key: string, length: nat)
    requires
      var t := s[SpaceRun(s)..];
      t != "" && t[0] == '"' && ReadMember(t) == Ok((key, length)) && length < |t|
    ensures
      var t := s[SpaceRun(s)..];
      var next := Take(p, key, t[..length]);
      SpliceMembers(s, p) == if t[length] == '}' then Ok(next) else SpliceMembers(t[length + 1..], next)
  {
    hide ReadMember, Take;
  }

  /** One member, read from the blank before it up to the separator behind it. */
  lemma SpliceOneMember(m: Member, rest: string, p: Progress)
    requires ValidMember(m) && Decode(m.key).Some?
    requires rest != "" && (rest[0] == '}' || rest[0] == ',')
    ensures
      var next := Take(p, Decode(m.key).value, Span(m));
      SpliceMembers(m.before + Span(m) + rest, p) ==
        if rest[0] == '}' then Ok(next) else SpliceMembers(rest[1..], next)
  {
    hide Decode, ReadMember, SpliceMembers, Take, Text, Valid, ValidChars;
    var t := Span(m) + rest;
    assert t[0] == '"';
    SpaceRunOnBlank(m.before, t);
    var s := m.before + Span(m) + rest;
    assert s == m.before + t;
    ReadMemberOnSpan(m, rest);
    assert t[..|Span(m)|] == Span(m) && t[|Span(m)|] == rest[0];
    assert t[|Span(m)| + 1..] == rest[1..];
    SpliceStep(s, p, Decode(m.key).value, |Span(m)|);
  }

  lemma {:induction false} SpliceAllMembers(ms: seq<Member>, rest: string, p: Progress)
    requires ms != [] && ValidMembers(ms) && KeysDecode(ms)
    ensures SpliceMembers(MembersText(ms) + "}" + rest, p) == Ok(TakeAll(p, ms))
    decreases |ms|
  {
    hide Decode, SpliceMembers, Take, Text, Valid, ValidChars;
    var m := ms[0];
    if |ms| == 1 {
      SpliceOneMember(m, "}" + rest, p);
      assert MembersText(ms) + "}" + rest == m.before + Span(m) + ("}" + rest);
    } else {
      var others := MembersText(ms[1..]) + "}" + rest;
      SpliceOneMember(m, "," + others, p);
      assert MembersText(ms) + "}" + rest == m.before + Span(m) + ("," + others);
      assert ("," + others)[1..] == others;
      SpliceAllMembers(ms[1..], rest, Take(p, Decode(m.key).value, Span(m)));
    }
  }

  lemma HasKeyStep(ms: seq<Member>, key: string)
    requires ms != []
    ensures HasKey(ms, key) == (Decode(ms[0].key) == Some(key) || HasKey(ms[1..], key))
  {
    hide Decode;
    assert forall i :: 0 <= i < |ms| - 1 ==> ms[1..][i] == ms[i + 1];
    if HasKey(ms[1..], key) {
      var i :| 0 <= i < |ms[1..]| && Decode(ms[1..][i].key) == Some(key);
      assert Decode(ms[i + 1].key) == Some(key);
    }
    if HasKey(ms, key) && Decode(ms[0].key) != Some(key) {
      var i :| 0 <= i < |ms| && Decode(ms[i].key) == Some(key);
      assert ms[1..][i - 1] == ms[i];
    }
  }

  /** The text a list of kept members adds to the output. */
  function Joined(p: Progress, kept: seq<Member>): string {
    if kept == [] then "" else (if p.hasMember then "," else "") + MembersText(kept)
  }

  lemma JoinedStep(p: Progress, m: Member, rest: seq<Member>)
    requires m.before == ""
    ensures
      var next := Progress(p.output + (if p.hasMember then "," else "") + Span(m), p.hasSchema, true);
      next.output + Joined(next, rest) == p.output + Joined(p, [m] + rest)
  {
    hide Span;
    var comma := if p.hasMember then "," else "";
    var all, text := [m] + rest, Span(m);
    assert all[1..] == rest && all[0] == m;
    assert m.before + text == text;
    if rest == [] {
      assert MembersText(all) == text;
      AppendAssoc(p.output, comma, text);
    } else {
      assert MembersText(all) == text + "," + MembersText(rest);
      AppendAssoc(p.output + comma, text, "," + MembersText(rest));
      AppendAssoc(p.output, comma, text + ("," + MembersText(rest)));
      AppendAssoc(text, ",", MembersText(rest));
    }
  }

  lemma AppendAssoc(a: string, b: string, c: string)
    ensures a + b + c == a + (b + c)
  {
  }

  lemma {:induction false} TakeAllKeeps(p: Progress, ms: seq<Member>)
    requires KeysDecode(ms)
    ensures
      var q := TakeAll(p, ms);
      && q.hasSchema == (p.hasSchema || HasKey(ms, SCHEMA_KEY))
      && q.hasMember == (p.hasMember || Kept(ms) != [])
      && q.output == p.output + Joined(p, Kept(ms))
    decreases |ms|
  {
    hide Decode, Span;
    if ms != [] {
      var first := Decode(ms[0].key).value;
      TakeAllKeeps(Take(p, first, Span(ms[0])), ms[1..]);
      HasKeyStep(ms, SCHEMA_KEY);
      if first != SCHEMA_KEY {
        var head := ms[0].(before := "");
        assert Span(head) == Span(ms[0]) by { SpanIgnoresBefore(ms[0]); }
        JoinedStep(p, head, Kept(ms[1..]));
      }
    }
  }

  lemma SpanIgnoresBefore(m: Member)
    ensures Span(m.(before := "")) == Span(m)
  {
  }

  lemma {:induction false} MembersTextConcat(a: seq<Member>, b: seq<Member>)
    requires a != [] && b != []
    ensures MembersText(a + b) == MembersText(a) + "," + MembersText(b)
  {
    assert (a + b)[1..] == a[1..] + b;
    if |a| == 1 {
      assert (a + b)[1..] == b;
    } else {
      MembersTextConcat(a[1..], b);
    }
  }

  lemma {:induction false} KeptIsValid(ms: seq<Member>)
    requires ValidMembers(ms)
    ensures ValidMembers(Kept(ms))
  {
    if ms != [] {
      KeptIsValid(ms[1..]);
      var rest := Kept(ms[1..]);
      assert ([ms[0].(before := "")] + rest)[1..] == rest;
    }
  }

  lemma SpliceOnObject(before: string, blank: string, ms: seq<Member>, after: string)
    requires Blank(before) && Valid(Object(blank, ms)) && KeysDecode(ms)
    ensures
      var source := before + Text(Object(blank, ms)) + after;
      var t := source[SpaceRun(source)..];
      && t != "" && t[0] == '{'
      && SpliceMembers(t[1..], Progress("{", false, false)) == Ok(TakeAll(Progress("{", false, false), ms))
  {
    hide Decode, Take, ReadMember, ValidChars, SpaceRun;
    var source := before + Text(Object(blank, ms)) + after;
    var p := Progress("{", false, false);
    var body := (if ms == [] then blank else MembersText(ms)) + "}" + after;
    SpaceRunOnBlank(before, "{" + body);
    assert source == before + ("{" + body);
    assert ("{" + body)[1..] == body;
    if ms == [] {
      SpaceRunOnBlank(blank, "}" + after);
      assert body == blank + ("}" + after);
    } else {
      SpliceAllMembers(ms, after, p);
    }
  }

  lemma ReceiptSpan(receivedAt: string)
    ensures MembersText([Receipt(receivedAt)]) == ReceiptText(receivedAt)
  {
    hide Dump;
    var m := Receipt(receivedAt);
    assert Text(m.value) == "\"" + Dump(receivedAt) + "\"";
    var key, value := "\"" + RECEIPT_KEY + "\"", Text(m.value);
    assert Span(m) == key + m.afterKey + ":" + m.beforeValue + value + m.after;
    assert key + "" + ":" + "" + value + "" == key + ":" + value;
    assert "" + Span(m) == Span(m);
  }

  lemma RewrittenText(ms: seq<Member>, receivedAt: string)
    requires ms != []
    ensures Text(Object("", ms + [Receipt(receivedAt)])) ==
      "{" + MembersText(ms) + "," + ReceiptText(receivedAt) + "}"
  {
    hide MembersText, Receipt, ReceiptText;
    var receipt := Receipt(receivedAt);
    MembersTextConcat(ms, [receipt]);
    ReceiptSpan(receivedAt);
    var all := ms + [receipt];
    assert Text(Object("", all)) == "{" + MembersText(all) + "}";
    assert "{" + (MembersText(ms) + "," + ReceiptText(receivedAt)) + "}"
        == "{" + MembersText(ms) + "," + ReceiptText(receivedAt) + "}";
  }

  lemma ReceiptIsValid(receivedAt: string)
    ensures ValidMember(Receipt(receivedAt))
  {
    hide Decode, Dump, ValidChars;
    DumpRoundTrips(receivedAt);
    ReceiptKeyDecodes();
  }

  lemma RewrittenIsValid(ms: seq<Member>, receivedAt: string)
    requires ValidMembers(ms)
    ensures Valid(Object("", Kept(ms) + [Receipt(receivedAt)]))
  {
    hide Decode, Dump, Kept, Receipt, ValidMember;
    KeptIsValid(ms);
    ReceiptIsValid(receivedAt);
    var receipt := Receipt(receivedAt);
    assert [receipt][1..] == [];
    assert ValidMembers([receipt]);
    ValidMembersConcat(Kept(ms), [receipt]);
  }

  /**
   For every well-formed object whose keys decode, the splicer answers the text of a well-formed
   object: the input's members other than the schema version, in order and spelled alike, followed
   by the receipt time.  It refuses exactly when there is no schema version or nothing besides it.
   */
  lemma SplicePreservesMeaning(before: string, blank: string, ms: seq<Member>, after: string, receivedAt: string)
    requires Blank(before) && Valid(Object(blank, ms)) && KeysDecode(ms)
    ensures
      var rewritten := Object("", Kept(ms) + [Receipt(receivedAt)]);
      && Valid(rewritten)
      && Splice(before + Text(Object(blank, ms)) + after, receivedAt) ==
        if HasKey(ms, SCHEMA_KEY) && Kept(ms) != [] then Ok(Text(rewritten)) else Err(MissingContent)
  {
    hide Decode, SpliceMembers, TakeAll, Dump, ValidChars, Text, Kept, HasKey, SpaceRun;
    RewrittenIsValid(ms, receivedAt);
    SpliceOnObject(before, blank, ms, after);
    TakeAllKeeps(Progress("{", false, false), ms);
    var q := TakeAll(Progress("{", false, false), ms);
    if Kept(ms) != [] {
      RewrittenText(Kept(ms), receivedAt);
      assert "" + MembersText(Kept(ms)) == MembersText(Kept(ms));
      assert q.output == "{" + MembersText(Kept(ms));
    }
  }

  // Reading a member by its key

  function Lookup(ms: seq<Member>, key: string): Option<Value> {
    if ms == [] then None
    else if Decode(ms[0].key) == Some(key) then Some(ms[0].value)
    else Lookup(ms[1..], key)
  }

  lemma LookupCons(m: Member, rest: seq<Member>, key: string)
    ensures Lookup([m] + rest, key) ==
      if Decode(m.key) == Some(key) then Some(m.value) else Lookup(rest, key)
  {
    hide Decode;
    assert ([m] + rest)[1..] == rest;
  }

  lemma KeptCons(ms: seq<Member>, last: Member, key: string)
    requires ms != [] && key != SCHEMA_KEY
    ensures Lookup(Kept(ms) + [last], key) ==
      if Decode(ms[0].key) == Some(key) then Some(ms[0].value) else Lookup(Kept(ms[1..]) + [last], key)
  {
    hide Decode, Lookup;
    if Decode(ms[0].key) != Some(SCHEMA_KEY) {
      var head := ms[0].(before := "");
      assert Kept(ms) + [last] == [head] + (Kept(ms[1..]) + [last]);
      LookupCons(head, Kept(ms[1..]) + [last], key);
    }
  }

  /** Every key but the schema version still names the same value, the receipt time aside. */
  lemma {:induction false} SpliceKeepsLookups(ms: seq<Member>, receivedAt: string, key: string)
    requires key != SCHEMA_KEY && key != RECEIPT_KEY
    ensures Lookup(Kept(ms) + [Receipt(receivedAt)], key) == Lookup(ms, key)
  {
    hide Decode, Dump;
    var receipt := Receipt(receivedAt);
    if ms == [] {
      ReceiptKeyDecodes();
      assert Kept(ms) + [receipt] == [receipt] + [];
      LookupCons(receipt, [], key);
    } else {
      SpliceKeepsLookups(ms[1..], receivedAt, key);
      KeptCons(ms, receipt, key);
    }
  }

  lemma {:induction false} KeptHasNoSchema(ms: seq<Member>, last: Member)
    requires Decode(last.key) != Some(SCHEMA_KEY)
    ensures Lookup(Kept(ms) + [last], SCHEMA_KEY) == None
  {
    hide Decode;
    if ms == [] {
      assert Kept(ms) + [last] == [last] + [];
      LookupCons(last, [], SCHEMA_KEY);
    } else {
      KeptHasNoSchema(ms[1..], last);
      if Decode(ms[0].key) != Some(SCHEMA_KEY) {
        var head := ms[0].(before := "");
        assert Kept(ms) + [last] == [head] + (Kept(ms[1..]) + [last]);
        LookupCons(head, Kept(ms[1..]) + [last], SCHEMA_KEY);
      }
    }
  }

  lemma {:induction false} ReceiptIsFound(ms: seq<Member>, receivedAt: string)
    requires !HasKey(ms, RECEIPT_KEY)
    ensures Lookup(Kept(ms) + [Receipt(receivedAt)], RECEIPT_KEY) == Some(Quoted(Dump(receivedAt)))
  {
    hide Decode, Dump, HasKey;
    var receipt := Receipt(receivedAt);
    if ms == [] {
      ReceiptKeyDecodes();
      assert Kept(ms) + [receipt] == [receipt] + [];
      LookupCons(receipt, [], RECEIPT_KEY);
    } else {
      HasKeyStep(ms, RECEIPT_KEY);
      ReceiptIsFound(ms[1..], receivedAt);
      KeptCons(ms, receipt, RECEIPT_KEY);
    }
  }

  /** The spliced object carries the receipt time and no schema version. */
  lemma SpliceSwapsEnvelope(ms: seq<Member>, receivedAt: string)
    requires !HasKey(ms, RECEIPT_KEY)
    ensures Lookup(Kept(ms) + [Receipt(receivedAt)], SCHEMA_KEY) == None
    ensures Lookup(Kept(ms) + [Receipt(receivedAt)], RECEIPT_KEY) == Some(Quoted(Dump(receivedAt)))
  {
    hide Decode, Dump, HasKey, Lookup, Kept;
    ReceiptKeyDecodes();
    KeptHasNoSchema(ms, Receipt(receivedAt));
    ReceiptIsFound(ms, receivedAt);
  }

  lemma {:induction false} PlainKeyDecodes(s: string)
    requires forall i :: 0 <= i < |s| ==> s[i] != '\\' && s[i] != '"' && s[i] >= ' '
    ensures ValidChars(s) && Decode(s) == Some(s)
  {
    if s != "" {
      PlainKeyDecodes(s[1..]);
      assert s == [s[0]] + s[1..];
    }
  }

  lemma ReceiptKeyDecodes()
    ensures ValidChars(RECEIPT_KEY) && Decode(RECEIPT_KEY) == Some(RECEIPT_KEY)
  {
    hide Decode, ValidChars;
    PlainKeyDecodes(RECEIPT_KEY);
  }
}
