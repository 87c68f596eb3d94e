/**
 What the encoder's text is: one JSON object whose strings read back as the event's own, the UTF-8 of
 the same event in Unicode, and never too long for the publisher's buffer.
 */
module EncoderProperties {
  import opened Options
  import opened CompactJson
  import opened Encoder
  import opened Events
  import Batch
  import EventParser
  import Formatting
  import Json
  import Utf8

  // Strings read back

  lemma EscapeCharDecodes(c: char, rest: string)
    requires Json.ValidChars(rest)
    ensures
      var s := EscapeChar(c) + rest;
      Json.ValidChars(s) && Json.Decode(s) == Json.Prepend(c, Json.Decode(rest))
  {
    if c < ' ' {
      Json.UnitEscapeDecodes(c, rest);
    } else {
      var s := EscapeChar(c) + rest;
      if s[0] == '\\' {
        assert s[2..] == rest && s[1] in "\"\\/bfnrt";
      } else {
        assert s[1..] == rest;
      }
    }
  }

  /** The escaped spelling of any string is well formed and denotes that string. */
  lemma {:induction false} EscapeRoundTrips(s: string)
    ensures Json.ValidChars(Escape(s)) && Json.Decode(Escape(s)) == Some(s)
  {
    hide EscapeChar;
    if s != "" {
      EscapeRoundTrips(s[1..]);
      EscapeCharDecodes(s[0], Escape(s[1..]));
      assert s == [s[0]] + s[1..];
    }
  }

  // The text is a JSON object

  function MeasuredValue(at: string): Json.Value {
    if at == "" then Json.Literal("null") else Json.Quoted(Escape(at))
  }

  const QUALITY_KEYS := ["reading", "clock"]

  function QualityValues(at: string): (values: seq<Json.Value>)
    ensures |values| == 2
  {
    [Json.Quoted("valid"), Json.Quoted(ClockWord(at))]
  }

  function Values(e: TelemetryEvent): (values: seq<Json.Value>)
    requires Acceptable(e)
    ensures |values| == 10
  {
    [Json.Number("1"),
     Json.Quoted(Escape(e.device)),
     Json.Quoted(Escape(e.boot)),
     Json.Number(Formatting.Decimal(e.sequence)),
     MeasuredValue(e.measuredAt),
     Json.Number(Formatting.Decimal(e.uptime)),
     Json.Quoted("temperature"),
     Json.Number(FixedPoint(e.temperature)),
     Json.Quoted("celsius"),
     Json.Object("", Members(QUALITY_KEYS, QualityValues(e.measuredAt)))]
  }

  /** The event as a JSON object with the members intake expects, in its order. */
  function Tree(e: TelemetryEvent): Json.Value
    requires Acceptable(e)
  {
    Json.Object("", Members(EventParser.FIELDS, Values(e)))
  }

  /** A member in compact form. */
  function Pair(key: string, text: string): string {
    "\"" + key + "\":" + text
  }

  lemma PlainSpan(key: string, value: Json.Value)
    ensures Json.Span(Plain(key, value)) == Pair(key, Json.Text(value))
  {
    hide Json.Text;
    assert "\"" + key + "\"" + "" + ":" + "" + Json.Text(value) + "" == "\"" + key + "\":" + Json.Text(value);
  }

  lemma MembersStep(key: string, value: Json.Value, rest: seq<Json.Member>)
    requires rest != []
    ensures Json.MembersText([Plain(key, value)] + rest) == Pair(key, Json.Text(value)) + "," + Json.MembersText(rest)
  {
    hide Json.Text, Json.Span, Pair;
    PlainSpan(key, value);
    var ms := [Plain(key, value)] + rest;
    assert ms[1..] == rest && ms[0].before == "";
  }

  lemma MembersLast(key: string, value: Json.Value)
    ensures Json.MembersText([Plain(key, value)]) == Pair(key, Json.Text(value))
  {
    hide Json.Text, Json.Span, Pair;
    PlainSpan(key, value);
  }

  /** A member written after a comma, with what follows it. */
  function Then(key: string, text: string, rest: string): string {
    "," + (Pair(key, text) + rest)
  }

  /** The members written one after the other, from the i-th on. */
  function Chain(keys: seq<string>, texts: seq<string>, i: nat, after: string): string
    requires |keys| == |texts| && i <= |keys|
    decreases |keys| - i
  {
    if i == |keys| then after else Then(keys[i], texts[i], Chain(keys, texts, i + 1, after))
  }

  lemma {:induction false} MembersAreChained(
      keys: seq<string>, values: seq<Json.Value>, texts: seq<string>, i: nat, after: string)
    requires |keys| == |values| == |texts| && i < |keys|
    requires forall j :: 0 <= j < |values| ==> texts[j] == Json.Text(values[j])
    ensures
      Json.MembersText(Members(keys, values)[i..]) + after
      == Pair(keys[i], texts[i]) + Chain(keys, texts, i + 1, after)
    decreases |keys| - i
  {
    hide Json.Text, Json.MembersText, Pair;
    var ms := Members(keys, values)[i..];
    if i + 1 == |keys| {
      assert ms == [Plain(keys[i], values[i])];
      MembersLast(keys[i], values[i]);
    } else {
      var rest := Members(keys, values)[i + 1..];
      assert ms == [Plain(keys[i], values[i])] + rest;
      MembersStep(keys[i], values[i], rest);
      MembersAreChained(keys, values, texts, i + 1, after);
      Assoc(Pair(keys[i], texts[i]) + ",", Json.MembersText(rest), after);
      Assoc(Pair(keys[i], texts[i]), ",", Json.MembersText(rest) + after);
    }
  }

  lemma Assoc(a: string, b: string, c: string)
    ensures a + b + c == a + (b + c)
  {
  }

  lemma Assoc7(a: string, b: string, c: string, d: string, e: string, f: string, g: string)
    ensures a + b + c + d + e + f + g == a + (b + (c + (d + (e + (f + g)))))
  {
    Assoc(a + b + c + d + e, f, g);
    Assoc(a + b + c + d, e, f + g);
    Assoc(a + b + c, d, e + (f + g));
    Assoc(a + b, c, d + (e + (f + g)));
    Assoc(a, b, c + (d + (e + (f + g))));
  }

  function KeyText(key: string): string {
    "\"" + key + "\":"
  }

  lemma ThenText(key: string, text: string, rest: string)
    ensures Then(key, text, rest) == "," + KeyText(key) + (text + rest)
  {
    var k := KeyText(key);
    assert Pair(key, text) == k + text;
    assert "," + ((k + text) + rest) == "," + k + (text + rest) by {
      Assoc(k, text, rest);
      Assoc(",", k, text + rest);
    }
  }

  /** Two members, the first with a fixed value: the program writes them from one literal. */
  lemma ThenTwo(key: string, text: string, key2: string, text2: string, rest: string)
    ensures
      Then(key, text, Then(key2, text2, rest))
      == "," + KeyText(key) + text + "," + KeyText(key2) + (text2 + rest)
  {
    hide KeyText, Then;
    var k, k2 := "," + KeyText(key), "," + KeyText(key2);
    ThenText(key, text, Then(key2, text2, rest));
    ThenText(key2, text2, rest);
    Assoc(k + text, k2, text2 + rest);
    Assoc(k, text, k2 + (text2 + rest));
    Assoc(k + text, ",", KeyText(key2));
  }

  // The literals of the program, as the pieces of the object they are

  lemma UnitLiteral()
    ensures ",\"unit\":\"celsius\",\"quality\":" == "," + KeyText("unit") + "\"celsius\"" + "," + KeyText("quality")
  {
  }

  lemma MetricLiteral()
    ensures
      ",\"metric\":\"temperature\",\"value\":"
      == "," + KeyText("metric") + "\"temperature\"" + "," + KeyText("value")
  {
  }

  lemma BootAndUptimeLiterals()
    ensures ",\"device_uptime_ms\":" == "," + KeyText("device_uptime_ms")
    ensures ",\"boot_id\":" == "," + KeyText("boot_id")
  {
  }

  lemma SequenceLiteral()
    ensures ",\"sequence_number\":" == "," + KeyText("sequence_number")
  {
  }

  lemma MeasuredLiteral()
    ensures ",\"measured_at\":" == "," + KeyText("measured_at")
  {
  }

  lemma OpeningLiteral()
    ensures Opening() == "{" + Pair("schema_version", "1") + "," + KeyText("device_id")
  {
  }

  lemma TailText(uptime: string, value: string, quality: string)
    ensures
      Then("device_uptime_ms", uptime, Then("metric", "\"temperature\"", Then("value", value,
        Then("unit", "\"celsius\"", Then("quality", quality, "}")))))
      == ",\"device_uptime_ms\":" + uptime + ",\"metric\":\"temperature\",\"value\":"
         + value + ",\"unit\":\"celsius\",\"quality\":" + quality + "}"
  {
    hide Then, KeyText;
    BootAndUptimeLiterals();
    MetricLiteral();
    UnitLiteral();
    var u, m, c := ",\"device_uptime_ms\":", ",\"metric\":\"temperature\",\"value\":",
      ",\"unit\":\"celsius\",\"quality\":";
    var last := Then("unit", "\"celsius\"", Then("quality", quality, "}"));
    ThenTwo("unit", "\"celsius\"", "quality", quality, "}");
    ThenTwo("metric", "\"temperature\"", "value", value, last);
    ThenText("device_uptime_ms", uptime, Then("metric", "\"temperature\"", Then("value", value, last)));
    Assoc7(u, uptime, m, value, c, quality, "}");
  }

  lemma HeadText(device: string, boot: string, sequence: string, measured: string, rest: string)
    ensures
      "{" + (Pair("schema_version", "1") + Then("device_id", device, Then("boot_id", boot,
        Then("sequence_number", sequence, Then("measured_at", measured, rest)))))
      == Opening() + device + BootKey() + boot + (",\"sequence_number\":" + sequence + ",\"measured_at\":")
         + measured + rest
  {
    hide Then, KeyText, Pair, Opening;
    BootAndUptimeLiterals();
    SequenceLiteral();
    MeasuredLiteral();
    OpeningLiteral();
    var p := Pair("schema_version", "1");
    var s, m := ",\"sequence_number\":", ",\"measured_at\":";
    var fromSequence := Then("sequence_number", sequence, Then("measured_at", measured, rest));
    var fromBoot := Then("boot_id", boot, fromSequence);
    ThenText("measured_at", measured, rest);
    ThenText("sequence_number", sequence, Then("measured_at", measured, rest));
    ThenText("boot_id", boot, fromSequence);
    ThenText("device_id", device, fromBoot);
    Assoc("{", p, "," + KeyText("device_id") + (device + fromBoot));
    Assoc("{" + p, "," + KeyText("device_id"), device + fromBoot);
    Assoc("{" + p, ",", KeyText("device_id"));
    Assoc(s + sequence, m, measured + rest);
    Assoc(s, sequence, m + (measured + rest));
    var sp := s + sequence + m;
    assert fromSequence == sp + (measured + rest);
    Assoc(Opening() + device + BootKey() + boot + sp, measured, rest);
    Assoc(Opening() + device + BootKey() + boot, sp, measured + rest);
    Assoc(Opening() + device + BootKey(), boot, fromSequence);
    Assoc(Opening() + device, BootKey(), boot + fromSequence);
    Assoc(Opening(), device, fromBoot);
  }

  function Texts(e: TelemetryEvent): (texts: seq<string>)
    requires Acceptable(e)
    ensures |texts| == 10
  {
    ["1", Quote(e.device), Quote(e.boot), Formatting.Decimal(e.sequence), Measured(e.measuredAt),
     Formatting.Decimal(e.uptime), "\"temperature\"", FixedPoint(e.temperature), "\"celsius\"",
     Quality(e.measuredAt)]
  }

  lemma QualityText(at: string)
    ensures Json.Text(Json.Object("", Members(QUALITY_KEYS, QualityValues(at)))) == Quality(at)
  {
    hide Json.Text, Json.MembersText, ClockWord, Then, Pair;
    var keys, values := QUALITY_KEYS, QualityValues(at);
    var clock := "\"" + ClockWord(at) + "\"";
    var texts := ["\"valid\"", clock];
    QuotedText("valid");
    QuotedText(ClockWord(at));
    MembersAreChained(keys, values, texts, 0, "}");
    var ms := Members(keys, values);
    assert ms[0..] == ms;
    ObjectText(ms);
    assert Chain(keys, texts, 1, "}") == Then("clock", clock, "}");
    QualityLiteral(ClockWord(at));
  }

  lemma QuotedText(raw: string)
    ensures Json.Text(Json.Quoted(raw)) == "\"" + raw + "\""
  {
  }

  lemma ObjectText(ms: seq<Json.Member>)
    requires ms != []
    ensures Json.Text(Json.Object("", ms)) == "{" + (Json.MembersText(ms) + "}")
  {
    hide Json.MembersText;
    Assoc("{", Json.MembersText(ms), "}");
  }

  lemma QualityLiteral(word: string)
    ensures
      "{" + (Pair("reading", "\"valid\"") + Then("clock", "\"" + word + "\"", "}"))
      == "{\"reading\":\"valid\",\"clock\":\"" + word + "\"}"
  {
    hide Then, Pair, KeyText;
    var p := Pair("reading", "\"valid\"");
    ThenText("clock", "\"" + word + "\"", "}");
    assert "{" + p + "," + KeyText("clock") + "\"" == "{\"reading\":\"valid\",\"clock\":\"" by {
      ReadingLiteral();
    }
    var k := "," + KeyText("clock");
    Assoc("{", p, k + ("\"" + word + "\"" + "}"));
    Assoc("{" + p, k, "\"" + word + "\"" + "}");
    Assoc("{" + p, ",", KeyText("clock"));
    Assoc("\"", word, "\"");
    Assoc("\"", word + "\"", "}");
    Assoc("{" + p + k, "\"", word + "\"" + "}");
    Assoc(word, "\"", "}");
    Assoc("{" + p + k + "\"", word, "\"}");
  }

  lemma ReadingLiteral()
    ensures
      "{" + Pair("reading", "\"valid\"") + "," + KeyText("clock") + "\"" == "{\"reading\":\"valid\",\"clock\":\""
  {
  }

  lemma ValueTexts(e: TelemetryEvent)
    requires Acceptable(e)
    ensures forall i :: 0 <= i < 10 ==> Json.Text(Values(e)[i]) == Texts(e)[i]
  {
    hide Json.MembersText, Escape, FixedPoint, Formatting.Decimal, Quality;
    QualityText(e.measuredAt);
  }

  lemma ChainUnrolled(keys: seq<string>, t: seq<string>, after: string)
    requires |keys| == |t| == 10
    ensures
      Chain(keys, t, 1, after)
      == Then(keys[1], t[1], Then(keys[2], t[2], Then(keys[3], t[3], Then(keys[4], t[4], Chain(keys, t, 5, after)))))
    ensures
      Chain(keys, t, 5, after)
      == Then(keys[5], t[5], Then(keys[6], t[6], Then(keys[7], t[7], Then(keys[8], t[8],
           Then(keys[9], t[9], after)))))
  {
    hide Then;
    assert Chain(keys, t, 3, after) == Then(keys[3], t[3], Then(keys[4], t[4], Chain(keys, t, 5, after)));
    assert Chain(keys, t, 9, after) == Then(keys[9], t[9], Chain(keys, t, 10, after));
    assert Chain(keys, t, 8, after) == Then(keys[8], t[8], Then(keys[9], t[9], after));
    assert Chain(keys, t, 6, after) == Then(keys[6], t[6], Then(keys[7], t[7], Chain(keys, t, 8, after)));
  }

  /** What the encoder writes is the text of one JSON object. */
  lemma EncodingIsJson(e: TelemetryEvent)
    requires Acceptable(e)
    ensures Json.Text(Tree(e)) == Encoding(e)
  {
    hide Json.Text, Json.MembersText, Escape, FixedPoint, Formatting.Decimal, Quality, Quote, Measured, Then, Pair,
         Chain, Values, Opening, BootKey;
    var keys, texts := EventParser.FIELDS, Texts(e);
    var ms := Members(keys, Values(e));
    ValueTexts(e);
    MembersAreChained(keys, Values(e), texts, 0, "}");
    assert ms[0..] == ms;
    ObjectText(ms);
    ChainUnrolled(keys, texts, "}");
    TailText(texts[5], texts[7], texts[9]);
    HeadText(texts[1], texts[2], texts[3], texts[4], Chain(keys, texts, 5, "}"));
  }

  // The object is well formed

  lemma FractionPart(part: string)
    requires part != "" && forall c :: c in part ==> Json.Digit(c)
    ensures Json.ValidFraction("." + part)
  {
    Formatting.RunOfDigits(part, "");
    assert part + "" == part;
    assert ("." + part)[1..] == part && ("." + part)[1 + |part|..] == "";
  }

  lemma FractionIsNumber(whole: string, part: string)
    requires whole != "" && (whole[0] == '0' ==> |whole| == 1) && part != ""
    requires forall c :: c in whole ==> Json.Digit(c)
    requires forall c :: c in part ==> Json.Digit(c)
    ensures Json.ValidNumber(whole + "." + part) && Json.ValidNumber("-" + whole + "." + part)
  {
    hide Json.ValidFraction, Json.DigitRun;
    var unsigned := whole + "." + part;
    Formatting.RunOfDigits(whole, "." + part);
    FractionPart(part);
    assert unsigned == whole + ("." + part) && unsigned[|whole|..] == "." + part;
    assert whole[0] in whole;
    assert ("-" + whole + "." + part)[1..] == unsigned;
  }

  lemma FixedPointIsNumber(t: Temperature)
    requires t.Celsius?
    ensures Json.ValidNumber(FixedPoint(t))
  {
    hide Json.ValidNumber;
    var whole, part := Formatting.Decimal(t.tenThousandths / 10000), Formatting.Padded(t.tenThousandths % 10000, 4, 10);
    Formatting.DecimalDigits(t.tenThousandths / 10000);
    PaddedDigits(t.tenThousandths % 10000, 4);
    FractionIsNumber(whole, part);
    assert "" + whole == whole;
  }

  /** `%.4f` spells the temperature it is given, to the last of its four decimals. */
  lemma FixedPointDenotes(t: Temperature)
    requires t.Celsius?
    ensures
      var whole := Formatting.Decimal(t.tenThousandths / 10000);
      var part := Formatting.Padded(t.tenThousandths % 10000, 4, 10);
      && FixedPoint(t) == (if t.negative then "-" else "") + whole + "." + part
      && |part| == 4
      && 10000 * Formatting.Value(whole, 10) + Formatting.Value(part, 10) == t.tenThousandths
  {
    hide Formatting.Digits, Formatting.Padded, Formatting.Value;
    Formatting.ValueOfDigits(t.tenThousandths / 10000, 10);
    Formatting.PaddedValue(t.tenThousandths % 10000, 4, 10);
    assert Formatting.Power(10, 4) == 10000 by {
      assert Formatting.Power(10, 2) == 100;
    }
    Formatting.PaddedLength(t.tenThousandths % 10000, 4, 10);
  }

  lemma PaddedDigits(n: nat, width: nat)
    ensures forall c :: c in Formatting.Padded(n, width, 10) ==> Json.Digit(c)
  {
    Formatting.DecimalDigits(n);
  }

  lemma FirstNames()
    ensures forall i :: 0 <= i < 5 ==> Printable(EventParser.FIELDS[i])
  {
  }

  lemma LastNames()
    ensures forall i :: 5 <= i < 10 ==> Printable(EventParser.FIELDS[i])
  {
  }

  lemma QualityIsValid(at: string)
    ensures Json.Valid(Json.Object("", Members(QUALITY_KEYS, QualityValues(at))))
  {
    hide Json.ValidChars, Members, Json.Valid, Json.Decode, Json.ValidMembers;
    QualityWordsAreValid(at);
    QualityNames();
    MembersValid(QUALITY_KEYS, QualityValues(at), 0);
    var ms := Members(QUALITY_KEYS, QualityValues(at));
    assert ms[0..] == ms;
    ObjectIsValid(ms);
  }

  lemma QualityNames()
    ensures Printable("reading") && Printable("clock")
  {
  }

  lemma QualityWordsAreValid(at: string)
    ensures Json.Valid(Json.Quoted("valid")) && Json.Valid(Json.Quoted(ClockWord(at)))
  {
    hide Json.ValidChars, Json.Valid, Json.Decode;
    PrintableSpelling("valid");
    PrintableSpelling(ClockWord(at));
    QuotedIsValid("valid");
    QuotedIsValid(ClockWord(at));
  }

  lemma StringsAreValid(s: string)
    ensures Json.Valid(Json.Quoted(Escape(s))) && Json.Valid(MeasuredValue(s))
  {
    hide Escape;
    EscapeRoundTrips(s);
  }

  lemma FixedWordsAreValid()
    ensures Json.Valid(Json.Quoted("temperature")) && Json.Valid(Json.Quoted("celsius"))
  {
    hide Json.ValidChars, Json.Valid, Json.Decode;
    PrintableSpelling("temperature");
    PrintableSpelling("celsius");
    QuotedIsValid("temperature");
    QuotedIsValid("celsius");
  }

  lemma NumbersAreValid(n: nat)
    ensures Json.Valid(Json.Number(Formatting.Decimal(n))) && Json.Valid(Json.Number("1"))
  {
    hide Json.ValidNumber;
    Formatting.DecimalIsNumber(n);
    Batch.OneIsNumber();
  }

  lemma ValuesAreValid(e: TelemetryEvent)
    requires Acceptable(e)
    ensures forall i :: 0 <= i < 10 ==> Json.Valid(Values(e)[i])
  {
    hide Json.ValidChars, Escape, FixedPoint, Formatting.Decimal, Json.Valid, Members, MeasuredValue;
    StringsAreValid(e.device);
    StringsAreValid(e.boot);
    StringsAreValid(e.measuredAt);
    FixedWordsAreValid();
    NumbersAreValid(e.sequence);
    NumbersAreValid(e.uptime);
    FixedPointIsNumber(e.temperature);
    NumberIsValid(FixedPoint(e.temperature));
    QualityIsValid(e.measuredAt);
  }

  lemma TreeIsValid(e: TelemetryEvent)
    requires Acceptable(e)
    ensures Json.Valid(Tree(e))
  {
    hide Values, Printable, Json.Valid;
    FirstNames();
    LastNames();
    ValuesAreValid(e);
    MembersValid(EventParser.FIELDS, Values(e), 0);
    var ms := Members(EventParser.FIELDS, Values(e));
    assert ms[0..] == ms;
    ObjectIsValid(ms);
  }

  // Bytes and Unicode

  /** The event whose strings are the UTF-8 bytes of this one's. */
  function Utf8Event(e: TelemetryEvent): TelemetryEvent {
    e.(device := Utf8.Encode(e.device), boot := Utf8.Encode(e.boot), measuredAt := Utf8.Encode(e.measuredAt))
  }

  lemma {:induction false} EscapeHighBytes(s: string)
    requires forall i :: 0 <= i < |s| ==> s[i] >= '\U{80}'
    ensures Escape(s) == s
  {
    if s != "" {
      EscapeHighBytes(s[1..]);
    }
  }

  lemma EscapeCharCommutes(c: char)
    ensures Escape(Utf8.EncodeChar(c)) == Utf8.Encode(EscapeChar(c))
  {
    if c < '\U{80}' {
      Utf8.EncodeAscii(EscapeChar(c));
      assert [c][1..] == "" && Escape([c]) == EscapeChar(c);
    } else {
      EscapeHighBytes(Utf8.EncodeChar(c));
      assert [c][1..] == "" && Utf8.Encode([c]) == Utf8.EncodeChar(c);
    }
  }

  lemma {:induction false} EscapeCommutes(s: string)
    ensures Escape(Utf8.Encode(s)) == Utf8.Encode(Escape(s))
  {
    hide EscapeChar, Utf8.EncodeChar;
    if s != "" {
      EscapeCommutes(s[1..]);
      EscapeCharCommutes(s[0]);
      EscapeConcat(Utf8.EncodeChar(s[0]), Utf8.Encode(s[1..]));
      Utf8.EncodeConcat(EscapeChar(s[0]), Escape(s[1..]));
    }
  }

  lemma QuoteCommutes(s: string)
    ensures Quote(Utf8.Encode(s)) == Utf8.Encode(Quote(s))
  {
    hide Escape, Utf8.Encode;
    EscapeCommutes(s);
    Utf8.EncodeAscii("\"");
    Utf8.EncodeConcat("\"" + Escape(s), "\"");
    Utf8.EncodeConcat("\"", Escape(s));
  }

  lemma MeasuredCommutes(at: string)
    ensures Measured(Utf8.Encode(at)) == Utf8.Encode(Measured(at))
    ensures ClockWord(Utf8.Encode(at)) == ClockWord(at)
  {
    hide Quote;
    QuoteCommutes(at);
    Utf8.EncodeAscii("null");
  }

  lemma IdentityCommutes(e: TelemetryEvent)
    ensures IdentityPart(Utf8Event(e)) == Utf8.Encode(IdentityPart(e))
  {
    hide Quote, Utf8.Encode, Opening, BootKey;
    LiteralsAreAscii();
    Utf8.EncodeAscii(Opening());
    Utf8.EncodeAscii(BootKey());
    QuoteCommutes(e.device);
    QuoteCommutes(e.boot);
    Utf8.EncodeConcat(Opening(), Quote(e.device));
    Utf8.EncodeConcat(Opening() + Quote(e.device), BootKey());
    Utf8.EncodeConcat(Opening() + Quote(e.device) + BootKey(), Quote(e.boot));
  }

  lemma LiteralsAreAscii()
    ensures Utf8.Ascii(Opening()) && Utf8.Ascii(BootKey())
  {
  }

  lemma DigitsAreAscii(s: string)
    requires forall c :: c in s ==> Json.Digit(c)
    ensures Utf8.Ascii(s)
  {
    forall i | 0 <= i < |s| ensures s[i] < '\U{80}' {
      assert s[i] in s;
    }
  }

  lemma DecimalIsAscii(n: nat)
    ensures Utf8.Ascii(Formatting.Decimal(n))
  {
    Formatting.DecimalDigits(n);
    DigitsAreAscii(Formatting.Decimal(n));
  }

  lemma FixedPointIsAscii(t: Temperature)
    requires t.Celsius?
    ensures Utf8.Ascii(FixedPoint(t))
  {
    hide Formatting.Decimal, Formatting.Padded;
    DecimalIsAscii(t.tenThousandths / 10000);
    PaddedDigits(t.tenThousandths % 10000, 4);
    DigitsAreAscii(Formatting.Padded(t.tenThousandths % 10000, 4, 10));
  }

  lemma AsciiConcat(a: string, b: string)
    requires Utf8.Ascii(a) && Utf8.Ascii(b)
    ensures Utf8.Ascii(a + b)
  {
  }

  lemma SequenceIsAscii(n: nat)
    ensures Utf8.Ascii(SequencePart(n))
  {
    hide Formatting.Decimal;
    DecimalIsAscii(n);
  }

  lemma ClosingWordsAreAscii()
    ensures Utf8.Ascii(",\"device_uptime_ms\":") && Utf8.Ascii(",\"metric\":\"temperature\",\"value\":")
    ensures Utf8.Ascii(",\"unit\":\"celsius\",\"quality\":") && Utf8.Ascii("}")
  {
  }

  lemma QualityIsAscii(at: string)
    ensures Utf8.Ascii(Quality(at))
  {
    assert Utf8.Ascii(ClockWord(at));
  }

  lemma ClosingIsAscii(e: TelemetryEvent)
    requires Acceptable(e)
    ensures Utf8.Ascii(Closing(e))
  {
    hide Formatting.Decimal, FixedPoint, Utf8.Ascii, Quality;
    var u, m, c := ",\"device_uptime_ms\":", ",\"metric\":\"temperature\",\"value\":",
      ",\"unit\":\"celsius\",\"quality\":";
    var n, v, q := Formatting.Decimal(e.uptime), FixedPoint(e.temperature), Quality(e.measuredAt);
    ClosingWordsAreAscii();
    DecimalIsAscii(e.uptime);
    FixedPointIsAscii(e.temperature);
    QualityIsAscii(e.measuredAt);
    AsciiConcat(u, n);
    AsciiConcat(u + n, m);
    AsciiConcat(u + n + m, v);
    AsciiConcat(u + n + m + v, c);
    AsciiConcat(u + n + m + v + c, q);
    AsciiConcat(u + n + m + v + c + q, "}");
  }

  lemma ClockOnly(e: TelemetryEvent)
    requires Acceptable(e) && Acceptable(Utf8Event(e))
    ensures Closing(Utf8Event(e)) == Closing(e)
  {
    hide FixedPoint, Formatting.Decimal;
    MeasuredCommutes(e.measuredAt);
  }

  /**
   Bytes and Unicode agree: encoding the UTF-8 bytes of an event gives the UTF-8 bytes of its text.
   */
  lemma EncodingIsUtf8(e: TelemetryEvent)
    requires Acceptable(e) && Acceptable(Utf8Event(e))
    ensures Encoding(Utf8Event(e)) == Utf8.Encode(Encoding(e))
  {
    hide Utf8.Encode, IdentityPart, SequencePart, Measured, FixedPoint, Formatting.Decimal, Utf8.Ascii;
    IdentityCommutes(e);
    MeasuredCommutes(e.measuredAt);
    SequenceIsAscii(e.sequence);
    ClosingIsAscii(e);
    ClockOnly(e);
    var s := SequencePart(e.sequence);
    Utf8.EncodeAscii(s);
    Utf8.EncodeAscii(Closing(e));
    Utf8.EncodeConcat(IdentityPart(e), s);
    Utf8.EncodeConcat(IdentityPart(e) + s, Measured(e.measuredAt));
    Utf8.EncodeConcat(IdentityPart(e) + s + Measured(e.measuredAt), Closing(e));
  }

  // No NUL inside, so the text ends where the buffer's first NUL is

  lemma {:induction false} EscapeHasNoNul(s: string)
    requires '\0' !in s
    ensures '\0' !in Escape(s)
  {
    if s != "" {
      EscapeHasNoNul(s[1..]);
    }
  }

  lemma LiteralsHaveNoNul(at: string)
    ensures '\0' !in Opening() && '\0' !in BootKey() && '\0' !in Quality(at)
  {
  }

  lemma KeysHaveNoNul()
    ensures '\0' !in ",\"sequence_number\":" && '\0' !in ",\"measured_at\":" && '\0' !in ",\"device_uptime_ms\":"
  {
  }

  lemma WordsHaveNoNul()
    ensures '\0' !in ",\"metric\":\"temperature\",\"value\":" && '\0' !in ",\"unit\":\"celsius\",\"quality\":"
  {
  }

  lemma ClosingHasNoNul(e: TelemetryEvent)
    requires Acceptable(e)
    ensures '\0' !in Closing(e) && '\0' !in SequencePart(e.sequence)
  {
    hide Formatting.Digits, Formatting.Padded, Quality;
    LiteralsHaveNoNul(e.measuredAt);
    KeysHaveNoNul();
    WordsHaveNoNul();
  }

  lemma QuoteHasNoNul(s: string)
    requires '\0' !in s
    ensures '\0' !in Quote(s) && '\0' !in Measured(s)
  {
    hide Escape;
    EscapeHasNoNul(s);
  }

  lemma TextHasNoNul(e: TelemetryEvent)
    requires CStrings(e) && Acceptable(e)
    ensures '\0' !in Encoding(e)
  {
    hide Quote, Measured, Closing, SequencePart, Opening, BootKey;
    LiteralsHaveNoNul(e.measuredAt);
    QuoteHasNoNul(e.device);
    QuoteHasNoNul(e.boot);
    QuoteHasNoNul(e.measuredAt);
    ClosingHasNoNul(e);
  }

  // The publisher's buffer

  const PUBLISHER_BUFFER := 768

  /** What `app_config_load` accepts as a device id. */
  predicate ConfiguredId(s: string) {
    && 0 < |s| <= 128 && '/' !in s && '+' !in s && '#' !in s
    && forall i :: 0 <= i < |s| ==> s[i] >= ' ' && s[i] != '\U{7f}'
  }

  predicate NoControls(s: string) {
    forall i :: 0 <= i < |s| ==> s[i] >= ' '
  }

  lemma {:induction false} EscapeAtMostDoubles(s: string)
    requires NoControls(s)
    ensures |Escape(s)| <= 2 * |s|
  {
    if s != "" {
      EscapeAtMostDoubles(s[1..]);
    }
  }

  lemma {:induction false} PrintableNeedsNoEscape(s: string)
    requires Printable(s)
    ensures Escape(s) == s
  {
    if s != "" {
      PrintableNeedsNoEscape(s[1..]);
    }
  }

  lemma FixedPointLength(t: Temperature)
    requires InRange(t)
    ensures |FixedPoint(t)| <= 9
  {
    hide Formatting.Digits;
    assert Formatting.Power(10, 3) == 1000;
    assert Formatting.Power(10, 4) == 10000;
    Formatting.DigitsLength(t.tenThousandths / 10000, 3, 10);
    Formatting.PaddedLength(t.tenThousandths % 10000, 4, 10);
  }

  lemma IdentityLength(e: TelemetryEvent)
    requires NoControls(e.device) && |e.device| <= 128 && Printable(e.boot) && |e.boot| <= 29
    ensures |IdentityPart(e)| <= 345
  {
    EscapeAtMostDoubles(e.device);
    PrintableNeedsNoEscape(e.boot);
  }

  lemma ClosingLength(e: TelemetryEvent)
    requires Acceptable(e) && e.uptime <= MAX_COUNTER
    ensures |Closing(e)| <= 180
  {
    hide FixedPoint, Formatting.Decimal;
    Formatting.NineteenDigits(e.uptime);
    FixedPointLength(e.temperature);
  }

  /** Every event of a configured device fits the publisher's buffer, so none is dropped for its size. */
  lemma ConfiguredEventFits(e: TelemetryEvent)
    requires Acceptable(e) && ConfiguredId(e.device) && Printable(e.boot) && |e.boot| <= 29
    requires e.sequence <= MAX_COUNTER && e.uptime <= MAX_COUNTER
    requires Printable(e.measuredAt) && |e.measuredAt| <= 31
    ensures |Encoding(e)| < PUBLISHER_BUFFER
  {
    hide IdentityPart, Closing, Formatting.Decimal;
    IdentityLength(e);
    Formatting.NineteenDigits(e.sequence);
    PrintableNeedsNoEscape(e.measuredAt);
    ClosingLength(e);
  }

  // What the encoder takes

  /** The temperature in degrees, which is what `%.4f` shows of it. */
  function Degrees(t: Encoder.Temperature): real
    requires t.Celsius?
  {
    (if t.negative then -1.0 else 1.0) * (t.tenThousandths as real) / 10000.0
  }

  /** An event is acceptable exactly when its strings and numbers are and its temperature is from -55 to 125 degrees. */
  lemma AcceptableExactly(e: TelemetryEvent)
    ensures
      Acceptable(e) <==>
      && 1 <= |e.device| <= 128 && 1 <= |e.boot| <= 128 && e.sequence >= 0 && e.uptime >= 0
      && e.temperature.Celsius? && -55.0 <= Degrees(e.temperature) <= 125.0
  {
  }
}
