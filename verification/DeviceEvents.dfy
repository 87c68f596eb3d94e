/**
 What the device writes is what the gateway reads: an encoded event passes every intake check, and its
 identity comes out unchanged.
 */
module DeviceEvents {
  import opened CompactJson
  import opened Options
  import opened Events
  import opened Document
  import opened Encoder
  import opened EncoderProperties
  import Batch
  import EventParser
  import Formatting
  import Json
  import JsonUnique
  import KeyStream
  import Numbers
  import Requests
  import Splicer
  import Utf8

  // Device events, and what they would be with the value spelled otherwise

  function ValuesWith(e: TelemetryEvent, digits: string): (values: seq<Json.Value>)
    requires Acceptable(e)
    ensures |values| == 10
  {
    Values(e)[7 := Json.Number(digits)]
  }

  /** The event with this spelling of its value. */
  function TreeWith(e: TelemetryEvent, digits: string): Json.Value
    requires Acceptable(e)
  {
    Json.Object("", Members(EventParser.FIELDS, ValuesWith(e, digits)))
  }

  lemma OwnValue(e: TelemetryEvent)
    requires Acceptable(e)
    ensures TreeWith(e, FixedPoint(e.temperature)) == Tree(e)
  {
    hide FixedPoint, Members;
    assert ValuesWith(e, FixedPoint(e.temperature)) == Values(e);
  }

  // The parsed document

  function QualityDoc(at: string): Doc {
    Obj(Fields(QUALITY_KEYS, [Str("valid"), Str(ClockWord(at))]))
  }

  function Docs(e: TelemetryEvent, digits: string): (docs: seq<Doc>)
    requires Acceptable(e)
    ensures |docs| == 10
  {
    [Integer(1), Str(e.device), Str(e.boot), Integer(e.sequence),
     if e.measuredAt == "" then Null else Str(e.measuredAt),
     Integer(e.uptime), Str("temperature"), NumberDoc(digits), Str("celsius"),
     QualityDoc(e.measuredAt)]
  }

  function EventDoc(e: TelemetryEvent, digits: string): Doc
    requires Acceptable(e)
  {
    Obj(Fields(EventParser.FIELDS, Docs(e, digits)))
  }

  lemma NotAnInteger(s: string, unsigned: string)
    requires s != "" && unsigned == if s[0] == '-' then s[1..] else s
    requires !AllDigits(unsigned)
    ensures NumberDoc(s) == Real(s)
  {
  }

  lemma FixedPointParses(t: Temperature)
    requires t.Celsius?
    ensures NumberDoc(FixedPoint(t)) == Real(FixedPoint(t))
  {
    hide Formatting.Digits, Formatting.Padded;
    var s := FixedPoint(t);
    var whole := Formatting.Decimal(t.tenThousandths / 10000);
    Formatting.DecimalDigits(t.tenThousandths / 10000);
    assert whole[0] in whole;
    var unsigned := if t.negative then s[1..] else s;
    var part := Formatting.Padded(t.tenThousandths % 10000, 4, 10);
    assert unsigned == whole + ("." + part) by {
      if t.negative {
        assert s == "-" + whole + "." + part;
      } else {
        assert s == whole + "." + part;
      }
    }
    assert unsigned[|whole|] == '.' && !Json.Digit(unsigned[|whole|]);
    assert t.negative <==> s[0] == '-';
    assert s[0] == '-' ==> unsigned == s[1..];
    NotAnInteger(s, unsigned);
  }

  /** A printed temperature is a number both the gateway and the backend read. */
  lemma FixedPointReads(t: Temperature)
    requires InRange(t)
    ensures Numbers.Finite(FixedPoint(t)) && Numbers.Decodes(FixedPoint(t))
  {
    hide Formatting.Digits, Formatting.Padded, Numbers.Finite, Numbers.Decodes;
    var s := FixedPoint(t);
    var n := t.tenThousandths / 10000;
    var whole, part := Formatting.Decimal(n), Formatting.Padded(t.tenThousandths % 10000, 4, 10);
    Formatting.DecimalDigits(n);
    Formatting.NineteenDigits(n);
    assert Formatting.Power(10, 4) == 10000 by { TenThousand(); }
    Formatting.PaddedLength(t.tenThousandths % 10000, 4, 10);
    PaddedDigits(t.tenThousandths % 10000, 4);
    assert s == whole + ("." + part) || s == "-" + (whole + ("." + part)) by {
      if t.negative {
        assert s == "-" + whole + "." + part;
      } else {
        assert s == "" + whole + "." + part;
      }
    }
    Numbers.FractionReads(s, whole, part);
  }

  lemma TenThousand()
    ensures Formatting.Power(10, 4) == 10000
  {
    assert Formatting.Power(10, 2) == 100;
  }

  lemma StringsParse(s: string)
    ensures Parsed(Json.Quoted(Escape(s))) == Some(Str(s))
    ensures Parsed(MeasuredValue(s)) == Some(if s == "" then Null else Str(s))
  {
    hide Escape, Json.Decode;
    EscapeRoundTrips(s);
  }

  lemma QualityParses(at: string)
    ensures Parsed(Json.Object("", Members(QUALITY_KEYS, QualityValues(at)))) == Some(QualityDoc(at))
  {
    hide Parsed, Json.Decode, Printable, Members, Fields;
    QualityNames();
    FixedWords(at);
    WordParses("valid");
    WordParses(ClockWord(at));
    ObjectParses(QUALITY_KEYS, QualityValues(at), [Str("valid"), Str(ClockWord(at))]);
  }

  lemma FixedWords(at: string)
    ensures Printable("valid") && Printable(ClockWord(at)) && Printable("temperature") && Printable("celsius")
  {
  }

  lemma ValuesParse(e: TelemetryEvent, digits: string)
    requires Acceptable(e) && e.sequence <= MAX_COUNTER && e.uptime <= MAX_COUNTER
    ensures forall i :: 0 <= i < 10 ==> Parsed(ValuesWith(e, digits)[i]) == Some(Docs(e, digits)[i])
  {
    hide Parsed, Json.Decode, Printable, Members, Fields, QualityDoc, Escape, FixedPoint, Formatting.Digits,
         MeasuredValue, NumberDoc;
    NumberParses(1);
    assert Formatting.Decimal(1) == "1" by { DecimalOne(); }
    StringsParse(e.device);
    StringsParse(e.boot);
    StringsParse(e.measuredAt);
    NumberParses(e.sequence);
    NumberParses(e.uptime);
    FixedWords(e.measuredAt);
    WordParses("temperature");
    WordParses("celsius");
    ValueParses(digits);
    QualityParses(e.measuredAt);
  }

  lemma ValueParses(digits: string)
    ensures Parsed(Json.Number(digits)) == Some(NumberDoc(digits))
  {
  }

  lemma DecimalOne()
    ensures Formatting.Decimal(1) == "1"
  {
  }

  lemma TreeParses(e: TelemetryEvent, digits: string)
    requires Acceptable(e) && e.sequence <= MAX_COUNTER && e.uptime <= MAX_COUNTER
    ensures Parsed(TreeWith(e, digits)) == Some(EventDoc(e, digits))
    ensures Parsed(Tree(e)) == Some(EventDoc(e, FixedPoint(e.temperature)))
  {
    hide Parsed, Json.Decode, Printable, Members, Fields, ValuesWith, Docs, TreeWith, FixedPoint;
    SpelledTreeParses(e, digits);
    SpelledTreeParses(e, FixedPoint(e.temperature));
    OwnValue(e);
  }

  lemma SpelledTreeParses(e: TelemetryEvent, digits: string)
    requires Acceptable(e) && e.sequence <= MAX_COUNTER && e.uptime <= MAX_COUNTER
    ensures Parsed(TreeWith(e, digits)) == Some(EventDoc(e, digits))
  {
    hide Parsed, Json.Decode, Printable, Members, Fields, ValuesWith, Docs;
    FirstNames();
    LastNames();
    ValuesParse(e, digits);
    ObjectParses(EventParser.FIELDS, ValuesWith(e, digits), Docs(e, digits));
  }

  // Its keys

  lemma FieldAt(e: TelemetryEvent, digits: string, i: nat)
    requires Acceptable(e) && i < 10
    ensures EventDoc(e, digits).Get(EventParser.FIELDS[i]) == Some(Docs(e, digits)[i])
  {
    hide Docs, Find;
    EventParser.NamesDiffer();
    FindAt(EventDoc(e, digits).fields, EventParser.FIELDS[i], i);
  }

  lemma QualityFields(at: string)
    ensures
      var q := QualityDoc(at);
      && |q.fields| == 2
      && q.Get("reading") == Some(Str("valid")) && q.Get("clock") == Some(Str(ClockWord(at)))
      && DistinctKeys(q.fields)
  {
    hide Find;
    var fields := QualityDoc(at).fields;
    assert |"reading"| == 7 && |"clock"| == 5;
    FindAt(fields, "reading", 0);
    FindAt(fields, "clock", 1);
  }

  lemma FieldValues(e: TelemetryEvent, digits: string)
    requires Acceptable(e)
    ensures
      var d := EventDoc(e, digits);
      && d.Get("schema_version") == Some(Integer(1))
      && d.Get("device_id") == Some(Str(e.device)) && d.Get("boot_id") == Some(Str(e.boot))
      && d.Get("sequence_number") == Some(Integer(e.sequence))
      && d.Get("measured_at") == Some(if e.measuredAt == "" then Null else Str(e.measuredAt))
    ensures
      var d := EventDoc(e, digits);
      && d.Get("device_uptime_ms") == Some(Integer(e.uptime))
      && d.Get("metric") == Some(Str("temperature")) && d.Get("unit") == Some(Str("celsius"))
      && d.Get("value") == Some(NumberDoc(digits))
      && d.Get("quality") == Some(QualityDoc(e.measuredAt))
    ensures
      var own := FixedPoint(e.temperature);
      EventDoc(e, own).Get("value") == Some(Real(own))
    ensures
      var quality := EventDoc(e, digits).Get("quality").value;
      && quality.Get("reading") == Some(Str("valid"))
      && quality.Get("clock") == Some(Str(if e.measuredAt == "" then "unsynchronised" else "synchronised"))
  {
    hide Doc.Get, EventDoc, NumberDoc, QualityDoc, FixedPoint;
    FixedPointParses(e.temperature);
    FieldAt(e, FixedPoint(e.temperature), 7);
    QualityFields(e.measuredAt);
    FieldAt(e, digits, 0);
    FieldAt(e, digits, 1);
    FieldAt(e, digits, 2);
    FieldAt(e, digits, 3);
    FieldAt(e, digits, 4);
    FieldAt(e, digits, 5);
    FieldAt(e, digits, 6);
    FieldAt(e, digits, 7);
    FieldAt(e, digits, 8);
    FieldAt(e, digits, 9);
  }

  lemma ExactlyTheFields(e: TelemetryEvent, digits: string)
    requires Acceptable(e)
    ensures EventParser.ExactKeys(EventDoc(e, digits), EventParser.FIELDS)
    ensures EventDoc(e, digits).Get("gateway_received_at") == None
  {
    hide Docs, Find;
    forall k | k in EventParser.FIELDS ensures EventDoc(e, digits).Get(k).Some? {
      var i :| 0 <= i < 10 && EventParser.FIELDS[i] == k;
      FieldAt(e, digits, i);
    }
    EventParser.NamesDiffer();
    var fields := EventDoc(e, digits).fields;
    forall j | 0 <= j < |fields| ensures fields[j].key != "gateway_received_at" {
      assert fields[j].key == EventParser.FIELDS[j] && EventParser.FIELDS[j] in EventParser.FIELDS;
    }
    FindNone(fields, "gateway_received_at");
  }

  lemma QualityPasses(at: string)
    ensures EventParser.Quality(Some(QualityDoc(at)))
  {
    hide Find, Doc.Get, ClockWord;
    QualityFields(at);
    assert ClockWord(at) in ["synchronised", "unsynchronised", "estimated", "unknown"] by {
      ClockWords(at);
    }
  }

  lemma ClockWords(at: string)
    ensures ClockWord(at) == "synchronised" || ClockWord(at) == "unsynchronised"
  {
  }

  /** What the gateway asks of the strings, beyond what the encoder checks. */
  predicate Presentable(e: TelemetryEvent) {
    && Acceptable(e) && e.sequence <= MAX_COUNTER && e.uptime <= MAX_COUNTER
    && Json.Bytes(e.device) <= 128 && Json.Bytes(e.boot) <= 128
    && '\0' !in e.device && '\0' !in e.boot
    && '/' !in e.device && '+' !in e.device && '#' !in e.device
    && (e.measuredAt == "" || EventParser.Timestamp(e.measuredAt))
  }

  lemma NumberIsNumber(digits: string)
    ensures NumberDoc(digits).Integer? || NumberDoc(digits).Real?
  {
  }

  lemma FieldsPass(e: TelemetryEvent, digits: string)
    requires Presentable(e)
    ensures EventParser.CheckFields(EventDoc(e, digits), e.device) == Ok(Identity(e.device, e.boot, e.sequence))
  {
    hide Doc.Get, EventDoc, NumberDoc, QualityDoc, InRange, EventParser.Timestamp, EventParser.Quality,
         EventParser.ExactKeys, Json.Bytes;
    FieldValues(e, digits);
    NumberIsNumber(digits);
    ExactlyTheFields(e, digits);
    QualityPasses(e.measuredAt);
  }

  // Its shape

  lemma EventDocIsSound(e: TelemetryEvent, digits: string)
    requires Acceptable(e)
    ensures Within(EventDoc(e, digits), 0, EventParser.MAX_DEPTH) && NoRepeats(EventDoc(e, digits))
  {
    hide NumberDoc, QualityDoc, Docs;
    var fields := EventDoc(e, digits).fields;
    EventParser.NamesDiffer();
    DocsAreShallow(e, digits);
    FieldsAreShallow(fields);
    forall f | f in fields ensures NoRepeats(f.value) {
      var i :| 0 <= i < 10 && fields[i] == f;
      assert f.value == Docs(e, digits)[i];
    }
  }

  lemma DocsAreShallow(e: TelemetryEvent, digits: string)
    requires Acceptable(e)
    ensures forall i :: 0 <= i < 10 ==> Within(Docs(e, digits)[i], 1, 2) && NoRepeats(Docs(e, digits)[i])
  {
    hide QualityDoc, NumberDoc;
    QualityIsShallow(e.measuredAt);
    NumberIsNumber(digits);
  }

  lemma QualityIsShallow(at: string)
    ensures Within(QualityDoc(at), 1, 2) && NoRepeats(QualityDoc(at))
  {
    hide ClockWord;
    QualityFields(at);
    var fields := QualityDoc(at).fields;
    assert fields == [Field("reading", Str("valid")), Field("clock", Str(ClockWord(at)))];
    assert fields[1..] == [fields[1]] && fields[1..][1..] == [];
    assert Within(fields[1].value, 2, 2) && FieldsWithin(fields[1..][1..], 2, 2);
    assert FieldsWithin(fields[1..], 2, 2);
    assert Within(fields[0].value, 2, 2) && FieldsWithin(fields, 2, 2);
    assert QualityDoc(at) == Obj(fields);
  }

  lemma {:induction false} FieldsAreShallow(fields: seq<Field>)
    requires forall i :: 0 <= i < |fields| ==> Within(fields[i].value, 1, 2)
    ensures FieldsWithin(fields, 1, EventParser.MAX_DEPTH)
  {
    if fields != [] {
      DeeperLimit(fields[0].value, 1, 2, EventParser.MAX_DEPTH);
      FieldsAreShallow(fields[1..]);
    }
  }

  lemma {:induction false} DeeperLimit(d: Doc, depth: nat, limit: nat, more: nat)
    requires Within(d, depth, limit) && limit <= more
    ensures Within(d, depth, more)
    decreases d, 1
  {
    match d
    case Arr(items) => DeeperItems(items, depth + 1, limit, more);
    case Obj(fields) => DeeperFields(fields, depth + 1, limit, more);
    case _ =>
  }

  lemma {:induction false} DeeperItems(items: seq<Doc>, depth: nat, limit: nat, more: nat)
    requires ItemsWithin(items, depth, limit) && limit <= more
    ensures ItemsWithin(items, depth, more)
    decreases items, 0
  {
    if items != [] {
      DeeperLimit(items[0], depth, limit, more);
      DeeperItems(items[1..], depth, limit, more);
    }
  }

  lemma {:induction false} DeeperFields(fields: seq<Field>, depth: nat, limit: nat, more: nat)
    requires FieldsWithin(fields, depth, limit) && limit <= more
    ensures FieldsWithin(fields, depth, more)
    decreases fields, 0
  {
    if fields != [] {
      DeeperLimit(fields[0].value, depth, limit, more);
      DeeperFields(fields[1..], depth, limit, more);
    }
  }

  // Intake accepts it

  /** `telemetry_start` */
  function Topic(device: string): string {
    EventParser.TOPIC_PREFIX + device + EventParser.TOPIC_SUFFIX
  }

  lemma TopicNamesDevice(device: string)
    requires device != "" && Json.Bytes(device) <= 128 && '/' !in device && '+' !in device && '#' !in device
    ensures EventParser.TopicDevice(Topic(device)) == Some(device)
  {
    hide Json.Bytes;
    var topic, p, s := Topic(device), EventParser.TOPIC_PREFIX, EventParser.TOPIC_SUFFIX;
    assert topic[..|p|] == p && topic[|topic| - |s|..] == s && topic[|p|..|topic| - |s|] == device;
  }

  /** The event as an MQTT payload. */
  function PayloadOf(e: TelemetryEvent): EventParser.Payload
    requires Acceptable(e)
  {
    EventParser.Spelled("", Tree(e), "")
  }

  function PayloadWith(e: TelemetryEvent, digits: string): EventParser.Payload
    requires Acceptable(e)
  {
    EventParser.Spelled("", TreeWith(e, digits), "")
  }

  lemma PayloadIsEncoding(e: TelemetryEvent)
    requires Acceptable(e)
    ensures EventParser.PayloadText(PayloadOf(e)) == Encoding(e) && EventParser.ValidPayload(PayloadOf(e))
  {
    hide Json.Text, Encoding, Tree, Json.Valid;
    EncodingIsJson(e);
    TreeIsValid(e);
    assert "" + Encoding(e) + "" == Encoding(e);
  }

  lemma RespelledIsValid(e: TelemetryEvent, digits: string)
    requires Acceptable(e) && Json.ValidNumber(digits)
    ensures EventParser.ValidPayload(PayloadWith(e, digits))
  {
    hide Values, Printable, Json.Valid, Json.Text, Json.ValidNumber;
    FirstNames();
    LastNames();
    ValuesAreValid(e);
    NumberIsValid(digits);
    MembersValid(EventParser.FIELDS, ValuesWith(e, digits), 0);
    var ms := Members(EventParser.FIELDS, ValuesWith(e, digits));
    assert ms[0..] == ms;
    ObjectIsValid(ms);
  }

  lemma RespelledIsFinite(e: TelemetryEvent, digits: string)
    requires Acceptable(e) && e.sequence <= MAX_COUNTER && e.uptime <= MAX_COUNTER && Numbers.Finite(digits)
    ensures Numbers.NumbersMeet(Numbers.Finite, TreeWith(e, digits))
  {
    hide Numbers.Finite, Formatting.Digits, ValuesWith, Members;
    FiniteValues(e, digits);
    var values := ValuesWith(e, digits);
    var ms := Members(EventParser.FIELDS, values);
    forall m | m in ms ensures Numbers.NumbersMeet(Numbers.Finite, m.value) {
      var i :| 0 <= i < 10 && ms[i] == m;
      assert Numbers.NumbersMeet(Numbers.Finite, values[i]);
    }
  }

  lemma FiniteValues(e: TelemetryEvent, digits: string)
    requires Acceptable(e) && e.sequence <= MAX_COUNTER && e.uptime <= MAX_COUNTER && Numbers.Finite(digits)
    ensures forall i :: 0 <= i < 10 ==> Numbers.NumbersMeet(Numbers.Finite, ValuesWith(e, digits)[i])
  {
    hide Numbers.Finite, Numbers.Decodes, Numbers.NumbersMeet, Escape, Formatting.Digits, FixedPoint, QualityValues,
         Members;
    Numbers.CounterReads(1);
    assert Formatting.Decimal(1) == "1" by { DecimalOne(); }
    Numbers.CounterReads(e.sequence);
    Numbers.CounterReads(e.uptime);
    QualityHasNoNumbers(e.measuredAt);
    var values := ValuesWith(e, digits);
    forall i | 0 <= i < 9 ensures Numbers.NumbersMeet(Numbers.Finite, values[i]) {
      ScalarMeets(values[i]);
    }
  }

  lemma ScalarMeets(v: Json.Value)
    ensures v.Quoted? || v.Literal? ==> Numbers.NumbersMeet(Numbers.Finite, v)
    ensures v.Number? && Numbers.Finite(v.digits) ==> Numbers.NumbersMeet(Numbers.Finite, v)
  {
    hide Numbers.Finite;
  }

  lemma QualityHasNoNumbers(at: string)
    ensures
      Numbers.NumbersMeet(Numbers.Finite, Json.Object("", Members(QUALITY_KEYS, QualityValues(at))))
  {
    hide Numbers.Finite, ClockWord;
  }

  /** How long members with one number among them are. */
  lemma NumberAmongBytes(a: seq<Json.Member>, key: string, digits: string, b: seq<Json.Member>)
    requires a != [] && b != []
    ensures
      Json.Bytes(Json.MembersText(a + [Plain(key, Json.Number(digits))] + b))
      == Json.Bytes(Json.MembersText(a)) + Json.Bytes(Json.MembersText(b)) + Json.Bytes("\"" + key + "\":")
         + Json.Bytes(digits) + 2
  {
    hide Json.Bytes, Json.MembersText;
    var m := Plain(key, Json.Number(digits));
    Splicer.MembersTextConcat(a, [m] + b);
    Splicer.MembersTextConcat([m], b);
    assert a + [m] + b == a + ([m] + b);
    var name := "\"" + key + "\":";
    OneNumberText(key, digits);
    Json.BytesConcat(Json.MembersText(a) + ",", Json.MembersText([m] + b));
    Json.BytesConcat(Json.MembersText(a), ",");
    Json.BytesConcat(name + digits + ",", Json.MembersText(b));
    Json.BytesConcat(name + digits, ",");
    Json.BytesConcat(name, digits);
    EventParser.AsciiBytes(",");
  }

  lemma OneNumberText(key: string, digits: string)
    ensures Json.MembersText([Plain(key, Json.Number(digits))]) == "\"" + key + "\":" + digits
  {
    var m := Plain(key, Json.Number(digits));
    assert Json.Text(m.value) == digits;
    assert Json.Span(m) == "\"" + key + "\"" + "" + ":" + "" + digits + "";
    assert "\"" + key + "\"" + "" + ":" + "" + digits + "" == "\"" + key + "\":" + digits;
    assert "" + Json.Span(m) == Json.Span(m);
  }

  /** Respelling the value changes the length by the difference of the spellings. */
  lemma RespelledBytes(e: TelemetryEvent, digits: string)
    requires Acceptable(e)
    ensures
      Json.Bytes(EventParser.PayloadText(PayloadWith(e, digits))) + Json.Bytes(FixedPoint(e.temperature))
      == Json.Bytes(EventParser.PayloadText(PayloadOf(e))) + Json.Bytes(digits)
  {
    hide Json.Bytes, Json.MembersText, FixedPoint, Values, Json.Span;
    var own := FixedPoint(e.temperature);
    OwnValue(e);
    RespelledText(e, digits);
    RespelledText(e, own);
    var a, b := Members(EventParser.FIELDS, Values(e))[..7], Members(EventParser.FIELDS, Values(e))[8..];
    NumberAmongBytes(a, "value", digits, b);
    NumberAmongBytes(a, "value", own, b);
    Json.BytesConcat("{" + Json.MembersText(a + [Plain("value", Json.Number(digits))] + b), "}");
    Json.BytesConcat("{" + Json.MembersText(a + [Plain("value", Json.Number(own))] + b), "}");
    Json.BytesConcat("{", Json.MembersText(a + [Plain("value", Json.Number(digits))] + b));
    Json.BytesConcat("{", Json.MembersText(a + [Plain("value", Json.Number(own))] + b));
  }

  lemma RespelledText(e: TelemetryEvent, digits: string)
    requires Acceptable(e)
    ensures
      var ms := Members(EventParser.FIELDS, Values(e));
      EventParser.PayloadText(PayloadWith(e, digits))
      == "{" + Json.MembersText(ms[..7] + [Plain("value", Json.Number(digits))] + ms[8..]) + "}"
  {
    hide Json.MembersText, Values;
    var ms := Members(EventParser.FIELDS, Values(e));
    var with := Members(EventParser.FIELDS, ValuesWith(e, digits));
    assert with == ms[..7] + [Plain("value", Json.Number(digits))] + ms[8..];
    var text := Json.Text(TreeWith(e, digits));
    assert "" + text + "" == text;
  }

  lemma NumberBytes(digits: string)
    requires Json.ValidNumber(digits)
    ensures Json.Bytes(digits) == |digits|
  {
    hide Json.ValidNumber, Json.Bytes;
    JsonUnique.NumberChars(digits);
    EventParser.AsciiBytes(digits);
  }

  /** The encoder's precondition and result for an event the publisher can send. */
  ghost predicate Sendable(e: TelemetryEvent) {
    Presentable(e) && Acceptable(Utf8Event(e)) && |Encoding(Utf8Event(e))| < PUBLISHER_BUFFER
  }

  /** An event a device can send is accepted with any finite spelling of its value. */
  lemma RespelledEventIsAccepted(e: TelemetryEvent, digits: string, receivedAt: string)
    requires Sendable(e) && Json.ValidNumber(digits) && Numbers.Finite(digits) && |digits| <= 15000
    ensures EventParser.ValidPayload(PayloadWith(e, digits))
    ensures
      EventParser.Parse(Topic(e.device), PayloadWith(e, digits), receivedAt)
      == Ok(Event(Identity(e.device, e.boot, e.sequence), EventParser.PayloadText(PayloadWith(e, digits)), receivedAt))
  {
    hide Json.Bytes, Encoding, Tree, EventDoc, EventParser.CheckFields, EventParser.TopicDevice, Topic, Utf8Event,
         Parsed, EventParser.Timestamp, KeyStream.Run, InRange, TreeWith, Json.ValidNumber, Numbers.Finite,
         Numbers.NumbersMeet, FixedPoint;
    PayloadIsEncoding(e);
    EncodingIsUtf8(e);
    NumberBytes(digits);
    RespelledBytes(e, digits);
    RespelledIsValid(e, digits);
    RespelledIsFinite(e, digits);
    TopicNamesDevice(e.device);
    TreeParses(e, digits);
    EventDocIsSound(e, digits);
    KeyStream.StreamEqualsTree(EventDoc(e, digits), EventParser.MAX_DEPTH);
    FieldsPass(e, digits);
  }

  /**
   Every event the firmware can send is one the gateway stores: it passes all intake checks on the
   device's topic, and the stored event has the device's identity and bytes.
   */
  lemma DeviceEventIsAccepted(e: TelemetryEvent, receivedAt: string)
    requires Presentable(e) && Acceptable(Utf8Event(e)) && |Encoding(Utf8Event(e))| < PUBLISHER_BUFFER
    ensures
      EventParser.Parse(Topic(e.device), PayloadOf(e), receivedAt)
      == Ok(Event(Identity(e.device, e.boot, e.sequence), Encoding(e), receivedAt))
    ensures Encoding(Utf8Event(e)) == Utf8.Encode(EventParser.PayloadText(PayloadOf(e)))
  {
    hide Encoding, Tree, TreeWith, EventParser.Parse, Topic, Utf8Event, EventParser.Timestamp, Json.ValidNumber,
         Numbers.Finite, Numbers.Decodes, FixedPoint, Json.Text;
    PayloadIsEncoding(e);
    EncodingIsUtf8(e);
    OwnSpelling(e);
    OwnValue(e);
    RespelledEventIsAccepted(e, FixedPoint(e.temperature), receivedAt);
  }

  lemma OwnSpelling(e: TelemetryEvent)
    requires Acceptable(e)
    ensures
      var digits := FixedPoint(e.temperature);
      Json.ValidNumber(digits) && Numbers.Finite(digits) && Numbers.Decodes(digits) && |digits| <= 15000
  {
    hide FixedPoint, Json.ValidNumber, Numbers.Finite, Numbers.Decodes;
    FixedPointIsNumber(e.temperature);
    FixedPointLength(e.temperature);
    FixedPointReads(e.temperature);
  }

  // The backend reads it

  /** With any finite spelling of the value, the backend reads the event exactly when Python reads the value. */
  lemma RespelledEventReads(e: TelemetryEvent, digits: string, receivedAt: string)
    requires Sendable(e) && Json.ValidNumber(digits) && Numbers.Finite(digits) && |digits| <= 15000
    ensures
      var event := Event(Identity(e.device, e.boot, e.sequence), EventParser.PayloadText(PayloadWith(e, digits)),
                         receivedAt);
      Batch.Convertible(event) && (Requests.EventReads(event) <==> Numbers.Decodes(digits))
  {
    hide EventParser.Parse, EventParser.ValidPayload, Topic, TreeWith, Encoding, Utf8Event, EventParser.PayloadText,
         EventParser.Timestamp, Json.ValidNumber, Numbers.Finite, Numbers.Decodes, Requests.ValueDecodes,
         Requests.EventReads;
    RespelledEventIsAccepted(e, digits, receivedAt);
    var p := PayloadWith(e, digits);
    var event := Event(Identity(e.device, e.boot, e.sequence), EventParser.PayloadText(p), receivedAt);
    assert Batch.AcceptedAs(event, Topic(e.device), p);
    EventParser.AcceptedEventConverts(Topic(e.device), p, receivedAt);
    Requests.ReadsExactly(event, Topic(e.device), p);
    ValueIsThere(e, digits);
  }

  lemma ValueIsThere(e: TelemetryEvent, digits: string)
    requires Sendable(e)
    ensures TreeWith(e, digits).Object?
    ensures Requests.ValueDecodes(TreeWith(e, digits).members) <==> Numbers.Decodes(digits)
  {
    hide Numbers.Decodes, Values, Docs, Encoding, Utf8Event, Json.Decode, Splicer.Lookup, Json.Bytes,
         EventParser.Timestamp;
    TreeParses(e, digits);
    EventParser.NamesDiffer();
    var ms := TreeWith(e, digits).members;
    Requests.LookupAt(ms, 7, "value");
  }

  /** The backend reads every event the firmware can send. */
  lemma DeviceEventReads(e: TelemetryEvent, receivedAt: string)
    requires Sendable(e)
    ensures Requests.EventReads(Event(Identity(e.device, e.boot, e.sequence), Encoding(e), receivedAt))
  {
    hide Encoding, Tree, TreeWith, Utf8Event, Json.ValidNumber, Numbers.Finite, Numbers.Decodes, FixedPoint,
         Json.Text, Requests.EventReads, Batch.Convertible, EventParser.Timestamp;
    PayloadIsEncoding(e);
    OwnSpelling(e);
    OwnValue(e);
    RespelledEventReads(e, FixedPoint(e.temperature), receivedAt);
  }

  /**
   A poison event: intake accepts any device's event with its value spelled like this, the splicer converts
   it, and the backend cannot read what the gateway sends.
   */
  lemma PoisonEvent(e: TelemetryEvent, digits: string, receivedAt: string)
    requires Sendable(e) && digits in [Numbers.TINY, Numbers.VAST_ZERO]
    ensures
      EventParser.Parse(Topic(e.device), PayloadWith(e, digits), receivedAt)
      == Ok(Event(Identity(e.device, e.boot, e.sequence), EventParser.PayloadText(PayloadWith(e, digits)), receivedAt))
    ensures
      var event := Event(Identity(e.device, e.boot, e.sequence), EventParser.PayloadText(PayloadWith(e, digits)),
                         receivedAt);
      Batch.Convertible(event) && !Requests.EventReads(event)
  {
    hide EventParser.Parse, TreeWith, EventParser.PayloadText, Json.ValidNumber, Numbers.Finite, Numbers.Decodes,
         Requests.EventReads, Batch.Convertible, Sendable;
    assert |Numbers.TINY| < 30 && |Numbers.VAST_ZERO| < 30;
    Numbers.TinyIsRefused();
    Numbers.VastZeroIsRefused();
    RespelledEventIsAccepted(e, digits, receivedAt);
    RespelledEventReads(e, digits, receivedAt);
  }

  const SAMPLE := TelemetryEvent("d1", "b1", 0, 0, Celsius(false, 215000), "")

  lemma SampleIsSendable()
    ensures Sendable(SAMPLE)
  {
    hide Encoding;
    EventParser.AsciiBytes("d1");
    EventParser.AsciiBytes("b1");
    Utf8.EncodeAscii("d1");
    Utf8.EncodeAscii("b1");
    Utf8.EncodeAscii("");
    assert Utf8Event(SAMPLE) == SAMPLE;
    ConfiguredEventFits(SAMPLE);
  }

  lemma SampleTopic()
    ensures Topic("d1") == "equipment/d1/telemetry"
  {
  }

  /** One concrete message that gets in and never gets through. */
  lemma PoisonExists(receivedAt: string)
    ensures
      var parsed := EventParser.Parse("equipment/d1/telemetry", PayloadWith(SAMPLE, Numbers.TINY), receivedAt);
      parsed.Ok? && Batch.Convertible(parsed.value) && !Requests.EventReads(parsed.value)
  {
    hide EventParser.Parse, TreeWith, EventParser.PayloadText, Requests.EventReads, Batch.Convertible, Sendable,
         Topic;
    SampleIsSendable();
    SampleTopic();
    PoisonEvent(SAMPLE, Numbers.TINY, receivedAt);
  }

  // The device's clock text

  /** Broken-down UTC time, as `gmtime_r` gives it, with milliseconds. */
  datatype Moment = Moment(year: nat, month: nat, day: nat, hour: nat, minute: nat, second: nat, millisecond: nat)

  /** A calendar moment within the years the firmware trusts. */
  predicate Trusted(t: Moment) {
    && 2020 <= t.year <= 9999 && 1 <= t.month <= 12 && 1 <= t.day <= EventParser.DaysInMonth(t.year, t.month)
    && t.hour <= 23 && t.minute <= 59 && t.second <= 59 && t.millisecond <= 999
  }

  function Two(n: nat): string {
    Formatting.Padded(n, 2, 10)
  }

  function MeasuredText(t: Moment): string {
    Formatting.Padded(t.year, 4, 10) + "-" + Two(t.month) + "-" + Two(t.day) + "T" + Two(t.hour) + ":"
    + Two(t.minute) + ":" + Two(t.second) + "." + Formatting.Padded(t.millisecond, 3, 10) + "Z"
  }

  lemma TwoSpelled(n: nat)
    requires n < 100
    ensures |Two(n)| == 2 && Json.Digit(Two(n)[0]) && Json.Digit(Two(n)[1])
    ensures 10 * Json.HexValue(Two(n)[0]) + Json.HexValue(Two(n)[1]) == n
  {
    hide Formatting.Padded;
    assert Formatting.Power(10, 2) == 100;
    Formatting.PaddedLength(n, 2, 10);
    PaddedDigits(n, 2);
    Formatting.PaddedValue(n, 2, 10);
    var s := Two(n);
    assert s[0] in s && s[1] in s;
    assert s[..1] == [s[0]] && s[..1][..0] == "";
    assert Formatting.Value(s[..1], 10) == Json.HexValue(s[0]);
  }

  lemma FourSpelled(n: nat)
    requires n < 10000
    ensures
      var s := Formatting.Padded(n, 4, 10);
      && |s| == 4 && Json.Digit(s[0]) && Json.Digit(s[1]) && Json.Digit(s[2]) && Json.Digit(s[3])
      && 1000 * Json.HexValue(s[0]) + 100 * Json.HexValue(s[1]) + 10 * Json.HexValue(s[2]) + Json.HexValue(s[3]) == n
  {
    hide Formatting.Padded;
    assert Formatting.Power(10, 4) == 10000 by {
      assert Formatting.Power(10, 2) == 100;
    }
    Formatting.PaddedLength(n, 4, 10);
    PaddedDigits(n, 4);
    Formatting.PaddedValue(n, 4, 10);
    var s := Formatting.Padded(n, 4, 10);
    assert s[0] in s && s[1] in s && s[2] in s && s[3] in s;
    assert s[..3][..2] == s[..2] && s[..2][..1] == s[..1] && s[..1][..0] == "";
    assert Formatting.Value(s[..1], 10) == Json.HexValue(s[0]);
    assert Formatting.Value(s[..2], 10) == 10 * Json.HexValue(s[0]) + Json.HexValue(s[1]);
    assert Formatting.Value(s[..3], 10) == 100 * Json.HexValue(s[0]) + 10 * Json.HexValue(s[1]) + Json.HexValue(s[2]);
  }

  function Stamp(y: string, mo: string, d: string, h: string, mi: string, sec: string, ms: string): string {
    y + "-" + mo + "-" + d + "T" + h + ":" + mi + ":" + sec + "." + ms + "Z"
  }

  lemma StampLayout(y: string, mo: string, d: string, h: string, mi: string, sec: string, ms: string)
    requires |y| == 4 && |mo| == |d| == |h| == |mi| == |sec| == 2 && |ms| == 3
    ensures
      var s := Stamp(y, mo, d, h, mi, sec, ms);
      && |s| == 24 && s[0] == y[0] && s[1] == y[1] && s[2] == y[2] && s[3] == y[3] && s[4] == '-'
      && s[5] == mo[0] && s[6] == mo[1] && s[7] == '-' && s[8] == d[0] && s[9] == d[1] && s[10] == 'T'
      && s[11] == h[0] && s[12] == h[1] && s[13] == ':' && s[14] == mi[0] && s[15] == mi[1] && s[16] == ':'
      && s[17] == sec[0] && s[18] == sec[1] && s[19..] == "." + (ms + "Z")
  {
  }

  /** The device's clock text is the timestamp the gateway expects, and fits its 32 bytes. */
  lemma MeasuredTextIsTimestamp(t: Moment)
    requires Trusted(t)
    ensures EventParser.Timestamp(MeasuredText(t)) && |MeasuredText(t)| == 24
  {
    hide Formatting.Padded, Stamp;
    var y, ms := Formatting.Padded(t.year, 4, 10), Formatting.Padded(t.millisecond, 3, 10);
    var s := MeasuredText(t);
    assert s == Stamp(y, Two(t.month), Two(t.day), Two(t.hour), Two(t.minute), Two(t.second), ms) by {
      StampIsMeasuredText(t);
    }
    FourSpelled(t.year);
    TwoSpelled(t.month);
    TwoSpelled(t.day);
    TwoSpelled(t.hour);
    TwoSpelled(t.minute);
    TwoSpelled(t.second);
    assert Formatting.Power(10, 3) == 1000;
    Formatting.PaddedLength(t.millisecond, 3, 10);
    PaddedDigits(t.millisecond, 3);
    StampLayout(y, Two(t.month), Two(t.day), Two(t.hour), Two(t.minute), Two(t.second), ms);
    assert EventParser.DateTimeShape(s);
    var rest := s[19..];
    assert rest[1..] == ms + "Z";
    Formatting.RunOfDigits(ms, "Z");
    assert rest[1 + |ms|..] == "Z";
  }

  lemma StampIsMeasuredText(t: Moment)
    ensures
      MeasuredText(t)
      == Stamp(Formatting.Padded(t.year, 4, 10), Two(t.month), Two(t.day), Two(t.hour), Two(t.minute),
               Two(t.second), Formatting.Padded(t.millisecond, 3, 10))
  {
    hide Formatting.Padded, Two;
  }
}
