/**
 Intake validation (gateway/src/telemetry/event.cpp), and what it guarantees to the forwarder: the
 events it lets through convert, those without a byte order mark, and a full batch of them fits one request.
 */
module EventParser {
  import opened Options
  import opened Events
  import opened Document
  import KeyStream
  import Json
  import JsonUnique
  import Numbers
  import Splicer

  const MAX_PAYLOAD_BYTES := 16384
  const MAX_DEPTH := 4

  /** The byte order mark, which the library's parser skips at the start of a text. */
  const MARK := '\U{FEFF}'

  /** An MQTT payload: text the parser cannot read, or a JSON text with blanks around it, perhaps marked. */
  datatype Payload =
    | NotJson(text: string)
    | Spelled(before: string, value: Json.Value, after: string)
    | Marked(before: string, value: Json.Value, after: string)

  function PayloadText(p: Payload): string {
    match p
    case NotJson(text) => text
    case Spelled(before, value, after) => before + Json.Text(value) + after
    case Marked(before, value, after) => [MARK] + (before + Json.Text(value) + after)
  }

  predicate WellSpelled(p: Payload) {
    !p.NotJson? && Json.Blank(p.before) && Json.Valid(p.value) && Json.Blank(p.after)
  }

  predicate StartsWithMark(text: string) {
    text != "" && text[0] == MARK
  }

  /** No JSON text starts with the mark itself. */
  lemma MarkTells(p: Payload)
    requires WellSpelled(p)
    ensures StartsWithMark(PayloadText(p)) <==> p.Marked?
  {
    hide Json.Valid, Json.Text;
    JsonUnique.FirstCharacter(p.value);
    if p.Spelled? && p.before == "" {
      assert PayloadText(p)[0] == Json.Text(p.value)[0];
    }
  }

  /** A payload as the parser sees it: the tree of its text, or no tree when its text has none. */
  ghost predicate ValidPayload(p: Payload) {
    WellSpelled(p) || (p.NotJson? && forall q :: WellSpelled(q) ==> PayloadText(q) != p.text)
  }

  ghost function PayloadOf(text: string): (p: Payload)
    ensures ValidPayload(p) && PayloadText(p) == text
  {
    if exists q :: WellSpelled(q) && PayloadText(q) == text then
      var q :| WellSpelled(q) && PayloadText(q) == text;
      q
    else NotJson(text)
  }

  /**
   The bytes decide: every text is exactly one valid payload, so everything said about a valid payload,
   what intake makes of it included, is said about its text.
   */
  lemma OneTextOnePayload(p: Payload)
    requires ValidPayload(p)
    ensures p == PayloadOf(PayloadText(p))
  {
    hide Json.Valid, Json.Text;
    var q := PayloadOf(PayloadText(p));
    if WellSpelled(p) {
      assert WellSpelled(q);
      MarkTells(p);
      MarkTells(q);
      if p.Marked? {
        assert PayloadText(p)[1..] == PayloadText(q)[1..];
      }
      JsonUnique.PaddedTextIsInjective(p.before, p.value, p.after, q.before, q.value, q.after);
    }
  }

  datatype Reason =
    | PayloadTooLarge
    | InvalidTopic
    | InvalidJson
    | JsonTooDeep
    | DuplicateJsonKey
    | ReceiptForbidden
    | InvalidEventFields
    | UnsupportedSchemaVersion
    | InvalidDeviceId
    | TopicDeviceMismatch
    | InvalidBootId
    | InvalidSequenceNumber
    | InvalidDeviceUptime
    | InvalidMeasuredAt
    | InvalidMetric
    | InvalidUnit
    | InvalidValue
    | InvalidQuality

  const TOPIC_PREFIX := "equipment/"
  const TOPIC_SUFFIX := "/telemetry"

  function TopicDevice(topic: string): Option<string> {
    var edges := |TOPIC_PREFIX| + |TOPIC_SUFFIX|;
    if |topic| <= edges || topic[..|TOPIC_PREFIX|] != TOPIC_PREFIX
       || topic[|topic| - |TOPIC_SUFFIX|..] != TOPIC_SUFFIX then None
    else
      var device := topic[|TOPIC_PREFIX|..|topic| - |TOPIC_SUFFIX|];
      if Json.Bytes(device) > 128 || '/' in device || '+' in device || '#' in device then None
      else Some(device)
  }

  /** `parse_strict`: the library's parse, which wants finite numbers, watched by the streaming key check. */
  function ParseStrict(p: Payload): Result<Doc, Reason> {
    match p
    case NotJson(_) => Err(InvalidJson)
    case _ =>
      if !Numbers.NumbersMeet(Numbers.Finite, p.value) then Err(InvalidJson)
      else
        match Parsed(p.value)
        case None => Err(InvalidJson)
        case Some(doc) =>
          match KeyStream.Run([], Signals(doc, 0), MAX_DEPTH)
          case Ok(_) => Ok(doc)
          case Err(TooDeep) => Err(JsonTooDeep)
          case Err(_) => Err(DuplicateJsonKey)
  }

  predicate ExactKeys(d: Doc, expected: seq<string>) {
    d.Obj? && |d.fields| == |expected| && forall k :: k in expected ==> d.Get(k).Some?
  }

  predicate Identifier(d: Option<Doc>) {
    d.Some? && d.value.Str? && d.value.s != "" && Json.Bytes(d.value.s) <= 128 && '\0' !in d.value.s
  }

  predicate Counter(d: Option<Doc>) {
    d.Some? && d.value.Integer? && 0 <= d.value.n <= MAX_COUNTER
  }

  predicate Text(d: Option<Doc>, s: string) {
    d == Some(Str(s))
  }

  function TwoDigits(s: string, at: nat): int
    requires at + 2 <= |s| && Json.Digit(s[at]) && Json.Digit(s[at + 1])
  {
    10 * Json.HexValue(s[at]) + Json.HexValue(s[at + 1])
  }

  function DaysInMonth(year: int, month: int): int {
    if month == 2 then if year % 4 == 0 && (year % 100 != 0 || year % 400 == 0) then 29 else 28
    else if month in {4, 6, 9, 11} then 30
    else 31
  }

  /** The shape `dddd-dd-ddTdd:dd:dd`, at the start of the text. */
  predicate DateTimeShape(s: string) {
    && |s| >= 19
    && (forall i :: i in {0, 1, 2, 3, 5, 6, 8, 9, 11, 12, 14, 15, 17, 18} ==> Json.Digit(s[i]))
    && s[4] == '-' && s[7] == '-' && s[10] == 'T' && s[13] == ':' && s[16] == ':'
  }

  predicate Zone(z: string) {
    || z == "Z"
    || (&& |z| == 6 && z[0] in "+-" && z[3] == ':'
        && Json.Digit(z[1]) && Json.Digit(z[2]) && Json.Digit(z[4]) && Json.Digit(z[5])
        && TwoDigits(z, 1) <= 23 && TwoDigits(z, 4) <= 59)
  }

  predicate Timestamp(s: string) {
    DateTimeShape(s) &&
    var year, month := 100 * TwoDigits(s, 0) + TwoDigits(s, 2), TwoDigits(s, 5);
    && year != 0 && 1 <= month <= 12 && 1 <= TwoDigits(s, 8) <= DaysInMonth(year, month)
    && TwoDigits(s, 11) <= 23 && TwoDigits(s, 14) <= 59 && TwoDigits(s, 17) <= 59
    && var rest := s[19..];
       if rest != "" && rest[0] == '.' then
         var n := Json.DigitRun(rest[1..]);
         n > 0 && Zone(rest[1 + n..])
       else Zone(rest)
  }

  predicate MeasuredAt(d: Option<Doc>) {
    d == Some(Null) || (d.Some? && d.value.Str? && Timestamp(d.value.s))
  }

  const FIELDS := ["schema_version", "device_id", "boot_id", "sequence_number", "measured_at",
                   "device_uptime_ms", "metric", "value", "unit", "quality"]

  predicate Quality(d: Option<Doc>) {
    && d.Some? && ExactKeys(d.value, ["reading", "clock"])
    && Text(d.value.Get("reading"), "valid")
    && d.value.Get("clock").value.Str?
    && d.value.Get("clock").value.s in ["synchronised", "unsynchronised", "estimated", "unknown"]
  }

  /** The field checks, in the order the program makes them. */
  function CheckFields(d: Doc, device: string): Result<Identity, Reason> {
    if d.Get("gateway_received_at").Some? then Err(ReceiptForbidden)
    else if !ExactKeys(d, FIELDS) then Err(InvalidEventFields)
    else if d.Get("schema_version") != Some(Integer(1)) then Err(UnsupportedSchemaVersion)
    else if !Identifier(d.Get("device_id")) then Err(InvalidDeviceId)
    else if d.Get("device_id").value.s != device then Err(TopicDeviceMismatch)
    else if !Identifier(d.Get("boot_id")) then Err(InvalidBootId)
    else if !Counter(d.Get("sequence_number")) then Err(InvalidSequenceNumber)
    else if !Counter(d.Get("device_uptime_ms")) then Err(InvalidDeviceUptime)
    else if !MeasuredAt(d.Get("measured_at")) then Err(InvalidMeasuredAt)
    else if !Text(d.Get("metric"), "temperature") then Err(InvalidMetric)
    else if !Text(d.Get("unit"), "celsius") then Err(InvalidUnit)
    else if d.Get("value").None? || !(d.Get("value").value.Integer? || d.Get("value").value.Real?) then
      Err(InvalidValue)
    else if !Quality(d.Get("quality")) then Err(InvalidQuality)
    else Ok(Identity(device, d.Get("boot_id").value.s, d.Get("sequence_number").value.n))
  }

  function Parse(topic: string, p: Payload, receivedAt: string): Result<Event, Reason> {
    if Json.Bytes(PayloadText(p)) > MAX_PAYLOAD_BYTES then Err(PayloadTooLarge)
    else
      match TopicDevice(topic)
      case None => Err(InvalidTopic)
      case Some(device) =>
        match ParseStrict(p)
        case Err(reason) => Err(reason)
        case Ok(doc) =>
          match CheckFields(doc, device)
          case Err(reason) => Err(reason)
          case Ok(id) => Ok(Event(id, PayloadText(p), receivedAt))
  }

  // What acceptance guarantees

  lemma {:induction false} FindIsLookup(ms: seq<Json.Member>, key: string)
    requires ParsedMembers(ms).Some?
    ensures
      match Splicer.Lookup(ms, key)
      case None => Find(ParsedMembers(ms).value, key) == None
      case Some(v) => Parsed(v).Some? && Find(ParsedMembers(ms).value, key) == Parsed(v)
  {
    hide Json.Decode;
    if ms != [] {
      FindIsLookup(ms[1..], key);
      var fields := ParsedMembers(ms).value;
      assert fields[1..] == ParsedMembers(ms[1..]).value;
    }
  }

  lemma ParsedKeysDecode(ms: seq<Json.Member>)
    requires ParsedMembers(ms).Some?
    ensures Splicer.KeysDecode(ms)
  {
    hide Json.Decode;
    forall i | 0 <= i < |ms| ensures Json.Decode(ms[i].key).Some? {
      ParsedMembersAt(ms, i);
    }
  }

  lemma {:induction false} LookupHasKey(ms: seq<Json.Member>, key: string)
    ensures Splicer.Lookup(ms, key).Some? <==> Splicer.HasKey(ms, key)
  {
    hide Json.Decode;
    if ms != [] {
      Splicer.HasKeyStep(ms, key);
      LookupHasKey(ms[1..], key);
    }
  }

  /** What an accepted event's payload is: one object whose members carry the event's identity. */
  lemma AcceptedPayload(topic: string, p: Payload, receivedAt: string)
    requires ValidPayload(p) && Parse(topic, p, receivedAt).Ok?
    ensures WellSpelled(p) && p.value.Object? && ParsedMembers(p.value.members).Some?
    ensures Numbers.NumbersMeet(Numbers.Finite, p.value)
    ensures
      var e := Parse(topic, p, receivedAt).value;
      var d := Obj(ParsedMembers(p.value.members).value);
      && e.payload == PayloadText(p) && e.receivedAt == receivedAt
      && Json.Bytes(e.payload) <= MAX_PAYLOAD_BYTES
      && e.id.sequence <= MAX_COUNTER
      && TopicDevice(topic) == Some(e.id.device)
      && Within(d, 0, MAX_DEPTH) && NoRepeats(d)
      && CheckFields(d, e.id.device) == Ok(e.id)
  {
    hide Json.Decode, Json.Bytes, CheckFields, TopicDevice, Within, NoRepeats, Numbers.NumbersMeet, KeyStream.Run,
         Json.Valid, PayloadText;
    KeyStream.StreamEqualsTree(Parsed(p.value).value, MAX_DEPTH);
    CheckedFields(Parsed(p.value).value, TopicDevice(topic).value);
  }

  lemma CheckedFields(d: Doc, device: string)
    requires CheckFields(d, device).Ok?
    ensures
      var id := CheckFields(d, device).value;
      && d.Obj? && id.device == device && id.sequence <= MAX_COUNTER
      && d.Get("device_id") == Some(Str(id.device))
      && d.Get("boot_id") == Some(Str(id.boot))
      && d.Get("sequence_number") == Some(Integer(id.sequence))
      && d.Get("schema_version").Some?
      && d.Get("gateway_received_at") == None
  {
    hide Doc.Get, Json.Bytes, Timestamp;
  }

  // The accepted fields

  lemma NameLengths()
    ensures
      var f := FIELDS;
      && |f[0]| == 14 && |f[1]| == 9 && |f[2]| == 7 && |f[3]| == 15 && |f[4]| == 11
      && |f[5]| == 16 && |f[6]| == 6 && |f[7]| == 5 && |f[8]| == 4 && |f[9]| == 7 && f[2][0] != f[9][0]
  {
  }

  lemma NamesDiffer()
    ensures forall i, j :: 0 <= i < j < 10 ==> FIELDS[i] != FIELDS[j]
    ensures "gateway_received_at" !in FIELDS
  {
    NameLengths();
    var names := FIELDS;
    forall i, j | 0 <= i < j < 10 ensures names[i] != names[j] {
      assert |names[i]| != |names[j]| || (i == 2 && j == 9);
    }
  }

  function KeySet(fields: seq<Field>): set<string> {
    set f | f in fields :: f.key
  }

  lemma {:induction false} KeySetSize(fields: seq<Field>)
    ensures |KeySet(fields)| <= |fields|
  {
    if fields != [] {
      KeySetSize(fields[1..]);
      assert KeySet(fields) == KeySet(fields[1..]) + {fields[0].key};
    }
  }

  lemma {:induction false} NameSetSize(names: seq<string>)
    requires forall i, j :: 0 <= i < j < |names| ==> names[i] != names[j]
    ensures |set n | n in names| == |names|
  {
    if names != [] {
      NameSetSize(names[1..]);
      assert names[0] !in names[1..];
      assert (set n | n in names) == (set n | n in names[1..]) + {names[0]};
    }
  }

  /** An object with as many fields as expected names, and all of those, has no other. */
  lemma OnlyExpectedKeys(d: Doc, expected: seq<string>)
    requires ExactKeys(d, expected)
    requires forall i, j :: 0 <= i < j < |expected| ==> expected[i] != expected[j]
    ensures forall f :: f in d.fields ==> f.key in expected
  {
    hide Find;
    var keys, names := KeySet(d.fields), set n | n in expected;
    KeySetSize(d.fields);
    NameSetSize(expected);
    forall n | n in names ensures n in keys {
      FoundKeyIsThere(d.fields, n);
    }
    SubsetOfSize(names, keys);
    forall f | f in d.fields ensures f.key in expected {
      assert f.key in keys;
    }
  }

  lemma SubsetOfSize(a: set<string>, b: set<string>)
    requires a <= b && |b| <= |a|
    ensures a == b
  {
    assert b == a + (b - a);
  }

  lemma {:induction false} FoundKeyIsThere(fields: seq<Field>, key: string)
    requires Find(fields, key).Some?
    ensures key in KeySet(fields)
  {
    if fields[0].key != key {
      FoundKeyIsThere(fields[1..], key);
      var f :| f in fields[1..] && f.key == key;
      assert f in fields;
    } else {
      assert fields[0] in fields;
    }
  }

  /** A member the program reads by name is the same value before and after splicing. */
  predicate SameMember(ms: seq<Json.Member>, out: seq<Json.Member>, key: string, d: Doc) {
    && Splicer.Lookup(ms, key) == Splicer.Lookup(out, key)
    && Splicer.Lookup(ms, key).Some?
    && Parsed(Splicer.Lookup(ms, key).value) == Some(d)
  }

  lemma MemberSurvives(ms: seq<Json.Member>, receivedAt: string, key: string, d: Doc)
    requires ParsedMembers(ms).Some? && Find(ParsedMembers(ms).value, key) == Some(d)
    requires key != Splicer.SCHEMA_KEY && key != Splicer.RECEIPT_KEY
    ensures SameMember(ms, Splicer.Kept(ms) + [Splicer.Receipt(receivedAt)], key, d)
  {
    hide Json.Decode;
    FindIsLookup(ms, key);
    Splicer.SpliceKeepsLookups(ms, receivedAt, key);
  }

  lemma SomethingIsKept(ms: seq<Json.Member>, receivedAt: string, d: Doc)
    requires SameMember(ms, Splicer.Kept(ms) + [Splicer.Receipt(receivedAt)], "device_id", d)
    ensures Splicer.Kept(ms) != []
  {
    hide Json.Decode, Splicer.Kept;
    if Splicer.Kept(ms) == [] {
      var receipt := Splicer.Receipt(receivedAt);
      Splicer.ReceiptKeyDecodes();
      assert [] + [receipt] == [receipt] + [];
      Splicer.LookupCons(receipt, [], "device_id");
    }
  }

  /** The splicer turns the event with these members into the kept ones and the receipt time, identity intact. */
  predicate Rewrites(e: Event, ms: seq<Json.Member>, receivedAt: string) {
    var out := Splicer.Kept(ms) + [Splicer.Receipt(receivedAt)];
    && Splicer.Splice(e.payload, receivedAt) == Ok(Json.Text(Json.Object("", out)))
    && Json.Valid(Json.Object("", out))
    && SameMember(ms, out, "device_id", Str(e.id.device))
    && SameMember(ms, out, "boot_id", Str(e.id.boot))
    && SameMember(ms, out, "sequence_number", Integer(e.id.sequence))
    && Splicer.Lookup(out, Splicer.SCHEMA_KEY) == None
    && Splicer.Lookup(out, Splicer.RECEIPT_KEY) == Some(Json.Quoted(Splicer.Dump(receivedAt)))
  }

  lemma UnmarkedEventConverts(topic: string, p: Payload, receivedAt: string)
    requires ValidPayload(p) && Parse(topic, p, receivedAt).Ok? && !p.Marked?
    ensures WellSpelled(p) && p.value.Object?
    ensures Rewrites(Parse(topic, p, receivedAt).value, p.value.members, receivedAt)
  {
    hide Json.Decode, Json.Bytes, Parse, CheckFields, SameMember, Splicer.Splice, Json.Text,
         Splicer.Kept, Splicer.Receipt, Splicer.Dump, Splicer.HasKey, Json.Valid;
    AcceptedPayload(topic, p, receivedAt);
    var e, ms := Parse(topic, p, receivedAt).value, p.value.members;
    var d := Obj(ParsedMembers(ms).value);
    CheckedFields(d, e.id.device);
    MemberSurvives(ms, receivedAt, "device_id", Str(e.id.device));
    MemberSurvives(ms, receivedAt, "boot_id", Str(e.id.boot));
    MemberSurvives(ms, receivedAt, "sequence_number", Integer(e.id.sequence));
    SomethingIsKept(ms, receivedAt, Str(e.id.device));
    FindIsLookup(ms, "schema_version");
    LookupHasKey(ms, "schema_version");
    FindIsLookup(ms, "gateway_received_at");
    LookupHasKey(ms, "gateway_received_at");
    Splicer.SpliceSwapsEnvelope(ms, receivedAt);
    ParsedKeysDecode(ms);
    Splicer.SplicePreservesMeaning(p.before, p.value.blank, ms, p.after, receivedAt);
  }

  /** The splicer skips no mark. */
  lemma MarkIsNoObject(text: string, receivedAt: string)
    requires StartsWithMark(text)
    ensures Splicer.Splice(text, receivedAt) == Err(Splicer.NotAnObject)
  {
    assert text[0..] == text;
  }

  /**
   What intake accepts, the forwarder can rewrite, exactly when the payload does not start with a byte
   order mark.  The result is a well-formed object without the schema version, with the receipt time, and
   with the identity members intact.
   */
  lemma AcceptedEventConverts(topic: string, p: Payload, receivedAt: string)
    requires ValidPayload(p) && Parse(topic, p, receivedAt).Ok?
    ensures
      var text := Parse(topic, p, receivedAt).value.payload;
      && (Splicer.Splice(text, receivedAt).Ok? <==> !StartsWithMark(text))
      && (StartsWithMark(text) <==> p.Marked?)
    ensures !p.Marked? ==>
      p.Spelled? && p.value.Object? && Rewrites(Parse(topic, p, receivedAt).value, p.value.members, receivedAt)
  {
    hide Json.Decode, Json.Bytes, Parse, CheckFields, SameMember, Splicer.Splice, Json.Text,
         Splicer.Kept, Splicer.Receipt, Splicer.Dump, Splicer.HasKey, Json.Valid, Splicer.Lookup, PayloadText;
    AcceptedPayload(topic, p, receivedAt);
    MarkTells(p);
    if p.Marked? {
      MarkIsNoObject(PayloadText(p), receivedAt);
    } else {
      UnmarkedEventConverts(topic, p, receivedAt);
    }
  }

  // Sizes

  lemma {:induction false} KeptIsNoLonger(ms: seq<Json.Member>)
    requires Splicer.Kept(ms) != []
    ensures Json.Bytes(Json.MembersText(Splicer.Kept(ms))) <= Json.Bytes(Json.MembersText(ms))
  {
    hide Json.Bytes, Json.Decode, Json.Span;
    var kept := Splicer.Kept(ms);
    var m := ms[0];
    var first := m.before + Json.Span(m);
    Json.BytesConcat(m.before, Json.Span(m));
    if |ms| > 1 {
      Json.BytesConcat(first + ",", Json.MembersText(ms[1..]));
      Json.BytesConcat(first, ",");
    }
    if Json.Decode(m.key) == Some(Splicer.SCHEMA_KEY) {
      KeptIsNoLonger(ms[1..]);
    } else {
      var head, tail := m.(before := ""), Splicer.Kept(ms[1..]);
      assert kept == [head] + tail && kept[1..] == tail;
      Splicer.SpanIgnoresBefore(m);
      assert head.before + Json.Span(head) == Json.Span(m);
      if tail != [] {
        KeptIsNoLonger(ms[1..]);
        Json.BytesConcat(Json.Span(m) + ",", Json.MembersText(tail));
        Json.BytesConcat(Json.Span(m), ",");
      }
    }
  }

  lemma {:induction false} DumpBytes(s: string)
    ensures Json.Bytes(Splicer.Dump(s)) <= 6 * |s|
  {
    hide Splicer.DumpChar;
    if s != "" {
      DumpBytes(s[1..]);
      DumpCharBytes(s[0]);
      Json.BytesConcat(Splicer.DumpChar(s[0]), Splicer.Dump(s[1..]));
    }
  }

  lemma DumpCharBytes(c: char)
    ensures Json.Bytes(Splicer.DumpChar(c)) <= 6
  {
    var s := Splicer.DumpChar(c);
    if |s| == 1 {
      assert s[1..] == "";
    } else {
      AsciiBytes(s);
    }
  }

  lemma {:induction false} AsciiBytes(s: string)
    requires forall i :: 0 <= i < |s| ==> s[i] < '\U{80}'
    ensures Json.Bytes(s) == |s|
  {
    if s != "" {
      AsciiBytes(s[1..]);
    }
  }
}
