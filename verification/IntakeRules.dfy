/**
 What the gateway takes for an event, in full: the topics, payloads, fields and clock texts that pass intake,
 and what each refusal means.
 */
module IntakeRules {
  import opened Options
  import opened Events
  import opened Document
  import opened EventParser
  import DeviceEvents
  import Formatting
  import Json
  import KeyStream
  import Numbers

  // Topics

  /** A device name that can stand in a topic. */
  predicate TopicName(device: string) {
    device != "" && Json.Bytes(device) <= 128 && '/' !in device && '+' !in device && '#' !in device
  }

  /** A topic names a device exactly when it is the device's telemetry topic. */
  lemma TopicExactly(topic: string, device: string)
    ensures
      TopicDevice(topic) == Some(device) <==>
      TopicName(device) && topic == "equipment/" + device + "/telemetry"
  {
    hide Json.Bytes;
    if TopicDevice(topic) == Some(device) {
      assert topic == topic[..10] + topic[10..|topic| - 10] + topic[|topic| - 10..];
    }
    if TopicName(device) && topic == "equipment/" + device + "/telemetry" {
      DeviceEvents.TopicNamesDevice(device);
      assert topic == DeviceEvents.Topic(device);
    }
  }

  // Fields

  predicate Name(s: string) {
    s != "" && Json.Bytes(s) <= 128 && '\0' !in s
  }

  predicate CounterField(d: Doc, key: string) {
    match d.Get(key)
    case Some(Integer(n)) => 0 <= n <= 0x7fff_ffff_ffff_ffff
    case _ => false
  }

  predicate ClockField(d: Doc) {
    match d.Get("measured_at")
    case Some(Null) => true
    case Some(Str(s)) => Timestamp(s)
    case _ => false
  }

  predicate ValueField(d: Doc) {
    match d.Get("value")
    case Some(Integer(_)) => true
    case Some(Real(_)) => true
    case _ => false
  }

  predicate QualityField(d: Doc) {
    match d.Get("quality")
    case Some(Obj(fields)) =>
      && |fields| == 2 && Find(fields, "reading") == Some(Str("valid"))
      && Find(fields, "clock") in
         [Some(Str("synchronised")), Some(Str("unsynchronised")), Some(Str("estimated")), Some(Str("unknown"))]
    case _ => false
  }

  /** The document is an event with this identity: these ten fields, each of its kind, and no other. */
  predicate IsEvent(d: Doc, id: Identity) {
    && d.Obj? && |d.fields| == 10
    && d.Get("schema_version") == Some(Integer(1))
    && d.Get("device_id") == Some(Str(id.device)) && Name(id.device)
    && d.Get("boot_id") == Some(Str(id.boot)) && Name(id.boot)
    && d.Get("sequence_number") == Some(Integer(id.sequence)) && id.sequence <= 0x7fff_ffff_ffff_ffff
    && CounterField(d, "device_uptime_ms") && ClockField(d)
    && d.Get("metric") == Some(Str("temperature")) && d.Get("unit") == Some(Str("celsius"))
    && ValueField(d) && QualityField(d)
  }

  lemma ReceiptIsNoField(d: Doc, id: Identity)
    requires IsEvent(d, id)
    ensures d.Get("gateway_received_at") == None && ExactKeys(d, FIELDS)
  {
    hide Find, Name, Timestamp;
    EventHasTheFields(d, id);
    NamesDiffer();
    OnlyExpectedKeys(d, FIELDS);
    forall j | 0 <= j < |d.fields| ensures d.fields[j].key != "gateway_received_at" {
      assert d.fields[j] in d.fields;
    }
    FindNone(d.fields, "gateway_received_at");
  }

  lemma EventHasTheFields(d: Doc, id: Identity)
    requires IsEvent(d, id)
    ensures ExactKeys(d, FIELDS)
  {
    hide Doc.Get, Name, Timestamp;
  }

  lemma QualityExactly(d: Doc)
    ensures Quality(d.Get("quality")) <==> QualityField(d)
  {
    hide Find;
    assert "reading" != "clock" && |["reading", "clock"]| == 2;
  }

  /** The field checks pass, with this identity, exactly for events of the topic's device. */
  lemma FieldsExactly(d: Doc, device: string, id: Identity)
    ensures CheckFields(d, device) == Ok(id) <==> IsEvent(d, id) && id.device == device
  {
    hide Doc.Get, Json.Bytes, Timestamp, Quality, QualityField, ExactKeys;
    QualityExactly(d);
    if IsEvent(d, id) {
      ReceiptIsNoField(d, id);
    }
    if CheckFields(d, device).Ok? {
      ExactCount(d);
    }
  }

  lemma ExactCount(d: Doc)
    requires ExactKeys(d, FIELDS)
    ensures d.Obj? && |d.fields| == 10
  {
  }

  /** What is wrong with the fields when they are refused for this reason. */
  ghost predicate Wrong(d: Doc, device: string, reason: Reason) {
    match reason
    case ReceiptForbidden => d.Get("gateway_received_at").Some?
    case InvalidEventFields => !d.Obj? || |d.fields| != 10 || exists k :: k in FIELDS && d.Get(k) == None
    case UnsupportedSchemaVersion => d.Get("schema_version") != Some(Integer(1))
    case InvalidDeviceId => forall s :: d.Get("device_id") == Some(Str(s)) ==> !Name(s)
    case TopicDeviceMismatch => d.Get("device_id") != Some(Str(device))
    case InvalidBootId => forall s :: d.Get("boot_id") == Some(Str(s)) ==> !Name(s)
    case InvalidSequenceNumber => !CounterField(d, "sequence_number")
    case InvalidDeviceUptime => !CounterField(d, "device_uptime_ms")
    case InvalidMeasuredAt => !ClockField(d)
    case InvalidMetric => d.Get("metric") != Some(Str("temperature"))
    case InvalidUnit => d.Get("unit") != Some(Str("celsius"))
    case InvalidValue => !ValueField(d)
    case InvalidQuality => !QualityField(d)
    case _ => false
  }

  /** Every refusal names a fault that the fields have. */
  lemma ReasonsAreTrue(d: Doc, device: string)
    ensures CheckFields(d, device).Err? ==> Wrong(d, device, CheckFields(d, device).error)
  {
    hide Doc.Get, Json.Bytes, Timestamp, Quality, QualityField;
    QualityExactly(d);
  }

  // Messages

  /** The message is an event: this is what `Parse` accepts, all of it and nothing else. */
  ghost predicate Carries(topic: string, p: Payload, e: Event) {
    && topic == "equipment/" + e.id.device + "/telemetry" && TopicName(e.id.device)
    && e.payload == PayloadText(p) && Json.Bytes(e.payload) <= 16384
    && !p.NotJson? && Numbers.NumbersMeet(Numbers.Finite, p.value)
    && Parsed(p.value).Some?
    && Within(Parsed(p.value).value, 0, 4) && NoRepeats(Parsed(p.value).value)
    && IsEvent(Parsed(p.value).value, e.id)
  }

  lemma ParsesExactly(topic: string, p: Payload, receivedAt: string, e: Event)
    ensures
      Parse(topic, p, receivedAt) == Ok(e) <==> Carries(topic, p, e) && e.receivedAt == receivedAt
  {
    hide Json.Bytes, CheckFields, TopicDevice, IsEvent, Parsed, Within, NoRepeats, KeyStream.Run, PayloadText,
         Numbers.NumbersMeet, TopicName;
    TopicExactly(topic, e.id.device);
    if !p.NotJson? && Parsed(p.value).Some? {
      var d := Parsed(p.value).value;
      KeyStream.StreamEqualsTree(d, MAX_DEPTH);
      FieldsExactly(d, e.id.device, e.id);
      if TopicDevice(topic).Some? && CheckFields(d, TopicDevice(topic).value).Ok? {
        CheckedFields(d, TopicDevice(topic).value);
      }
    }
  }

  /** No device has this telemetry topic. */
  ghost predicate Foreign(topic: string) {
    forall device :: TopicName(device) ==> topic != "equipment/" + device + "/telemetry"
  }

  /** What is wrong with a message that is refused for this reason. */
  ghost predicate Faulty(topic: string, p: Payload, reason: EventParser.Reason) {
    match reason
    case PayloadTooLarge => Json.Bytes(PayloadText(p)) > 16384
    case InvalidTopic => Foreign(topic)
    case InvalidJson => p.NotJson? || !Numbers.NumbersMeet(Numbers.Finite, p.value) || Parsed(p.value).None?
    case JsonTooDeep => !p.NotJson? && Parsed(p.value).Some? && !Within(Parsed(p.value).value, 0, 4)
    case DuplicateJsonKey => !p.NotJson? && Parsed(p.value).Some? && !NoRepeats(Parsed(p.value).value)
    case _ =>
      && !p.NotJson? && Parsed(p.value).Some?
      && exists device :: topic == "equipment/" + device + "/telemetry" && Wrong(Parsed(p.value).value, device, reason)
  }

  lemma NoSuchTopic(topic: string)
    ensures TopicDevice(topic).None? <==> Foreign(topic)
  {
    hide TopicDevice, TopicName;
    forall device ensures TopicDevice(topic) == Some(device) <==>
      TopicName(device) && topic == "equipment/" + device + "/telemetry"
    {
      TopicExactly(topic, device);
    }
  }

  /** Every refused message has the fault the refusal names. */
  lemma RefusalsAreTrue(topic: string, p: Payload, receivedAt: string)
    ensures
      var parsed := Parse(topic, p, receivedAt);
      parsed.Err? ==> Faulty(topic, p, parsed.error)
  {
    hide Json.Bytes, CheckFields, TopicDevice, Parsed, Within, NoRepeats, KeyStream.Run, PayloadText,
         Numbers.NumbersMeet, TopicName, Wrong, Foreign;
    NoSuchTopic(topic);
    if TopicDevice(topic).Some? && !p.NotJson? && Parsed(p.value).Some? {
      var d, device := Parsed(p.value).value, TopicDevice(topic).value;
      TopicExactly(topic, device);
      KeyStream.StreamEqualsTree(d, MAX_DEPTH);
      ReasonsAreTrue(d, device);
      FieldReasons(d, device);
    }
  }

  lemma FieldReasons(d: Doc, device: string)
    ensures
      var checked := CheckFields(d, device);
      checked.Err? ==>
        checked.error !in [PayloadTooLarge, InvalidTopic, InvalidJson, JsonTooDeep, DuplicateJsonKey]
  {
    hide Doc.Get, Json.Bytes, Timestamp, Quality;
  }

  // Clock texts

  predicate LeapYear(y: nat) { y % 4 == 0 && (y % 100 != 0 || y % 400 == 0) }

  function MonthLength(y: nat, m: nat): nat {
    match m
    case 1 => 31 case 2 => if LeapYear(y) then 29 else 28 case 3 => 31 case 4 => 30 case 5 => 31 case 6 => 30
    case 7 => 31 case 8 => 31 case 9 => 30 case 10 => 31 case 11 => 30 case _ => 31
  }

  /** A second of the Gregorian calendar, in the years 1 to 9999. */
  datatype Second = Second(year: nat, month: nat, day: nat, hour: nat, minute: nat, second: nat)

  predicate Real(t: Second) {
    && 1 <= t.year <= 9999 && 1 <= t.month <= 12 && 1 <= t.day <= MonthLength(t.year, t.month)
    && t.hour < 24 && t.minute < 60 && t.second < 60
  }

  function Two(n: nat): string { DeviceEvents.Two(n) }

  function Spelled(t: Second): string {
    Formatting.Padded(t.year, 4, 10) + "-" + Two(t.month) + "-" + Two(t.day) + "T"
    + Two(t.hour) + ":" + Two(t.minute) + ":" + Two(t.second)
  }

  /** `Z`, or a distance from it of less than a day in hours and minutes. */
  ghost predicate ZoneText(z: string) {
    z == "Z" || exists sign, h: nat, m: nat :: sign in ["+", "-"] && OffsetText(z, sign, h, m)
  }

  predicate OffsetText(z: string, sign: string, h: nat, m: nat) {
    h < 24 && m < 60 && z == sign + Two(h) + ":" + Two(m)
  }

  /** What may follow the seconds: any fraction, and the zone. */
  ghost predicate TailText(tail: string) {
    ZoneText(tail) || exists part, zone :: PartText(tail, part, zone)
  }

  ghost predicate PartText(tail: string, part: string, zone: string) {
    part != "" && AllDigits(part) && ZoneText(zone) && tail == "." + part + zone
  }

  lemma TwoIsSpelling(x: string)
    requires |x| == 2 && Json.Digit(x[0]) && Json.Digit(x[1])
    ensures Two(10 * Json.HexValue(x[0]) + Json.HexValue(x[1])) == x
  {
    hide Formatting.Padded;
    var n := 10 * Json.HexValue(x[0]) + Json.HexValue(x[1]);
    DeviceEvents.TwoSpelled(n);
    assert Two(n)[0] == x[0] && Two(n)[1] == x[1];
  }

  lemma FourIsSpelling(x: string)
    requires |x| == 4 && Json.Digit(x[0]) && Json.Digit(x[1]) && Json.Digit(x[2]) && Json.Digit(x[3])
    ensures
      Formatting.Padded(1000 * Json.HexValue(x[0]) + 100 * Json.HexValue(x[1]) + 10 * Json.HexValue(x[2])
                        + Json.HexValue(x[3]), 4, 10) == x
  {
    hide Formatting.Padded;
    var n := 1000 * Json.HexValue(x[0]) + 100 * Json.HexValue(x[1]) + 10 * Json.HexValue(x[2]) + Json.HexValue(x[3]);
    DeviceEvents.FourSpelled(n);
    var y := Formatting.Padded(n, 4, 10);
    assert y[0] == x[0] && y[1] == x[1] && y[2] == x[2] && y[3] == x[3];
  }

  lemma ZoneExactly(z: string)
    ensures Zone(z) <==> ZoneText(z)
  {
    hide Formatting.Padded, DeviceEvents.Two;
    if Zone(z) && z != "Z" {
      var h, m := 10 * Json.HexValue(z[1]) + Json.HexValue(z[2]), 10 * Json.HexValue(z[4]) + Json.HexValue(z[5]);
      TwoIsSpelling(z[1..3]);
      TwoIsSpelling(z[4..6]);
      assert Two(h) == z[1..3] && Two(m) == z[4..6];
      assert z == z[..1] + z[1..3] + ":" + z[4..6];
      assert z[0] == '+' || z[0] == '-';
      assert z[..1] == [z[0]];
      assert z[..1] in ["+", "-"] && OffsetText(z, z[..1], h, m);
    }
    if ZoneText(z) && z != "Z" {
      var sign, h: nat, m: nat :| sign in ["+", "-"] && OffsetText(z, sign, h, m);
      DeviceEvents.TwoSpelled(h);
      DeviceEvents.TwoSpelled(m);
      assert z[0] == sign[0] && z[1] == Two(h)[0] && z[2] == Two(h)[1] && z[3] == ':';
      assert z[4] == Two(m)[0] && z[5] == Two(m)[1];
    }
  }

  /** A tail as the program reads it. */
  predicate TailRead(rest: string) {
    if rest != "" && rest[0] == '.' then
      var n := Json.DigitRun(rest[1..]);
      n > 0 && Zone(rest[1 + n..])
    else Zone(rest)
  }

  lemma ZoneStart(z: string)
    requires Zone(z)
    ensures z != "" && !Json.Digit(z[0]) && z[0] != '.'
  {
  }

  lemma TailExactly(rest: string)
    ensures TailRead(rest) <==> TailText(rest)
  {
    hide Zone, ZoneText;
    ZoneExactly(rest);
    if rest != "" && rest[0] == '.' {
      if Zone(rest) {
        ZoneStart(rest);
      }
      var n := Json.DigitRun(rest[1..]);
      var part, zone := rest[1..][..n], rest[1 + n..];
      ZoneExactly(zone);
      assert rest == "." + part + zone;
      if TailRead(rest) {
        assert PartText(rest, part, zone);
      }
    }
    if part, zone :| PartText(rest, part, zone) {
      ZoneExactly(zone);
      ZoneStart(zone);
      Formatting.RunOfDigits(part, zone);
      assert rest[1..] == part + zone;
      assert rest[1 + |part|..] == zone;
    }
  }

  /** Where the digits of a spelled second stand. */
  lemma SpelledLayout(t: Second, tail: string)
    requires Real(t)
    ensures
      var s := Spelled(t) + tail;
      && DateTimeShape(s) && s[19..] == tail
      && 100 * TwoDigits(s, 0) + TwoDigits(s, 2) == t.year && TwoDigits(s, 5) == t.month && TwoDigits(s, 8) == t.day
      && TwoDigits(s, 11) == t.hour && TwoDigits(s, 14) == t.minute && TwoDigits(s, 17) == t.second
  {
    hide Formatting.Padded, DeviceEvents.Two;
    DeviceEvents.FourSpelled(t.year);
    DeviceEvents.TwoSpelled(t.month);
    DeviceEvents.TwoSpelled(t.day);
    DeviceEvents.TwoSpelled(t.hour);
    DeviceEvents.TwoSpelled(t.minute);
    DeviceEvents.TwoSpelled(t.second);
    Layout(Formatting.Padded(t.year, 4, 10), Two(t.month), Two(t.day), Two(t.hour), Two(t.minute), Two(t.second), tail);
  }

  function Joined(y: string, mo: string, d: string, h: string, mi: string, sec: string): string {
    y + "-" + mo + "-" + d + "T" + h + ":" + mi + ":" + sec
  }

  lemma Layout(y: string, mo: string, d: string, h: string, mi: string, sec: string, tail: string)
    requires |y| == 4 && |mo| == |d| == |h| == |mi| == |sec| == 2
    ensures
      var s := Joined(y, mo, d, h, mi, sec) + tail;
      && |s| >= 19 && s[19..] == tail && s[0] == y[0] && s[1] == y[1] && s[2] == y[2] && s[3] == y[3] && s[4] == '-'
      && s[5] == mo[0] && s[6] == mo[1] && s[7] == '-' && s[8] == d[0] && s[9] == d[1] && s[10] == 'T'
      && s[11] == h[0] && s[12] == h[1] && s[13] == ':' && s[14] == mi[0] && s[15] == mi[1] && s[16] == ':'
      && s[17] == sec[0] && s[18] == sec[1]
  {
  }

  /** The second that the digits of a shaped text spell. */
  function Read(s: string): Second
    requires DateTimeShape(s)
  {
    Second(100 * TwoDigits(s, 0) + TwoDigits(s, 2), TwoDigits(s, 5), TwoDigits(s, 8), TwoDigits(s, 11),
           TwoDigits(s, 14), TwoDigits(s, 17))
  }

  lemma ShapedIsSpelled(s: string)
    requires DateTimeShape(s)
    ensures Spelled(Read(s)) + s[19..] == s
  {
    hide Formatting.Padded, DeviceEvents.Two;
    FourIsSpelling(s[0..4]);
    TwoIsSpelling(s[5..7]);
    TwoIsSpelling(s[8..10]);
    TwoIsSpelling(s[11..13]);
    TwoIsSpelling(s[14..16]);
    TwoIsSpelling(s[17..19]);
    assert Spelled(Read(s)) == Joined(s[0..4], s[5..7], s[8..10], s[11..13], s[14..16], s[17..19]);
    Layout(s[0..4], s[5..7], s[8..10], s[11..13], s[14..16], s[17..19], s[19..]);
  }

  lemma MonthsAgree(y: nat, m: nat)
    requires 1 <= m <= 12
    ensures DaysInMonth(y, m) == MonthLength(y, m)
  {
  }

  ghost predicate Spells(s: string, t: Second, tail: string) {
    Real(t) && TailText(tail) && s == Spelled(t) + tail
  }

  /** A clock text passes exactly when it spells a second of the calendar, perhaps with a fraction, in some zone. */
  lemma TimestampExactly(s: string)
    ensures Timestamp(s) <==> exists t, tail :: Spells(s, t, tail)
  {
    hide Spelled, TailText, DaysInMonth, MonthLength, Zone;
    if Timestamp(s) {
      ShapedIsSpelled(s);
      MonthsAgree(Read(s).year, Read(s).month);
      TailExactly(s[19..]);
      assert Spells(s, Read(s), s[19..]);
    }
    if t, tail :| Spells(s, t, tail) {
      SpelledLayout(t, tail);
      MonthsAgree(t.year, t.month);
      TailExactly(tail);
    }
  }
}
