/**
 Which requests the backend reads at all (backend/app/telemetry/validation.py, `parse_telemetry_batch`).
 One event it cannot decode makes it refuse the whole batch with status 400, before any item is looked at.
 */
module Requests {
  import opened Options
  import opened Events
  import opened Document
  import opened Validation
  import Batch
  import EventParser
  import Formatting
  import Json
  import JsonUnique
  import Numbers
  import Splicer

  /** A document with unique member names whose numbers Python represents exactly. */
  predicate Decodable(v: Json.Value) {
    && Json.Valid(v) && Parsed(v).Some? && NoRepeats(Parsed(v).value)
    && Numbers.NumbersMeet(Numbers.Decodes, v)
  }

  ghost predicate BodyReads(body: string) {
    exists v :: Decodable(v) && Json.Text(v) == body
  }

  /** The gateway can write the request for these events, and the backend can read it. */
  ghost predicate RequestReads(events: seq<Event>) {
    Batch.Body(events).Ok? && BodyReads(Batch.Body(events).value)
  }

  /** What the gateway writes for this one event can be read. */
  ghost predicate EventReads(e: Event) {
    exists ms :: Sends(e, ms) && Numbers.NumbersMeet(Numbers.Decodes, Json.Object("", ms))
  }

  // A request reads exactly when each of its events does

  /** The members sent are the ones the splicer wrote. */
  lemma SentIsUnique(e: Event, ms: seq<Json.Member>, ns: seq<Json.Member>)
    requires Sends(e, ms) && Sends(e, ns)
    ensures ms == ns
  {
    hide Json.Text, Json.Valid, Splicer.Splice, ParsedMembers;
    JsonUnique.TextIsInjective(Json.Object("", ms), Json.Object("", ns));
  }

  lemma SentNamesAreUnique(e: Event, ms: seq<Json.Member>)
    requires Batch.Convertible(e) && Sends(e, ms)
    ensures NoRepeats(Obj(ParsedMembers(ms).value))
  {
    hide EventParser.Parse, EventParser.ValidPayload, EventParser.PayloadText, Sends, Batch.Carries, Splicer.Kept,
         Doc.Get, Json.Bytes, EventParser.CheckFields, Within, ParsedMembers;
    var topic, p :| Batch.AcceptedAs(e, topic, p);
    EventParser.AcceptedEventConverts(topic, p, e.receivedAt);
    EventParser.AcceptedPayload(topic, p, e.receivedAt);
    SentForEvent(e, topic, p);
    SentIsUnique(e, ms, SentFor(p, e.receivedAt));
    var fields := ParsedMembers(p.value.members).value;
    EventParser.CheckedFields(Obj(fields), e.id.device);
    ReceiptIsNew(fields);
    KeptParse(p.value.members);
    SentForParses(p, e.receivedAt);
  }

  lemma {:induction false} ReceiptIsNew(fields: seq<Field>)
    requires Obj(fields).Get(Splicer.RECEIPT_KEY) == None
    ensures forall f :: f in fields ==> f.key != Splicer.RECEIPT_KEY
  {
    if fields != [] {
      ReceiptIsNew(fields[1..]);
    }
  }

  lemma {:induction false} ObjectsParse(objects: seq<seq<Json.Member>>)
    requires forall i :: 0 <= i < |objects| ==> ParsedMembers(objects[i]).Some?
    ensures ParsedElements(Batch.Objects(objects)).Some?
    ensures
      var docs := ParsedElements(Batch.Objects(objects)).value;
      |docs| == |objects| && forall i :: 0 <= i < |docs| ==> docs[i] == Obj(ParsedMembers(objects[i]).value)
  {
    hide ParsedMembers;
    if objects != [] {
      var es := Batch.Objects(objects);
      assert es[1..] == Batch.Objects(objects[1..]);
      ObjectsParse(objects[1..]);
      assert Parsed(es[0].value) == Some(Obj(ParsedMembers(objects[0]).value));
      var docs := ParsedElements(es).value;
      assert docs == [Obj(ParsedMembers(objects[0]).value)] + ParsedElements(es[1..]).value;
    } else {
      assert Batch.Objects(objects) == [];
    }
  }

  lemma OneDecodes()
    ensures Numbers.Decodes("1") && Parsed(Json.Number("1")) == Some(Integer(1))
  {
    hide Formatting.Digits;
    assert Formatting.Decimal(1) == "1" by { DecimalOne(); }
    Numbers.CounterReads(1);
    Formatting.DecimalIsNumber(1);
  }

  lemma DecimalOne()
    ensures Formatting.Decimal(1) == "1"
  {
  }

  /** The batch as the backend parses it. */
  lemma BatchParses(objects: seq<seq<Json.Member>>)
    requires forall i :: 0 <= i < |objects| ==> ParsedMembers(objects[i]).Some?
    ensures ParsedElements(Batch.Objects(objects)).Some?
    ensures
      Parsed(Batch.BatchValue(objects)) ==
      Some(Obj([Field("schema_version", Integer(1)),
                Field("events", Arr(ParsedElements(Batch.Objects(objects)).value))]))
  {
    hide Parsed, ParsedElements, ParsedMembers, Json.Decode, Json.ValidChars, Batch.Objects;
    ObjectsParse(objects);
    OneDecodes();
    var es := Batch.Objects(objects);
    var version := Json.Member("", "schema_version", "", "", Json.Number("1"), "");
    var events := Json.Member("", "events", "", "", Json.Array("", es), "");
    Splicer.PlainKeyDecodes("schema_version");
    Splicer.PlainKeyDecodes("events");
    ArrayParses(es);
    OneMemberParses(version, "schema_version", Integer(1));
    OneMemberParses(events, "events", Arr(ParsedElements(es).value));
    AppendedParses([version], events);
    assert [version] + [events] == [version, events];
    ObjectParse([version, events]);
    var a, b := Field("schema_version", Integer(1)), Field("events", Arr(ParsedElements(es).value));
    assert [a] + [b] == [a, b];
  }

  lemma ArrayParses(es: seq<Json.Element>)
    requires ParsedElements(es).Some?
    ensures Parsed(Json.Array("", es)) == Some(Arr(ParsedElements(es).value))
  {
  }

  lemma ObjectParse(ms: seq<Json.Member>)
    requires ParsedMembers(ms).Some?
    ensures Parsed(Json.Object("", ms)) == Some(Obj(ParsedMembers(ms).value))
  {
  }

  /** Every number of the batch is the version's or one of an event's. */
  lemma BatchNumbers(objects: seq<seq<Json.Member>>)
    ensures
      Numbers.NumbersMeet(Numbers.Decodes, Batch.BatchValue(objects)) <==>
      forall i :: 0 <= i < |objects| ==> Numbers.NumbersMeet(Numbers.Decodes, Json.Object("", objects[i]))
  {
    hide Numbers.Decodes, Batch.Objects;
    OneDecodes();
    var es := Batch.Objects(objects);
    var version := Json.Member("", "schema_version", "", "", Json.Number("1"), "");
    var events := Json.Member("", "events", "", "", Json.Array("", es), "");
    var ms := [version, events];
    assert Batch.BatchValue(objects) == Json.Object("", ms);
    assert Numbers.NumbersMeet(Numbers.Decodes, version.value);
    assert forall m :: m in ms ==> m == version || m == events;
    assert events in ms;
    ElementNumbers(objects);
  }

  lemma ElementNumbers(objects: seq<seq<Json.Member>>)
    ensures
      Numbers.NumbersMeet(Numbers.Decodes, Json.Array("", Batch.Objects(objects))) <==>
      forall i :: 0 <= i < |objects| ==> Numbers.NumbersMeet(Numbers.Decodes, Json.Object("", objects[i]))
  {
    hide Numbers.Decodes;
    var es := Batch.Objects(objects);
    forall i | 0 <= i < |objects| ensures es[i] in es && es[i].value == Json.Object("", objects[i]) {
    }
    forall e | e in es ensures exists i :: 0 <= i < |objects| && e.value == Json.Object("", objects[i]) {
      var i :| 0 <= i < |es| && es[i] == e;
      assert e.value == Json.Object("", objects[i]);
    }
  }

  function LongestStamp(events: seq<Event>): (n: nat)
    ensures forall e :: e in events ==> |e.receivedAt| <= n
  {
    if events == [] then 0
    else
      var rest := LongestStamp(events[1..]);
      if |events[0].receivedAt| > rest then |events[0].receivedAt| else rest
  }

  lemma {:induction false} ConvertedAt(events: seq<Event>, i: nat)
    requires Batch.Converted(events).Ok? && i < |events|
    ensures |Batch.Converted(events).value| == |events|
    ensures Splicer.Splice(events[i].payload, events[i].receivedAt) == Ok(Batch.Converted(events).value[i])
  {
    hide Splicer.Splice;
    if i > 0 {
      ConvertedAt(events[1..], i - 1);
    } else if |events| > 1 {
      ConvertedAt(events[1..], 0);
    }
  }

  /** What is sent for an event decodes exactly when its numbers do. */
  lemma SentReads(e: Event, ms: seq<Json.Member>)
    requires Batch.Convertible(e) && Batch.Carries(ms, e)
    requires Splicer.Splice(e.payload, e.receivedAt) == Ok(Json.Text(Json.Object("", ms)))
    ensures ParsedMembers(ms).Some? && NoRepeats(Obj(ParsedMembers(ms).value))
    ensures EventReads(e) <==> Numbers.NumbersMeet(Numbers.Decodes, Json.Object("", ms))
  {
    hide Json.Text, Json.Valid, Splicer.Splice, ParsedMembers, Splicer.Lookup, Numbers.NumbersMeet, NoRepeats;
    var ns := SentMembers(e);
    JsonUnique.TextIsInjective(Json.Object("", ms), Json.Object("", ns));
    SentNamesAreUnique(e, ms);
    if EventReads(e) {
      var xs :| Sends(e, xs) && Numbers.NumbersMeet(Numbers.Decodes, Json.Object("", xs));
      SentIsUnique(e, ms, xs);
    }
  }

  lemma ConvertibleRequestReads(events: seq<Event>)
    requires events != [] && forall e :: e in events ==> Batch.Convertible(e)
    ensures RequestReads(events) <==> forall e :: e in events ==> EventReads(e)
  {
    hide Json.Text, Json.Valid, Splicer.Splice, ParsedMembers, Numbers.NumbersMeet, NoRepeats, EventReads,
         Batch.Convertible, Batch.Carries, Batch.BatchValue, Batch.Body, Json.Bytes, Batch.Joined, Parsed,
         Batch.Converted;
    var objects := Batch.ClaimIsText(events, LongestStamp(events));
    var v := Batch.BatchValue(objects);
    forall i | 0 <= i < |events|
      ensures ParsedMembers(objects[i]).Some? && NoRepeats(Obj(ParsedMembers(objects[i]).value))
      ensures EventReads(events[i]) <==> Numbers.NumbersMeet(Numbers.Decodes, Json.Object("", objects[i]))
    {
      assert events[i] in events;
      ConvertedAt(events, i);
      SentReads(events[i], objects[i]);
    }
    BatchParses(objects);
    BatchNamesAreUnique(objects);
    BatchNumbers(objects);
    forall w | Decodable(w) && Json.Text(w) == Batch.Body(events).value ensures w == v {
      JsonUnique.TextIsInjective(w, v);
    }
    assert RequestReads(events) <==> Decodable(v);
    assert (forall e :: e in events ==> EventReads(e)) <==> (forall i :: 0 <= i < |events| ==> EventReads(events[i]));
  }

  lemma BatchNamesAreUnique(objects: seq<seq<Json.Member>>)
    requires forall i :: 0 <= i < |objects| ==>
      ParsedMembers(objects[i]).Some? && NoRepeats(Obj(ParsedMembers(objects[i]).value))
    ensures Parsed(Batch.BatchValue(objects)).Some? && NoRepeats(Parsed(Batch.BatchValue(objects)).value)
  {
    hide ParsedMembers, Parsed, ParsedElements, Batch.BatchValue, Batch.Objects;
    BatchParses(objects);
    ObjectsParse(objects);
    var docs := ParsedElements(Batch.Objects(objects)).value;
    forall d | d in docs ensures NoRepeats(d) {
      var i :| 0 <= i < |docs| && docs[i] == d;
    }
    assert NoRepeats(Arr(docs));
    assert |"schema_version"| != |"events"|;
  }

  /**
   One unreadable event spoils the request, and nothing else does: the backend reads the request for
   accepted events exactly when it could read each of them alone.
   */
  lemma RequestReadsExactly(events: seq<Event>)
    requires events != [] && forall e :: e in events ==> Batch.Accepted(e)
    ensures RequestReads(events) <==> forall e :: e in events ==> EventReads(e)
  {
    hide Splicer.Splice, Batch.Accepted, Batch.Body, Json.Text, Json.Valid, ParsedMembers, Numbers.NumbersMeet;
    if i :| 0 <= i < |events| && EventParser.StartsWithMark(events[i].payload) {
      Batch.SomeMarkIsAnError(events, i);
      EventParser.MarkIsNoObject(events[i].payload, events[i].receivedAt);
      assert events[i] in events && !EventReads(events[i]);
    } else {
      forall e | e in events ensures Batch.Convertible(e) {
        var i :| 0 <= i < |events| && events[i] == e;
      }
      ConvertibleRequestReads(events);
    }
  }

  // The one number that matters

  /** The spelling of the reading's value, when the payload has one. */
  predicate ValueDecodes(ms: seq<Json.Member>) {
    match Splicer.Lookup(ms, "value")
    case Some(Number(digits)) => Numbers.Decodes(digits)
    case _ => false
  }

  lemma {:induction false} LookupAt(ms: seq<Json.Member>, i: nat, key: string)
    requires ParsedMembers(ms).Some? && i < |ms|
    requires DistinctKeys(ParsedMembers(ms).value) && ParsedMembers(ms).value[i].key == key
    ensures Splicer.Lookup(ms, key) == Some(ms[i].value)
  {
    hide Json.Decode, Parsed;
    ParsedMembersAt(ms, i);
    var fields := ParsedMembers(ms).value;
    if i > 0 {
      ParsedMembersAt(ms, 0);
      assert fields[0].key != fields[i].key;
      assert fields[1..] == ParsedMembers(ms[1..]).value;
      LookupAt(ms[1..], i - 1, key);
    }
  }

  lemma {:induction false} LookupIsIn(ms: seq<Json.Member>, key: string)
    requires Splicer.Lookup(ms, key).Some?
    ensures exists m :: m in ms && m.value == Splicer.Lookup(ms, key).value
  {
    hide Json.Decode;
    if Json.Decode(ms[0].key) == Some(key) {
      assert ms[0] in ms;
    } else {
      LookupIsIn(ms[1..], key);
    }
  }

  lemma {:induction false} KeptIsFrom(ms: seq<Json.Member>)
    ensures forall m :: m in Splicer.Kept(ms) ==>
      exists i :: 0 <= i < |ms| && m == ms[i].(before := "") && Json.Decode(m.key) != Some(Splicer.SCHEMA_KEY)
  {
    hide Json.Decode;
    if ms != [] {
      KeptIsFrom(ms[1..]);
      forall m | m in Splicer.Kept(ms)
        ensures exists i :: 0 <= i < |ms| && m == ms[i].(before := "") && Json.Decode(m.key) != Some(Splicer.SCHEMA_KEY)
      {
        if m in Splicer.Kept(ms[1..]) {
          var i :| 0 <= i < |ms| - 1 && m == ms[1..][i].(before := "");
          assert m == ms[i + 1].(before := "");
        } else {
          assert m == ms[0].(before := "");
        }
      }
    }
  }

  /** An integer within the counters' range has few digits, so any reader takes it. */
  lemma CounterDecodes(digits: string)
    requires Json.ValidNumber(digits) && NumberDoc(digits).Integer? && 0 <= NumberDoc(digits).n <= MAX_COUNTER
    ensures Numbers.Decodes(digits)
  {
    hide DigitsValue, Json.ValidFraction, Formatting.Power;
    var t := Numbers.Unsigned(digits);
    Formatting.RunOfDigits(t, "");
    assert t + "" == t && t[..|t|] == t && t[|t|..] == "";
    if |t| > 20 {
      Numbers.LeadingDigit(t);
      Numbers.NineteenZeros();
      Numbers.PowersGrow(19, |t| - 1);
    }
  }

  /** A string, null or a counter. */
  predicate PlainDoc(d: Doc) {
    d.Str? || d.Null? || (d.Integer? && 0 <= d.n <= MAX_COUNTER)
  }

  lemma PlainValueDecodes(v: Json.Value)
    requires Json.Valid(v) && Parsed(v).Some?
    requires PlainDoc(Parsed(v).value)
    ensures Numbers.NumbersMeet(Numbers.Decodes, v)
  {
    hide Json.Decode, DigitsValue, Json.ValidNumber, Numbers.Decodes;
    if v.Number? {
      CounterDecodes(v.digits);
    }
  }

  lemma {:induction false} ValidAt(ms: seq<Json.Member>, i: nat)
    requires Json.ValidMembers(ms) && i < |ms|
    ensures Json.Valid(ms[i].value)
  {
    hide Json.ValidChars, Json.Valid;
    assert Json.ValidMember(ms[0]) && Json.ValidMembers(ms[1..]);
    if i > 0 {
      ValidAt(ms[1..], i - 1);
    }
  }

  lemma PlainObjectDecodes(v: Json.Value)
    requires Json.Valid(v) && v.Object? && ParsedMembers(v.members).Some?
    requires forall f :: f in ParsedMembers(v.members).value ==> PlainDoc(f.value)
    ensures Numbers.NumbersMeet(Numbers.Decodes, v)
  {
    hide Json.Decode, Parsed, Numbers.Decodes, ParsedMembers, Json.ValidMembers, PlainDoc;
    var fields := ParsedMembers(v.members).value;
    forall m | m in v.members ensures Numbers.NumbersMeet(Numbers.Decodes, m.value) {
      var i :| 0 <= i < |v.members| && v.members[i] == m;
      ParsedMembersAt(v.members, i);
      ValidAt(v.members, i);
      assert fields[i] in fields;
      PlainValueDecodes(m.value);
    }
  }

  lemma QualityIsPlain(d: Doc)
    requires EventParser.Quality(Some(d)) && NoRepeats(d)
    ensures forall f :: f in d.fields ==> PlainDoc(f.value)
  {
    hide Find;
    assert |"reading"| != |"clock"|;
    EventParser.OnlyExpectedKeys(d, ["reading", "clock"]);
    forall f | f in d.fields ensures PlainDoc(f.value) {
      var i :| 0 <= i < |d.fields| && d.fields[i] == f;
      FindAt(d.fields, f.key, i);
      assert d.Get(f.key) == Some(f.value);
    }
  }

  /** What the field checks say of each field. */
  lemma CheckedKinds(d: Doc, device: string)
    requires EventParser.CheckFields(d, device).Ok?
    ensures EventParser.ExactKeys(d, EventParser.FIELDS) && EventParser.Quality(d.Get("quality"))
    ensures PlainDoc(d.Get("device_id").value) && PlainDoc(d.Get("boot_id").value)
    ensures PlainDoc(d.Get("sequence_number").value) && PlainDoc(d.Get("device_uptime_ms").value)
    ensures PlainDoc(d.Get("measured_at").value)
    ensures PlainDoc(d.Get("metric").value) && PlainDoc(d.Get("unit").value)
    ensures d.Get("value").Some? && (d.Get("value").value.Integer? || d.Get("value").value.Real?)
  {
    hide Doc.Get, Json.Bytes, EventParser.Timestamp, EventParser.Quality, EventParser.ExactKeys;
    FieldsAreThere(d);
  }

  lemma FieldsAreThere(d: Doc)
    ensures EventParser.ExactKeys(d, EventParser.FIELDS) ==>
      forall i :: 0 <= i < 10 ==> d.Get(EventParser.FIELDS[i]).Some?
  {
    hide Doc.Get;
  }

  lemma FieldDecodes(ms: seq<Json.Member>, i: nat, device: string)
    requires Json.ValidMembers(ms) && ParsedMembers(ms).Some? && i < |ms|
    requires NoRepeats(Obj(ParsedMembers(ms).value))
    requires EventParser.CheckFields(Obj(ParsedMembers(ms).value), device).Ok?
    requires ParsedMembers(ms).value[i].key !in ["schema_version", "value"]
    ensures Numbers.NumbersMeet(Numbers.Decodes, ms[i].value)
  {
    hide Json.Decode, Parsed, Numbers.Decodes, ParsedMembers, Json.ValidMembers, PlainDoc, Find,
         EventParser.CheckFields, Json.Valid, Numbers.NumbersMeet, EventParser.Quality;
    var fields := ParsedMembers(ms).value;
    var field := fields[i];
    assert field in fields;
    CheckedKinds(Obj(fields), device);
    EventParser.NamesDiffer();
    EventParser.OnlyExpectedKeys(Obj(fields), EventParser.FIELDS);
    FindAt(fields, field.key, i);
    ParsedMembersAt(ms, i);
    ValidAt(ms, i);
    if field.key == "quality" {
      QualityDecodes(ms[i].value);
    } else {
      PlainValueDecodes(ms[i].value);
    }
  }

  lemma QualityDecodes(v: Json.Value)
    requires Json.Valid(v) && Parsed(v).Some? && EventParser.Quality(Parsed(v)) && NoRepeats(Parsed(v).value)
    ensures Numbers.NumbersMeet(Numbers.Decodes, v)
  {
    hide Json.Decode, Numbers.Decodes, ParsedMembers, Json.ValidMembers, PlainDoc, DigitsValue;
    QualityIsPlain(Parsed(v).value);
    assert Parsed(v).value.Obj?;
    assert v.Object?;
    PlainObjectDecodes(v);
  }

  lemma KeptDecodes(p: EventParser.Payload, device: string, receivedAt: string)
    requires !p.NotJson? && Json.Valid(p.value) && p.value.Object? && ParsedMembers(p.value.members).Some?
    requires NoRepeats(Obj(ParsedMembers(p.value.members).value))
    requires EventParser.CheckFields(Obj(ParsedMembers(p.value.members).value), device).Ok?
    requires ValueDecodes(p.value.members)
    ensures Numbers.NumbersMeet(Numbers.Decodes, Json.Object("", SentFor(p, receivedAt)))
  {
    hide Json.Decode, Parsed, Numbers.Decodes, ParsedMembers, Json.ValidMembers, EventParser.CheckFields, NoRepeats,
         Splicer.Kept, Splicer.Lookup;
    var ms := p.value.members;
    KeptIsFrom(ms);
    assert Json.ValidMembers(ms) by { ObjectMembersValid(p.value); }
    forall m | m in SentFor(p, receivedAt) ensures Numbers.NumbersMeet(Numbers.Decodes, m.value) {
      if m in Splicer.Kept(ms) {
        var i :| 0 <= i < |ms| && m == ms[i].(before := "") && Json.Decode(m.key) != Some(Splicer.SCHEMA_KEY);
        ParsedMembersAt(ms, i);
        if ParsedMembers(ms).value[i].key == "value" {
          assert DistinctKeys(ParsedMembers(ms).value) by { TopKeysDiffer(ParsedMembers(ms).value); }
          LookupAt(ms, i, "value");
        } else {
          FieldDecodes(ms, i, device);
        }
      } else {
        assert m == Splicer.Receipt(receivedAt);
      }
    }
  }

  lemma ObjectMembersValid(v: Json.Value)
    requires Json.Valid(v) && v.Object?
    ensures Json.ValidMembers(v.members)
  {
  }

  lemma TopKeysDiffer(fields: seq<Field>)
    requires NoRepeats(Obj(fields))
    ensures DistinctKeys(fields)
  {
  }

  /**
   The exact condition, visible in the payload: an accepted event reads alone if and only if it has no byte
   order mark and its value is spelled as a number Python represents exactly.
   */
  lemma ReadsExactly(e: Event, topic: string, p: EventParser.Payload)
    requires Batch.AcceptedAs(e, topic, p)
    ensures !p.NotJson? && p.value.Object?
    ensures EventReads(e) <==> !p.Marked? && ValueDecodes(p.value.members)
  {
    hide Json.Decode, Parsed, Numbers.Decodes, ParsedMembers, Json.ValidMembers, EventParser.CheckFields, NoRepeats,
         Splicer.Kept, Splicer.Lookup, EventParser.Parse, EventParser.PayloadText, Splicer.Splice, Json.Text,
         Json.Valid, Within;
    EventParser.AcceptedEventConverts(topic, p, e.receivedAt);
    EventParser.AcceptedPayload(topic, p, e.receivedAt);
    if !p.Marked? {
      SentForEvent(e, topic, p);
      var sent := SentFor(p, e.receivedAt);
      if ValueDecodes(p.value.members) {
        KeptDecodes(p, e.id.device, e.receivedAt);
      }
      if EventReads(e) {
        var ms :| Sends(e, ms) && Numbers.NumbersMeet(Numbers.Decodes, Json.Object("", ms));
        SentIsUnique(e, ms, sent);
        ValueIsSent(p, e.id.device, e.receivedAt);
      }
    }
  }

  lemma ValueIsSent(p: EventParser.Payload, device: string, receivedAt: string)
    requires !p.NotJson? && p.value.Object? && ParsedMembers(p.value.members).Some?
    requires EventParser.CheckFields(Obj(ParsedMembers(p.value.members).value), device).Ok?
    requires Numbers.NumbersMeet(Numbers.Decodes, Json.Object("", SentFor(p, receivedAt)))
    ensures ValueDecodes(p.value.members)
  {
    hide Json.Decode, Numbers.Decodes, ParsedMembers, EventParser.CheckFields, Splicer.Kept, Splicer.Lookup,
         PlainDoc, EventParser.Quality, EventParser.ExactKeys, DigitsValue;
    var ms := p.value.members;
    CheckedKinds(Obj(ParsedMembers(ms).value), device);
    EventParser.FindIsLookup(ms, "value");
    Splicer.SpliceKeepsLookups(ms, receivedAt, "value");
    LookupIsIn(SentFor(p, receivedAt), "value");
  }
}
