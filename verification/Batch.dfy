/**
 The request body of one delivery (gateway/src/forwarder.cpp, `batch_json`): well formed, faithful to
 every event in it, and under the HTTP client's limit for every full claim.
 */
module Batch {
  import opened Options
  import opened Events
  import Document
  import EventParser
  import Json
  import Splicer

  const MAX_BATCH_SIZE := 500
  const MAX_REQUEST_BYTES := 9 * 1024 * 1024

  const PREFIX := "{\"schema_version\":1,\"events\":["
  const SUFFIX := "]}"

  /** The spliced events separated by commas, or the first conversion that fails. */
  function Converted(events: seq<Event>): Result<seq<string>, Splicer.Fault> {
    if events == [] then Ok([])
    else
      match (Splicer.Splice(events[0].payload, events[0].receivedAt), Converted(events[1..]))
      case (Err(f), _) => Err(f)
      case (_, Err(f)) => Err(f)
      case (Ok(text), Ok(rest)) => Ok([text] + rest)
  }

  function Joined(texts: seq<string>): string {
    if texts == [] then ""
    else if |texts| == 1 then texts[0]
    else texts[0] + "," + Joined(texts[1..])
  }

  function Body(events: seq<Event>): Result<string, Splicer.Fault> {
    match Converted(events)
    case Err(f) => Err(f)
    case Ok(texts) => Ok(PREFIX + Joined(texts) + SUFFIX)
  }

  method BatchJson(claimed: seq<Event>) returns (r: Result<string, Splicer.Fault>)
    ensures r == Body(claimed)
  {
    hide Splicer.Splice, Joined;
    var body := PREFIX;
    ghost var texts: seq<string> := [];
    JoinedNil();
    assert claimed[0..] == claimed;
    assert PREFIX + "" == PREFIX;
    assert Converted(claimed).Ok? ==> [] + Converted(claimed).value == Converted(claimed).value;
    for i := 0 to |claimed|
      invariant |texts| == i
      invariant body == PREFIX + Joined(texts)
      invariant Converted(claimed) ==
        match Converted(claimed[i..])
        case Err(f) => Err(f)
        case Ok(rest) => Ok(texts + rest)
    {
      assert claimed[i..][1..] == claimed[i + 1..];
      if i != 0 {
        body := body + ",";
      }
      var text := Splicer.BackendEventJson(claimed[i].payload, claimed[i].receivedAt);
      if text.Err? {
        return Err(text.error);
      }
      JoinedSnoc(texts, text.value);
      if i != 0 {
        assert PREFIX + Joined(texts) + "," + text.value == PREFIX + (Joined(texts) + "," + text.value);
      }
      body := body + text.value;
      if Converted(claimed[i + 1..]).Ok? {
        assert texts + ([text.value] + Converted(claimed[i + 1..]).value)
            == texts + [text.value] + Converted(claimed[i + 1..]).value;
      }
      texts := texts + [text.value];
    }
    assert claimed[|claimed|..] == [];
    assert texts + [] == texts;
    return Ok(body + SUFFIX);
  }

  lemma JoinedNil()
    ensures Joined([]) == ""
  {
  }

  lemma {:induction false} JoinedSnoc(texts: seq<string>, text: string)
    ensures Joined(texts + [text]) == if texts == [] then text else Joined(texts) + "," + text
  {
    if texts == [] {
      assert texts + [text] == [text];
    } else {
      assert (texts + [text])[1..] == texts[1..] + [text];
      JoinedSnoc(texts[1..], text);
      if |texts| == 1 {
        assert texts[1..] + [text] == [text];
      } else {
        var a, b := texts[0] + ",", Joined(texts[1..]);
        assert a + (b + "," + text) == a + b + "," + text;
      }
    }
  }

  // What a batch of accepted events comes to

  ghost predicate AcceptedAs(e: Event, topic: string, p: EventParser.Payload) {
    EventParser.ValidPayload(p) && EventParser.Parse(topic, p, e.receivedAt) == Ok(e)
  }

  /** Intake once accepted this event. */
  ghost predicate Accepted(e: Event) {
    exists topic, p :: AcceptedAs(e, topic, p)
  }

  /** Accepted, and without the byte order mark that the parser skips and the splicer does not. */
  ghost predicate Convertible(e: Event) {
    Accepted(e) && !EventParser.StartsWithMark(e.payload)
  }

  predicate Reads(ms: seq<Json.Member>, key: string, d: Document.Doc) {
    Splicer.Lookup(ms, key).Some? && Document.Parsed(Splicer.Lookup(ms, key).value) == Some(d)
  }

  /** An object whose members name the event and its receipt time, and no schema version. */
  predicate Carries(ms: seq<Json.Member>, e: Event) {
    && Json.Valid(Json.Object("", ms))
    && Reads(ms, "device_id", Document.Str(e.id.device))
    && Reads(ms, "boot_id", Document.Str(e.id.boot))
    && Reads(ms, "sequence_number", Document.Integer(e.id.sequence))
    && Reads(ms, "gateway_received_at", Document.Str(e.receivedAt))
    && Splicer.Lookup(ms, "schema_version") == None
  }

  /** One event the splicer refuses spoils the request. */
  lemma {:induction false} SomeMarkIsAnError(events: seq<Event>, i: nat)
    requires i < |events| && EventParser.StartsWithMark(events[i].payload)
    ensures Body(events).Err?
  {
    hide Splicer.Splice, Joined;
    EventParser.MarkIsNoObject(events[i].payload, events[i].receivedAt);
    if i > 0 {
      SomeMarkIsAnError(events[1..], i - 1);
    }
  }

  lemma AcceptedEventCarries(e: Event) returns (ms: seq<Json.Member>)
    requires Convertible(e)
    ensures Splicer.Splice(e.payload, e.receivedAt) == Ok(Json.Text(Json.Object("", ms)))
    ensures Carries(ms, e)
    ensures Json.Bytes(Json.Text(Json.Object("", ms))) <= EventParser.MAX_PAYLOAD_BYTES + 25 + 6 * |e.receivedAt|
  {
    hide Json.Decode, Json.Bytes, EventParser.Parse, Splicer.Splice, Splicer.Kept, Splicer.Receipt,
         Json.Text, Splicer.Dump, Json.Valid, Splicer.Lookup, EventParser.PayloadText;
    var topic, p :| AcceptedAs(e, topic, p);
    EventParser.AcceptedEventConverts(topic, p, e.receivedAt);
    EventParser.AcceptedPayload(topic, p, e.receivedAt);
    var from := p.value.members;
    ms := Splicer.Kept(from) + [Splicer.Receipt(e.receivedAt)];
    Splicer.DumpRoundTrips(e.receivedAt);
    EventParser.SomethingIsKept(from, e.receivedAt, Document.Str(e.id.device));
    ConvertedBytes(p, e.receivedAt);
  }

  lemma ReceiptBytes(receivedAt: string)
    ensures Json.Bytes(Splicer.ReceiptText(receivedAt)) <= 24 + 6 * |receivedAt|
  {
    hide Json.Bytes, Splicer.Dump;
    var quoted := "\"" + Splicer.Dump(receivedAt) + "\"";
    var key := "\"" + Splicer.RECEIPT_KEY + "\"" + ":";
    Json.BytesConcat(key, quoted);
    Json.BytesConcat("\"" + Splicer.Dump(receivedAt), "\"");
    Json.BytesConcat("\"", Splicer.Dump(receivedAt));
    EventParser.DumpBytes(receivedAt);
    EventParser.AsciiBytes("\"");
    KeyBytes();
  }

  lemma KeyBytes()
    ensures Json.Bytes("\"" + Splicer.RECEIPT_KEY + "\"" + ":") == 22
  {
    hide Json.Bytes;
    EventParser.AsciiBytes("\"" + Splicer.RECEIPT_KEY + "\"" + ":");
  }

  lemma ObjectBytes(blank: string, ms: seq<Json.Member>)
    requires ms != []
    ensures Json.Bytes(Json.Text(Json.Object(blank, ms))) == 2 + Json.Bytes(Json.MembersText(ms))
  {
    hide Json.Bytes, Json.MembersText;
    Json.BytesConcat("{" + Json.MembersText(ms), "}");
    Json.BytesConcat("{", Json.MembersText(ms));
    EventParser.AsciiBytes("{");
    EventParser.AsciiBytes("}");
  }

  lemma ConvertedBytes(p: EventParser.Payload, receivedAt: string)
    requires p.Spelled? && p.value.Object? && Splicer.Kept(p.value.members) != []
    ensures
      var out := Splicer.Kept(p.value.members) + [Splicer.Receipt(receivedAt)];
      Json.Bytes(Json.Text(Json.Object("", out)))
        <= Json.Bytes(EventParser.PayloadText(p)) + 25 + 6 * |receivedAt|
  {
    hide Json.Bytes, Json.Text, Splicer.Receipt, Splicer.ReceiptText, Json.MembersText, Splicer.Kept;
    var ms, kept := p.value.members, Splicer.Kept(p.value.members);
    var out := kept + [Splicer.Receipt(receivedAt)];
    assert ms != [];
    Json.BytesConcat(p.before + Json.Text(p.value), p.after);
    Json.BytesConcat(p.before, Json.Text(p.value));
    ObjectBytes(p.value.blank, ms);
    EventParser.KeptIsNoLonger(ms);
    ObjectBytes("", out);
    Splicer.MembersTextConcat(kept, [Splicer.Receipt(receivedAt)]);
    Splicer.ReceiptSpan(receivedAt);
    Json.BytesConcat(Json.MembersText(kept) + ",", Splicer.ReceiptText(receivedAt));
    Json.BytesConcat(Json.MembersText(kept), ",");
    EventParser.AsciiBytes(",");
    ReceiptBytes(receivedAt);
  }

  /** The elements of the `events` array. */
  function Objects(objects: seq<seq<Json.Member>>): (es: seq<Json.Element>)
    ensures |es| == |objects|
  {
    seq(|objects|, i requires 0 <= i < |objects| => Json.Element("", Json.Object("", objects[i]), ""))
  }

  function BatchValue(objects: seq<seq<Json.Member>>): Json.Value {
    Json.Object("", [
      Json.Member("", "schema_version", "", "", Json.Number("1"), ""),
      Json.Member("", "events", "", "", Json.Array("", Objects(objects)), "")])
  }

  function Texts(objects: seq<seq<Json.Member>>): seq<string> {
    seq(|objects|, i requires 0 <= i < |objects| => Json.Text(Json.Object("", objects[i])))
  }

  lemma {:induction false} ObjectsText(objects: seq<seq<Json.Member>>)
    requires objects != []
    requires forall ms :: ms in objects ==> Json.Valid(Json.Object("", ms))
    ensures Json.ElementsText(Objects(objects)) == Joined(Texts(objects))
    ensures Json.ValidElements(Objects(objects))
  {
    hide Json.Text, Json.Valid;
    var es, texts := Objects(objects), Texts(objects);
    assert Objects(objects[1..]) == es[1..];
    assert Texts(objects[1..]) == texts[1..];
    assert "" + texts[0] + "" == texts[0];
    assert Json.Valid(Json.Object("", objects[0]));
    if |objects| > 1 {
      ObjectsText(objects[1..]);
    } else {
      assert es[1..] == [];
    }
  }

  lemma VersionMember()
    ensures Json.Span(Json.Member("", "schema_version", "", "", Json.Number("1"), "")) == "\"schema_version\":1"
  {
    assert Json.Text(Json.Number("1")) == "1";
  }

  lemma EventsMember(es: seq<Json.Element>)
    requires es != []
    ensures Json.Span(Json.Member("", "events", "", "", Json.Array("", es), ""))
      == "\"events\":[" + Json.ElementsText(es) + "]"
  {
    hide Json.ElementsText;
    var inner := "[" + Json.ElementsText(es) + "]";
    assert Json.Text(Json.Array("", es)) == inner;
    assert "\"" + "events" + "\"" + "" + ":" + "" + inner + "" == "\"events\":" + inner;
    assert "\"events\":" + inner == "\"events\":[" + Json.ElementsText(es) + "]";
  }

  lemma BatchText(objects: seq<seq<Json.Member>>)
    requires objects != []
    ensures Json.Text(BatchValue(objects)) == PREFIX + Json.ElementsText(Objects(objects)) + SUFFIX
  {
    hide Json.ElementsText, Objects, Json.Span;
    var es, events := Objects(objects), Json.ElementsText(Objects(objects));
    var first := Json.Member("", "schema_version", "", "", Json.Number("1"), "");
    var second := Json.Member("", "events", "", "", Json.Array("", es), "");
    var a, b := Json.Span(first), Json.Span(second);
    VersionMember();
    EventsMember(es);
    TwoMembersText(first, second);
    assert Json.Text(BatchValue(objects)) == "{" + (a + "," + b) + "}";
    var left, right := "{" + "\"schema_version\":1" + "," + "\"events\":[", events + "]" + "}";
    assert "{" + (a + "," + b) + "}" == left + right;
    assert left == PREFIX;
    assert right == events + SUFFIX;
  }

  lemma TwoMembersText(first: Json.Member, second: Json.Member)
    requires first.before == "" && second.before == ""
    ensures Json.Text(Json.Object("", [first, second])) == "{" + (Json.Span(first) + "," + Json.Span(second)) + "}"
  {
    hide Json.Span;
    var both := [first, second];
    assert both[1..] == [second];
    assert "" + Json.Span(first) == Json.Span(first) && "" + Json.Span(second) == Json.Span(second);
    assert Json.MembersText([second]) == Json.Span(second);
    assert Json.MembersText(both) == Json.Span(first) + "," + Json.MembersText(both[1..]);
    assert Json.Span(first) + "," + Json.Span(second) == Json.Span(first) + ("," + Json.Span(second));
  }

  lemma VersionIsValid()
    ensures Json.ValidMember(Json.Member("", "schema_version", "", "", Json.Number("1"), ""))
  {
    hide Json.ValidChars, Json.ValidNumber, Json.Decode;
    Splicer.PlainKeyDecodes("schema_version");
    OneIsNumber();
  }

  lemma OneIsNumber()
    ensures Json.ValidNumber("1")
  {
    hide Json.ValidExponent;
    var t := "1";
    assert t[1..] == "";
    assert Json.DigitRun(t) == 1;
    NothingIsExponent();
  }

  lemma NothingIsExponent()
    ensures Json.ValidExponent("")
  {
  }

  lemma BatchIsValid(objects: seq<seq<Json.Member>>)
    requires Json.ValidElements(Objects(objects))
    ensures Json.Valid(BatchValue(objects))
  {
    hide Objects, Json.ValidElements, Json.ValidChars;
    var first := Json.Member("", "schema_version", "", "", Json.Number("1"), "");
    var second := Json.Member("", "events", "", "", Json.Array("", Objects(objects)), "");
    VersionIsValid();
    Splicer.PlainKeyDecodes("events");
    assert Json.Valid(second.value);
    assert Json.ValidMember(second);
    assert [second][1..] == [] && Json.ValidMembers([second]);
    assert [first, second][1..] == [second];
    assert Json.ValidMembers([first, second]);
  }

  lemma {:induction false} JoinedBytes(texts: seq<string>, bound: nat)
    requires forall t :: t in texts ==> Json.Bytes(t) <= bound
    ensures Json.Bytes(Joined(texts)) <= |texts| * (bound + 1)
  {
    hide Json.Bytes;
    if texts == [] {
      EventParser.AsciiBytes("");
    } else if |texts| > 1 {
      JoinedBytes(texts[1..], bound);
      Json.BytesConcat(texts[0] + ",", Joined(texts[1..]));
      Json.BytesConcat(texts[0], ",");
      EventParser.AsciiBytes(",");
      assert (|texts| - 1) * (bound + 1) + (bound + 1) == |texts| * (bound + 1);
    }
  }

  lemma {:induction false} AcceptedEventsCarry(events: seq<Event>, stamp: nat) returns (objects: seq<seq<Json.Member>>)
    requires forall e :: e in events ==> Convertible(e) && |e.receivedAt| <= stamp
    ensures |objects| == |events|
    ensures Converted(events) == Ok(Texts(objects))
    ensures forall i :: 0 <= i < |events| ==> Carries(objects[i], events[i])
    ensures forall t :: t in Texts(objects) ==> Json.Bytes(t) <= EventParser.MAX_PAYLOAD_BYTES + 25 + 6 * stamp
  {
    hide Convertible, Carries, Json.Bytes, Json.Text, Splicer.Splice;
    if events == [] {
      objects := [];
      assert Texts(objects) == [];
    } else {
      var first := AcceptedEventCarries(events[0]);
      var rest := AcceptedEventsCarry(events[1..], stamp);
      objects := [first] + rest;
      assert Texts(objects) == [Json.Text(Json.Object("", first))] + Texts(rest);
      forall i | 0 <= i < |events| ensures Carries(objects[i], events[i]) {
        if i > 0 {
          assert objects[i] == rest[i - 1] && events[i] == events[1..][i - 1];
        }
      }
    }
  }

  /** The request for convertible events is the text of one tree that carries them one by one. */
  lemma ClaimIsText(events: seq<Event>, stamp: nat) returns (objects: seq<seq<Json.Member>>)
    requires events != [] && forall e :: e in events ==> Convertible(e) && |e.receivedAt| <= stamp
    ensures |objects| == |events|
    ensures forall i :: 0 <= i < |events| ==> Carries(objects[i], events[i])
    ensures Json.Valid(BatchValue(objects)) && Converted(events) == Ok(Texts(objects))
    ensures Body(events) == Ok(Json.Text(BatchValue(objects)))
    ensures Body(events) == Ok(PREFIX + Joined(Texts(objects)) + SUFFIX)
    ensures forall t :: t in Texts(objects) ==> Json.Bytes(t) <= EventParser.MAX_PAYLOAD_BYTES + 25 + 6 * stamp
  {
    hide Convertible, Json.Bytes, Json.Text, Json.Valid, Joined, Json.ElementsText, Carries, BatchValue;
    objects := AcceptedEventsCarry(events, stamp);
    forall ms | ms in objects ensures Json.Valid(Json.Object("", ms)) {
      var i :| 0 <= i < |objects| && objects[i] == ms;
      CarriesIsValid(objects[i], events[i]);
    }
    ObjectsText(objects);
    BatchText(objects);
    BatchIsValid(objects);
  }

  /**
   Any claim of convertible events gives a well-formed request whose array carries the
   claimed events one by one, and which the HTTP client's size limit lets through.  Receipt times have
   24 characters in the program; anything up to 400 would do.
   */
  lemma FullClaimIsSendable(events: seq<Event>) returns (objects: seq<seq<Json.Member>>)
    requires 0 < |events| <= MAX_BATCH_SIZE
    requires forall e :: e in events ==> Convertible(e) && |e.receivedAt| <= 400
    ensures |objects| == |events|
    ensures forall i :: 0 <= i < |events| ==> Carries(objects[i], events[i])
    ensures Json.Valid(BatchValue(objects))
    ensures Body(events) == Ok(Json.Text(BatchValue(objects)))
    ensures 0 < Json.Bytes(Body(events).value) <= MAX_REQUEST_BYTES
  {
    hide Convertible, Json.Bytes, Json.Text, Json.Valid, Joined, Carries, BatchValue, Converted;
    objects := ClaimIsText(events, 400);
    BodyBytes(Texts(objects));
  }

  lemma CarriesIsValid(ms: seq<Json.Member>, e: Event)
    requires Carries(ms, e)
    ensures Json.Valid(Json.Object("", ms))
  {
  }

  lemma BodyBytes(texts: seq<string>)
    requires |texts| <= MAX_BATCH_SIZE
    requires forall t :: t in texts ==> Json.Bytes(t) <= EventParser.MAX_PAYLOAD_BYTES + 25 + 6 * 400
    ensures 0 < Json.Bytes(PREFIX + Joined(texts) + SUFFIX) <= MAX_REQUEST_BYTES
  {
    hide Json.Bytes, Joined;
    JoinedBytes(texts, 18809);
    Json.BytesConcat(PREFIX + Joined(texts), SUFFIX);
    Json.BytesConcat(PREFIX, Joined(texts));
    EdgeBytes();
    assert |texts| * 18810 <= 500 * 18810;
  }

  lemma EdgeBytes()
    ensures Json.Bytes(PREFIX) == 30 && Json.Bytes(SUFFIX) == 2
  {
    hide Json.Bytes;
    EventParser.AsciiBytes(PREFIX);
    EventParser.AsciiBytes(SUFFIX);
  }
}
