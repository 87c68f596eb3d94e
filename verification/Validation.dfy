/**
 How the backend rejects an event it cannot validate (backend/app/telemetry/validation.py): the rejection
 repeats whatever parts of the identity are valid by themselves.
 */
module Validation {
  import opened Options
  import opened Events
  import opened Document
  import opened Outcomes
  import Batch
  import EventParser
  import Json
  import JsonUnique
  import Splicer
  import Verdicts

  const MAX_IDENTIFIER_LENGTH := 128

  /** `Identifier`: a string of 1 to 128 characters without NUL. */
  function IdentifierOf(d: Option<Doc>): Option<string> {
    if d.Some? && d.value.Str? && 0 < |d.value.s| <= MAX_IDENTIFIER_LENGTH && '\0' !in d.value.s then Some(d.value.s)
    else None
  }

  /** `Counter`: an integer of 63 bits. */
  function CounterOf(d: Option<Doc>): Option<nat> {
    if d.Some? && d.value.Integer? && 0 <= d.value.n <= MAX_COUNTER then Some(d.value.n) else None
  }

  /** The rejection of an item that is no valid event. */
  function Refusal(item: Doc, reason: Reason): ResultItem {
    ResultItem(IdentifierOf(item.Get("device_id")), IdentifierOf(item.Get("boot_id")),
               CounterOf(item.Get("sequence_number")), Rejected(reason))
  }

  /** The object the gateway sends for an event has these members. */
  predicate Sends(e: Event, ms: seq<Json.Member>) {
    && Splicer.Splice(e.payload, e.receivedAt) == Ok(Json.Text(Json.Object("", ms)))
    && Json.Valid(Json.Object("", ms)) && ParsedMembers(ms).Some?
  }

  lemma {:induction false} KeptParse(ms: seq<Json.Member>)
    requires ParsedMembers(ms).Some?
    ensures ParsedMembers(Splicer.Kept(ms)).Some?
    ensures
      var fields, kept := ParsedMembers(ms).value, ParsedMembers(Splicer.Kept(ms)).value;
      && (forall f :: f in kept ==> f in fields)
      && (DistinctKeys(fields) ==> DistinctKeys(kept))
  {
    hide Json.Decode, Parsed;
    if ms != [] {
      KeptParse(ms[1..]);
      var kept, rest := Splicer.Kept(ms), Splicer.Kept(ms[1..]);
      var fields := ParsedMembers(ms).value;
      assert fields[1..] == ParsedMembers(ms[1..]).value;
      if kept != rest {
        assert kept[1..] == rest;
        var first := ParsedMembers(kept).value[0];
        assert ParsedMembers(kept).value == [first] + ParsedMembers(rest).value;
        assert first == fields[0];
        DistinctCons(fields, ParsedMembers(rest).value);
      }
    }
  }

  lemma DistinctCons(fields: seq<Field>, rest: seq<Field>)
    requires fields != [] && forall f :: f in rest ==> f in fields[1..]
    requires DistinctKeys(fields[1..]) ==> DistinctKeys(rest)
    ensures DistinctKeys(fields) ==> DistinctKeys([fields[0]] + rest)
  {
    if DistinctKeys(fields) {
      forall f | f in rest ensures f.key != fields[0].key {
        var i :| 0 <= i < |fields| - 1 && fields[1..][i] == f;
        assert fields[i + 1] == f;
      }
    }
  }

  lemma {:induction false} AppendedParses(ms: seq<Json.Member>, last: Json.Member)
    requires ParsedMembers(ms).Some? && ParsedMembers([last]).Some?
    ensures ParsedMembers(ms + [last]).Some?
    ensures ParsedMembers(ms + [last]).value == ParsedMembers(ms).value + ParsedMembers([last]).value
  {
    hide Json.Decode, Parsed;
    if ms == [] {
      assert ms + [last] == [last];
    } else {
      assert (ms + [last])[1..] == ms[1..] + [last];
      AppendedParses(ms[1..], last);
    }
  }

  lemma OneMemberParses(m: Json.Member, key: string, d: Doc)
    requires Json.Decode(m.key) == Some(key) && Parsed(m.value) == Some(d)
    ensures ParsedMembers([m]) == Some([Field(key, d)])
  {
    hide Json.Decode, Parsed;
    assert [m][1..] == [];
    assert ParsedMembers([]) == Some([]);
    assert [Field(key, d)] + [] == [Field(key, d)];
  }

  lemma ReceiptParses(receivedAt: string)
    ensures
      ParsedMembers([Splicer.Receipt(receivedAt)]) == Some([Field(Splicer.RECEIPT_KEY, Str(receivedAt))])
  {
    hide Json.Decode, Splicer.Dump, ParsedMembers;
    Splicer.ReceiptKeyDecodes();
    Splicer.DumpRoundTrips(receivedAt);
    OneMemberParses(Splicer.Receipt(receivedAt), Splicer.RECEIPT_KEY, Str(receivedAt));
  }

  /** The members sent for an event with this payload. */
  function SentFor(p: EventParser.Payload, receivedAt: string): seq<Json.Member>
    requires !p.NotJson? && p.value.Object?
  {
    Splicer.Kept(p.value.members) + [Splicer.Receipt(receivedAt)]
  }

  lemma SentForParses(p: EventParser.Payload, receivedAt: string)
    requires !p.NotJson? && p.value.Object? && ParsedMembers(p.value.members).Some?
    ensures
      var fields := ParsedMembers(Splicer.Kept(p.value.members));
      && fields.Some?
      && ParsedMembers(SentFor(p, receivedAt)) == Some(fields.value + [Field(Splicer.RECEIPT_KEY, Str(receivedAt))])
  {
    hide ParsedMembers;
    KeptParse(p.value.members);
    ReceiptParses(receivedAt);
    AppendedParses(Splicer.Kept(p.value.members), Splicer.Receipt(receivedAt));
  }

  lemma SentForEvent(e: Event, topic: string, p: EventParser.Payload)
    requires Batch.AcceptedAs(e, topic, p) && !p.Marked?
    ensures !p.NotJson? && p.value.Object? && Sends(e, SentFor(p, e.receivedAt))
    ensures Batch.Carries(SentFor(p, e.receivedAt), e)
  {
    hide Json.Decode, Json.Bytes, EventParser.Parse, Splicer.Splice, Splicer.Kept, Splicer.Receipt,
         Json.Text, Splicer.Dump, Json.Valid, Splicer.Lookup, EventParser.PayloadText, EventParser.ValidPayload;
    EventParser.AcceptedEventConverts(topic, p, e.receivedAt);
    EventParser.AcceptedPayload(topic, p, e.receivedAt);
    SentForParses(p, e.receivedAt);
    Splicer.DumpRoundTrips(e.receivedAt);
  }

  /** What the gateway sends for an event it can convert. */
  lemma SentMembers(e: Event) returns (ms: seq<Json.Member>)
    requires Batch.Convertible(e)
    ensures Sends(e, ms) && Batch.Carries(ms, e)
  {
    hide EventParser.Parse, EventParser.ValidPayload, EventParser.PayloadText, Sends, Batch.Carries;
    var topic, p :| Batch.AcceptedAs(e, topic, p);
    EventParser.AcceptedEventConverts(topic, p, e.receivedAt);
    SentForEvent(e, topic, p);
    ms := SentFor(p, e.receivedAt);
  }

  /** The parts of an accepted event's identity are valid by themselves. */
  lemma IdentityIsValid(e: Event)
    requires Batch.Accepted(e)
    ensures 0 < |e.id.device| && Json.Bytes(e.id.device) <= 128 && '\0' !in e.id.device
    ensures 0 < |e.id.boot| && Json.Bytes(e.id.boot) <= 128 && '\0' !in e.id.boot
    ensures e.id.sequence <= MAX_COUNTER
  {
    hide Json.Decode, EventParser.Parse, EventParser.ValidPayload, EventParser.CheckFields, Json.Bytes, Within,
         NoRepeats, EventParser.PayloadText, EventParser.TopicDevice;
    var topic, p :| Batch.AcceptedAs(e, topic, p);
    EventParser.AcceptedPayload(topic, p, e.receivedAt);
    CheckedIdentity(Obj(ParsedMembers(p.value.members).value), e.id.device);
  }

  lemma CheckedIdentity(d: Doc, device: string)
    requires EventParser.CheckFields(d, device).Ok?
    ensures
      var id := EventParser.CheckFields(d, device).value;
      && 0 < |id.device| && Json.Bytes(id.device) <= 128 && '\0' !in id.device
      && 0 < |id.boot| && Json.Bytes(id.boot) <= 128 && '\0' !in id.boot
      && id.sequence <= MAX_COUNTER
  {
    hide Doc.Get, Json.Bytes, EventParser.Timestamp, EventParser.ExactKeys, EventParser.Quality;
  }

  /** However the backend rejects an accepted event, it names the event, so the gateway understands. */
  lemma RefusalNamesItsEvent(e: Event, ms: seq<Json.Member>, reason: Reason)
    requires Batch.Convertible(e) && Sends(e, ms)
    ensures Verdicts.Names(Refusal(Obj(ParsedMembers(ms).value), reason), e.id)
  {
    hide Json.Decode, Json.Bytes, Splicer.Splice, Json.Text, Json.Valid, Splicer.Lookup, Parsed, Find;
    var ns := SentMembers(e);
    JsonUnique.TextIsInjective(Json.Object("", ms), Json.Object("", ns));
    EventParser.FindIsLookup(ms, "device_id");
    EventParser.FindIsLookup(ms, "boot_id");
    EventParser.FindIsLookup(ms, "sequence_number");
    IdentityIsValid(e);
  }

  /** A rejection repeats each identity part that is valid by itself, and leaves out each that is not. */
  lemma RefusalRepeatsWhatIsValid(item: Doc, reason: Reason)
    ensures
      var r := Refusal(item, reason);
      && r.outcome == Rejected(reason)
      && (forall s :: r.device == Some(s) <==> item.Get("device_id") == Some(Str(s)) && 1 <= |s| <= 128 && '\0' !in s)
      && (forall s :: r.boot == Some(s) <==> item.Get("boot_id") == Some(Str(s)) && 1 <= |s| <= 128 && '\0' !in s)
      && (forall n: nat :: r.sequence == Some(n) <==>
            item.Get("sequence_number") == Some(Integer(n)) && n <= 0x7fff_ffff_ffff_ffff)
  {
    hide Doc.Get;
  }
}
