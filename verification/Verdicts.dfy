/**
 The forwarder's reading of a batch response (gateway/src/forwarder.cpp, `parse_decisions`): all or
 nothing, one decision per claimed event, in order.
 */
module Verdicts {
  import opened Options
  import opened Events
  import opened Deliveries
  import opened Document
  import Json
  import KeyStream
  import Outcomes

  datatype Complaint =
    | InvalidBody
    | TooDeep
    | DuplicateKeys
    | InvalidEnvelope
    | InvalidItem
    | IdentityMismatch
    | LacksReason
    | RejectionMismatch
    | UnknownOutcome

  const MAX_DEPTH := 3
  const MAX_RESPONSE_BYTES := 1024 * 1024   // the HTTP client gives up on a longer body

  /** The parsed body, or nothing when it is no JSON text. */
  type Response = Option<Doc>

  function Strict(body: Response): Result<Doc, Complaint> {
    match body
    case None => Err(InvalidBody)
    case Some(doc) =>
      match KeyStream.Run([], Signals(doc, 0), MAX_DEPTH)
      case Ok(_) => Ok(doc)
      case Err(TooDeep) => Err(TooDeep)
      case Err(_) => Err(DuplicateKeys)
  }

  predicate Matches(actual: Doc, expected: Doc, allowNull: bool) {
    actual == expected || (allowNull && actual.Null?)
  }

  predicate IdentityMatches(item: Doc, id: Identity, allowNull: bool) {
    && item.Get("device_id").Some? && item.Get("boot_id").Some? && item.Get("sequence_number").Some?
    && Matches(item.Get("device_id").value, Str(id.device), allowNull)
    && Matches(item.Get("boot_id").value, Str(id.boot), allowNull)
    && Matches(item.Get("sequence_number").value, Integer(id.sequence), allowNull)
  }

  predicate PermanentReason(reason: string) {
    || reason == "unknown_device" || reason == "wrong_gateway" || reason == "invalid_metric"
    || reason == "invalid_unit" || reason == "value_out_of_range"
    || reason == "malformed_value" || reason == "identity_conflict"
  }

  function ReadItem(item: Doc, id: Identity): Result<Decision, Complaint> {
    if !item.Obj? || item.Get("outcome").None? || !item.Get("outcome").value.Str? then Err(InvalidItem)
    else
      var outcome, reason := item.Get("outcome").value.s, item.Get("reason");
      if outcome == "accepted" || outcome == "duplicate" then
        if |item.fields| != (if reason.Some? then 5 else 4) || !IdentityMatches(item, id, false)
           || (reason.Some? && !reason.value.Null?) then Err(IdentityMismatch)
        else Ok(Decision(if outcome == "accepted" then Accepted else Duplicate, ""))
      else if outcome == "rejected" then
        if |item.fields| != 5 || reason.None? || !reason.value.Str? then Err(LacksReason)
        else if !PermanentReason(reason.value.s)
                || !IdentityMatches(item, id, reason.value.s == "malformed_value") then Err(RejectionMismatch)
        else Ok(Decision(Rejected, reason.value.s))
      else Err(UnknownOutcome)
  }

  function ReadItems(items: seq<Doc>, ids: seq<Identity>): (r: Result<seq<Decision>, Complaint>)
    requires |items| == |ids|
    ensures r.Ok? ==> |r.value| == |ids|
  {
    if items == [] then Ok([])
    else
      match ReadItem(items[0], ids[0])
      case Err(c) => Err(c)
      case Ok(d) =>
        match ReadItems(items[1..], ids[1..])
        case Err(c) => Err(c)
        case Ok(rest) => Ok([d] + rest)
  }

  predicate Envelope(doc: Doc, size: nat) {
    && doc.Obj? && |doc.fields| == 2
    && doc.Get("batch_id").Some? && doc.Get("batch_id").value.Str?
    && 0 < Json.Bytes(doc.Get("batch_id").value.s) <= 128
    && doc.Get("results").Some? && doc.Get("results").value.Arr?
    && |doc.Get("results").value.items| == size
  }

  function Decisions(body: Response, ids: seq<Identity>): (r: Result<seq<Decision>, Complaint>)
    ensures r.Ok? ==> |r.value| == |ids|
  {
    match Strict(body)
    case Err(c) => Err(c)
    case Ok(doc) =>
      if !Envelope(doc, |ids|) then Err(InvalidEnvelope)
      else ReadItems(doc.Get("results").value.items, ids)
  }

  method ParseDecisions(body: Response, ids: seq<Identity>) returns (r: Result<seq<Decision>, Complaint>)
    ensures r == Decisions(body, ids)
  {
    if body.None? {
      return Err(InvalidBody);
    }
    var doc := body.value;
    var fault := KeyStream.Check(Signals(doc, 0), MAX_DEPTH);
    if fault.Some? {
      return Err(if fault.value.TooDeep? then TooDeep else DuplicateKeys);
    }
    if !Envelope(doc, |ids|) {
      return Err(InvalidEnvelope);
    }
    var items := doc.Get("results").value.items;
    var decisions: seq<Decision> := [];
    assert items[0..] == items && ids[0..] == ids;
    assert forall rest: seq<Decision> :: [] + rest == rest;
    for i := 0 to |ids|
      invariant |decisions| == i
      invariant ReadItems(items, ids) ==
        match ReadItems(items[i..], ids[i..])
        case Err(c) => Err(c)
        case Ok(rest) => Ok(decisions + rest)
    {
      hide ReadItem, KeyStream.Run;
      var next := ReadItem(items[i], ids[i]);
      assert items[i..][1..] == items[i + 1..] && ids[i..][1..] == ids[i + 1..];
      if next.Err? {
        return Err(next.error);
      }
      assert forall rest :: decisions + ([next.value] + rest) == decisions + [next.value] + rest;
      decisions := decisions + [next.value];
    }
    assert decisions + [] == decisions;
    return Ok(decisions);
  }

  // What a reading that succeeds guarantees

  /** Never a retry; a reason exactly on rejections. */
  predicate Final(d: Decision) {
    d.action != Retry && (d.reason != "" <==> d.action == Rejected)
  }

  lemma {:induction false} ItemsAreFinal(items: seq<Doc>, ids: seq<Identity>)
    requires |items| == |ids| && ReadItems(items, ids).Ok?
    ensures forall d :: d in ReadItems(items, ids).value ==> Final(d)
  {
    if items != [] {
      ItemsAreFinal(items[1..], ids[1..]);
    }
  }

  lemma DecisionsAreFinal(body: Response, ids: seq<Identity>)
    requires Decisions(body, ids).Ok?
    ensures forall d :: d in Decisions(body, ids).value ==> Final(d)
  {
    ItemsAreFinal(Strict(body).value.Get("results").value.items, ids);
  }

  // The backend's answers are always understood

  function DecisionOf(outcome: Outcomes.Outcome): Decision {
    match outcome
    case Accepted => Decision(Accepted, "")
    case Duplicate => Decision(Duplicate, "")
    case Rejected(reason) => Decision(Rejected, Outcomes.ReasonText(reason))
  }

  function DecisionsOf(items: seq<Outcomes.ResultItem>): (ds: seq<Decision>)
    ensures |ds| == |items|
  {
    seq(|items|, i requires 0 <= i < |items| => DecisionOf(items[i].outcome))
  }

  /** The item names the event; parts may be missing only from a malformed-value rejection. */
  predicate Names(item: Outcomes.ResultItem, id: Identity) {
    var lax := item.outcome == Outcomes.Rejected(Outcomes.MalformedValue);
    && (item.device == Some(id.device) || (lax && item.device == None))
    && (item.boot == Some(id.boot) || (lax && item.boot == None))
    && (item.sequence == Some(id.sequence) || (lax && item.sequence == None))
  }

  lemma ReadItemOnResult(item: Outcomes.ResultItem, id: Identity)
    ensures ReadItem(Outcomes.ItemDoc(item), id).Ok? <==> Names(item, id)
    ensures Names(item, id) ==> ReadItem(Outcomes.ItemDoc(item), id) == Ok(DecisionOf(item.outcome))
  {
    ItemLookups(item);
  }

  lemma ItemLookups(item: Outcomes.ResultItem)
    ensures
      var doc := Outcomes.ItemDoc(item);
      && doc.Get("device_id") == Some(Outcomes.TextOrNull(item.device))
      && doc.Get("boot_id") == Some(Outcomes.TextOrNull(item.boot))
      && doc.Get("sequence_number") == Some(Outcomes.CountOrNull(item.sequence))
      && doc.Get("outcome") == Some(Str(if item.outcome.Accepted? then "accepted"
                                        else if item.outcome.Duplicate? then "duplicate" else "rejected"))
      && doc.Get("reason") ==
         if item.outcome.Rejected? then Some(Str(Outcomes.ReasonText(item.outcome.reason))) else None
  {
    var fields := Outcomes.ItemDoc(item).fields;
    FindAt(fields, "device_id", 0);
    FindAt(fields, "boot_id", 1);
    FindAt(fields, "sequence_number", 2);
    FindAt(fields, "outcome", 3);
    if item.outcome.Rejected? {
      FindAt(fields, "reason", 4);
    } else {
      FindNone(fields, "reason");
    }
  }

  lemma {:induction false} ReadItemsOnResults(items: seq<Outcomes.ResultItem>, ids: seq<Identity>)
    requires |items| == |ids|
    ensures
      var r := ReadItems(Outcomes.ItemDocs(items), ids);
      && (r.Ok? <==> forall i :: 0 <= i < |ids| ==> Names(items[i], ids[i]))
      && (r.Ok? ==> r.value == DecisionsOf(items))
  {
    hide ReadItem, Outcomes.ItemDoc, DecisionOf;
    if items != [] {
      ReadItemOnResult(items[0], ids[0]);
      ReadItemsOnResults(items[1..], ids[1..]);
      var docs := Outcomes.ItemDocs(items);
      assert docs[1..] == Outcomes.ItemDocs(items[1..]);
      assert forall i :: 0 <= i < |ids| - 1 ==> items[1..][i] == items[i + 1] && ids[1..][i] == ids[i + 1];
      if Names(items[0], ids[0]) {
        assert DecisionsOf(items) == [DecisionOf(items[0].outcome)] + DecisionsOf(items[1..]);
        assert (forall i :: 0 <= i < |ids| ==> Names(items[i], ids[i])) <==>
               (forall i :: 0 <= i < |ids| - 1 ==> Names(items[1..][i], ids[1..][i])) by {
          if forall i :: 0 <= i < |ids| - 1 ==> Names(items[1..][i], ids[1..][i]) {
            forall i | 0 <= i < |ids| ensures Names(items[i], ids[i]) {
              if i > 0 {
                assert Names(items[1..][i - 1], ids[1..][i - 1]);
              }
            }
          }
        }
      }
    } else {
      assert DecisionsOf(items) == [];
    }
  }

  /** A response body passes the strict reading: shallow, and no object repeats a key. */
  lemma ResponseIsStrict(batchId: string, items: seq<Outcomes.ResultItem>)
    ensures
      var doc := Outcomes.ResponseDoc(batchId, items);
      Within(doc, 0, MAX_DEPTH) && NoRepeats(doc)
  {
    hide Outcomes.ItemDoc;
    var docs := Outcomes.ItemDocs(items);
    forall d | d in docs ensures Within(d, 2, MAX_DEPTH) && NoRepeats(d) {
      var i :| 0 <= i < |docs| && docs[i] == d;
      ItemIsStrict(items[i]);
    }
    ItemsAreWithin(docs, 2);
    var fields := Outcomes.ResponseDoc(batchId, items).fields;
    assert fields[1..][1..] == [] && fields[1..][0] == fields[1];
    assert Within(fields[1].value, 1, MAX_DEPTH);
    assert FieldsWithin(fields[1..], 1, MAX_DEPTH);
    assert FieldsWithin(fields, 1, MAX_DEPTH);
  }

  lemma {:induction false} ItemsAreWithin(docs: seq<Doc>, depth: nat)
    requires forall d :: d in docs ==> Within(d, depth, MAX_DEPTH)
    ensures ItemsWithin(docs, depth, MAX_DEPTH)
  {
    if docs != [] {
      ItemsAreWithin(docs[1..], depth);
    }
  }

  lemma {:induction false} ScalarsAreWithin(fields: seq<Field>, depth: nat)
    requires depth <= MAX_DEPTH
    requires forall f :: f in fields ==> f.value.Null? || f.value.Str? || f.value.Integer?
    ensures FieldsWithin(fields, depth, MAX_DEPTH)
  {
    if fields != [] {
      ScalarsAreWithin(fields[1..], depth);
    }
  }

  lemma ItemIsStrict(item: Outcomes.ResultItem)
    ensures Within(Outcomes.ItemDoc(item), 2, MAX_DEPTH) && NoRepeats(Outcomes.ItemDoc(item))
  {
    hide Outcomes.ReasonText;
    var fields := Outcomes.ItemDoc(item).fields;
    ItemNamesDiffer();
    ScalarsAreWithin(fields, 3);
  }

  lemma ItemNamesDiffer()
    ensures |"device_id"| == 9 && |"boot_id"| == 7 && |"sequence_number"| == 15 && |"reason"| == 6
    ensures "boot_id"[0] != "outcome"[0] && |"outcome"| == 7
  {
  }

  /**
   The gateway understands the backend: the response to a batch is accepted exactly when it has one
   item per claimed event, each naming its event, and then the decisions are the backend's outcomes.
   */
  lemma BackendAnswerIsUnderstood(batchId: string, items: seq<Outcomes.ResultItem>, ids: seq<Identity>)
    requires 0 < Json.Bytes(batchId) <= 128
    ensures
      var r := Decisions(Some(Outcomes.ResponseDoc(batchId, items)), ids);
      && (r.Ok? <==> |items| == |ids| && forall i :: 0 <= i < |ids| ==> Names(items[i], ids[i]))
      && (r.Ok? ==> r.value == DecisionsOf(items))
  {
    hide Names, DecisionOf, Json.Bytes, NoRepeats, Within, ReadItems;
    var doc := Outcomes.ResponseDoc(batchId, items);
    ResponseIsStrict(batchId, items);
    KeyStream.StreamEqualsTree(doc, MAX_DEPTH);
    FindAt(doc.fields, "batch_id", 0);
    FindAt(doc.fields, "results", 1);
    if |items| == |ids| {
      ReadItemsOnResults(items, ids);
    }
  }

  // What an understood answer says, word for word

  /** The item's identity parts are the claim's, or null where that is allowed. */
  predicate Identifies(item: Doc, id: Identity, lax: bool) {
    && (item.Get("device_id") == Some(Str(id.device)) || (lax && item.Get("device_id") == Some(Null)))
    && (item.Get("boot_id") == Some(Str(id.boot)) || (lax && item.Get("boot_id") == Some(Null)))
    && (item.Get("sequence_number") == Some(Integer(id.sequence)) || (lax && item.Get("sequence_number") == Some(Null)))
  }

  /** The item confirms the claim with this word. */
  predicate Confirms(item: Doc, id: Identity, word: string) {
    && item.Obj? && item.Get("outcome") == Some(Str(word)) && Identifies(item, id, false)
    && (item.Get("reason") == None || item.Get("reason") == Some(Null))
    && |item.fields| == if item.Get("reason") == None then 4 else 5
  }

  const PERMANENT := ["unknown_device", "wrong_gateway", "invalid_metric", "invalid_unit", "value_out_of_range",
                      "malformed_value", "identity_conflict"]

  /** The item rejects the claim for good, for this reason. */
  predicate Rejects(item: Doc, id: Identity, reason: string) {
    && item.Obj? && item.Get("outcome") == Some(Str("rejected")) && item.Get("reason") == Some(Str(reason))
    && reason in PERMANENT && |item.fields| == 5
    && Identifies(item, id, reason == "malformed_value")
  }

  /** What the item says of the claim. */
  predicate Says(item: Doc, id: Identity, d: Decision) {
    || (Confirms(item, id, "accepted") && d == Decision(Accepted, ""))
    || (Confirms(item, id, "duplicate") && d == Decision(Duplicate, ""))
    || (Rejects(item, id, d.reason) && d.action == Rejected)
  }

  lemma ItemSays(item: Doc, id: Identity, d: Decision)
    ensures ReadItem(item, id) == Ok(d) <==> Says(item, id, d)
  {
    hide Doc.Get;
    assert "accepted" != "duplicate" && "accepted" != "rejected" && "duplicate" != "rejected" by { WordsDiffer(); }
  }

  lemma WordsDiffer()
    ensures "accepted" != "duplicate" && "accepted" != "rejected" && "duplicate" != "rejected"
  {
    assert "accepted"[0] == 'a' && "duplicate"[0] == 'd' && "rejected"[0] == 'r';
  }

  lemma {:induction false} ItemsSay(items: seq<Doc>, ids: seq<Identity>, ds: seq<Decision>)
    requires |items| == |ids|
    ensures
      ReadItems(items, ids) == Ok(ds) <==>
      |ds| == |ids| && forall i :: 0 <= i < |ids| ==> ReadItem(items[i], ids[i]) == Ok(ds[i])
  {
    hide ReadItem;
    if items != [] {
      if |ds| == |ids| {
        ItemsSay(items[1..], ids[1..], ds[1..]);
        assert ds == [ds[0]] + ds[1..];
        assert forall i :: 1 <= i < |ids| ==>
          items[i] == items[1..][i - 1] && ids[i] == ids[1..][i - 1] && ds[i] == ds[1..][i - 1];
      }
      if ReadItems(items, ids) == Ok(ds) {
        assert ds[1..] == ReadItems(items[1..], ids[1..]).value;
      }
    }
  }

  /** The body is a batch answer with one item per claim that says these decisions, and nothing else. */
  ghost predicate AnswerSays(doc: Doc, ids: seq<Identity>, ds: seq<Decision>) {
    && Within(doc, 0, 3) && NoRepeats(doc) && doc.Obj? && |doc.fields| == 2
    && (exists batchId :: doc.Get("batch_id") == Some(Str(batchId)) && 0 < Json.Bytes(batchId) <= 128)
    && (exists items ::
          && doc.Get("results") == Some(Arr(items)) && |items| == |ids| == |ds|
          && forall i :: 0 <= i < |ids| ==> Says(items[i], ids[i], ds[i]))
  }

  /** A body is understood, as these decisions, exactly when it says them of the claims in order. */
  lemma AnswerExactly(body: Response, ids: seq<Identity>, ds: seq<Decision>)
    ensures Decisions(body, ids) == Ok(ds) <==> body.Some? && AnswerSays(body.value, ids, ds)
  {
    hide ReadItem, ReadItems, Says, Json.Bytes, Within, NoRepeats, Doc.Get, KeyStream.Run;
    if body.Some? {
      var doc := body.value;
      KeyStream.StreamEqualsTree(doc, MAX_DEPTH);
      if Envelope(doc, |ids|) {
        var items := doc.Get("results").value.items;
        ItemsSay(items, ids, ds);
        forall i | 0 <= i < |ids| && |ds| == |ids|
          ensures ReadItem(items[i], ids[i]) == Ok(ds[i]) <==> Says(items[i], ids[i], ds[i])
        {
          ItemSays(items[i], ids[i], ds[i]);
        }
      }
    }
  }

  /** The decisions mean what the backend answered: nothing is taken for confirmed that was rejected, or the reverse. */
  lemma DecisionsMeanOutcomes(items: seq<Outcomes.ResultItem>, i: nat)
    requires i < |items|
    ensures
      var (outcome, d) := (items[i].outcome, DecisionsOf(items)[i]);
      && (d.action == Accepted <==> outcome == Outcomes.Accepted)
      && (d.action == Duplicate <==> outcome == Outcomes.Duplicate)
      && (d.action == Rejected <==> outcome.Rejected?) && d.action != Retry
      && (outcome == Outcomes.Rejected(Outcomes.UnknownDevice) ==> d.reason == "unknown_device")
      && (outcome == Outcomes.Rejected(Outcomes.WrongGateway) ==> d.reason == "wrong_gateway")
      && (outcome == Outcomes.Rejected(Outcomes.InvalidMetric) ==> d.reason == "invalid_metric")
      && (outcome == Outcomes.Rejected(Outcomes.InvalidUnit) ==> d.reason == "invalid_unit")
      && (outcome == Outcomes.Rejected(Outcomes.ValueOutOfRange) ==> d.reason == "value_out_of_range")
      && (outcome == Outcomes.Rejected(Outcomes.MalformedValue) ==> d.reason == "malformed_value")
      && (outcome == Outcomes.Rejected(Outcomes.IdentityConflict) ==> d.reason == "identity_conflict")
  {
  }
}
