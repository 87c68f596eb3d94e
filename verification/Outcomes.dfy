/**
 Per-item outcomes of one ingested batch, and the response body that carries them
 (backend/app/telemetry/schemas.py).
 */
module Outcomes {
  import opened Options
  import opened Document

  datatype Reason =
    | UnknownDevice
    | WrongGateway
    | InvalidMetric
    | InvalidUnit
    | ValueOutOfRange
    | MalformedValue
    | IdentityConflict

  function ReasonText(r: Reason): (text: string)
    ensures text != ""
  {
    match r
    case UnknownDevice => "unknown_device"
    case WrongGateway => "wrong_gateway"
    case InvalidMetric => "invalid_metric"
    case InvalidUnit => "invalid_unit"
    case ValueOutOfRange => "value_out_of_range"
    case MalformedValue => "malformed_value"
    case IdentityConflict => "identity_conflict"
  }

  datatype Outcome = Accepted | Duplicate | Rejected(reason: Reason)

  /** One result per batch item, in batch order; a missing identity part is sent as null. */
  datatype ResultItem =
    ResultItem(device: Option<string>, boot: Option<string>, sequence: Option<nat>, outcome: Outcome)

  function TextOrNull(s: Option<string>): Doc {
    if s.Some? then Str(s.value) else Null
  }

  function CountOrNull(n: Option<nat>): Doc {
    if n.Some? then Integer(n.value) else Null
  }

  /** The reason is sent only when there is one (`response_model_exclude_unset`). */
  function ItemDoc(item: ResultItem): Doc {
    var identity := [
      Field("device_id", TextOrNull(item.device)),
      Field("boot_id", TextOrNull(item.boot)),
      Field("sequence_number", CountOrNull(item.sequence))];
    match item.outcome
    case Accepted => Obj(identity + [Field("outcome", Str("accepted"))])
    case Duplicate => Obj(identity + [Field("outcome", Str("duplicate"))])
    case Rejected(reason) =>
      Obj(identity + [Field("outcome", Str("rejected")), Field("reason", Str(ReasonText(reason)))])
  }

  function ItemDocs(items: seq<ResultItem>): (docs: seq<Doc>)
    ensures |docs| == |items|
    ensures forall i :: 0 <= i < |items| ==> docs[i] == ItemDoc(items[i])
  {
    seq(|items|, i requires 0 <= i < |items| => ItemDoc(items[i]))
  }

  function ResponseDoc(batchId: string, items: seq<ResultItem>): Doc {
    Obj([Field("batch_id", Str(batchId)), Field("results", Arr(ItemDocs(items)))])
  }
}
