/** A validated reading as the backend handles it (backend/app/telemetry/schemas.py). Instants are microseconds. */
module Telemetry {
  import opened Options
  import opened Events

  const SECOND := 1_000_000
  const MINUTE := 60 * SECOND

  datatype Clock = Synchronised | Unsynchronised | Estimated | UnknownClock

  /** The immutable content fields; receipt times describe delivery and are not among them. */
  datatype Content = Content(
    schemaVersion: int,
    measuredAt: Option<int>,
    uptimeMs: nat,
    metric: string,
    value: real,
    unit: string,
    clock: Clock)

  datatype Reading = Reading(id: Identity, content: Content, gatewayReceivedAt: int)

  predicate DeviceTimed(c: Content) {
    c.measuredAt.Some? && c.clock == Synchronised
  }

  /** Device time only when it is present and its clock is synchronised. */
  function EventTime(c: Content, gatewayReceivedAt: int): int {
    if DeviceTimed(c) then c.measuredAt.value else gatewayReceivedAt
  }
}
