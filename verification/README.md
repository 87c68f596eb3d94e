# Telemetry delivery: a verified model

This project models the path of a temperature reading from a device to the backend's alerts, and proves
what the system promises about it.

- **Device.** A board makes a boot id from its MAC address and a counter that is committed to flash before
  use (`DeviceIdentity`), encodes readings into a bounded buffer (`Formatting`, `Utf8`, `Encoder`,
  `EncoderProperties`) and publishes them one at a time over QoS 1 (`Publisher`, `PublisherProperties`).
  `Devices` puts any number of boards together; `Submissions` and `Measurements` say that what is sent is what was
  measured.
- **Gateway.** Intake checks a message (`EventParser`, `IntakeRules`, `KeyStream`, `Intake`), a durable queue keeps it
  (`Store`, `StoreProperties`), and the forwarder claims a batch, rewrites the stored JSON by copying raw
  spans (`Json`, `JsonUnique`, `CompactJson`, `Splicer`, `Batch`), posts it and applies the answer (`Outcomes`,
  `Answers`, `Verdicts`, `Forwarder`, `ForwarderProperties`, `Reports`). `Line` is the queue in delivery order. `DeviceEvents`
  and `DeviceLink` connect it to the devices.
- **Backend.** `Numbers` and `Requests` say which requests can be read, `Validation` rejects what is no event,
  `Ingestion` makes at-least-once delivery exactly-once in effect and steps the alert machine (`Alerts`);
  `Acceptance`, `Effects`, `IngestionProperties`, `AlertSpec`, `AlertRules` and `AlertTablesSpec` say what that means,
  item by item and over whole histories.
  `Registration` and `RegistrationProperties` are the device registration saga with the MQTT broker, `History` and
  `HistoryRules` the bounded history window with the chart's line segments.
- **System.** `Pipeline` runs intake, claim, post, answer and outcome as separate steps with lost requests,
  lost and late answers, rollbacks, storage faults, other traffic and gateway restarts in between. `Progress` says
  exactly how far working rounds take the queue: up to the claim that holds the first event the backend cannot
  read, and to the end when there is none. `Poison` shows that such an event never leaves, `Resting` when a restart
  is needed, and `DeviceDelivery` that devices never send one, so that their events are all delivered.

Code that changes state step by step is a class or a method with loops (`Store.Store`, `Alerts.AlertSession`,
`Ingestion.Session`, `Ingestion.Backend`, `Encoder.Writer`, `Publisher.PublisherTask`, `DeviceIdentity.Flash`,
`DeviceIdentity.Context`, `Registration.DeviceService`, the scanners and parsers), proved against a function
on values; the results over runs are about those functions. What the environment decides is a parameter: where
storage fails, what the HTTP client reports, what becomes of a broker command, when a flash write is lost, the
clocks, the order in which steps interleave.

## Findings

- One number can stop a gateway's delivery for good. Intake accepts a value such as `1e-9999999999999999999` or
  `0e99999999999999999999`, because the double nearest to it is finite (`gateway/src/telemetry/event.cpp:150-151`),
  and the splicer copies its spelling. The backend decodes the batch with `parse_float=Decimal`, which raises
  `InvalidOperation` on it, and refuses the whole batch with status 400 before any item is classified
  (`backend/app/telemetry/validation.py:94-112`, `backend/app/telemetry/validation.py:149-157`). The forwarder hands
  the claim back and claims the same rows again (`gateway/src/forwarder.cpp:254-261`), so the event, the rows claimed
  with it and all rows behind them stay queued. `DeviceEvents.PoisonExists` gives a message, `Requests.ReadsExactly`
  the exact condition on the value's spelling, `Poison.UnreadableNeverLeaves` and `Progress.EverythingIsSettled` the
  effect. The firmware prints no such number (`DeviceEvents.DeviceEventReads`).
- A byte order mark has the same effect one step earlier: the gateway's parser skips it, so intake accepts the
  payload, but the splicer finds no object and the claim is handed back unsent (`gateway/src/forwarder.cpp:66-72`,
  `gateway/src/forwarder.cpp:238-247`). `EventParser.AcceptedEventConverts` states the condition,
  `ForwarderProperties.MarkedStays` the effect.
- `gateway/README.md:73-74` says a message with a known identity and changed bytes is quarantined. The code only
  reports `identity_conflict` and leaves the stored row alone (`gateway/src/sqlite/store.cpp:253-255`,
  `gateway/src/sqlite/store.cpp:298-299`). The model follows the code (`StoreProperties.InsertAnswers`).
- A drain can commit its outcome and still end in an exception, and so can intake with a new event: both log the
  queue's row count after the commit, and that query can fail. `ForwarderProperties.DeliveredMeansCommitted` says
  exactly when the report and the commit differ, `Intake.ReceiveMessage` when intake's do; nothing is lost
  either way, because conservation is stated by the commit.
- Registry and broker part ways in three families of cases each, and in no other, which
  `RegistrationProperties.RegisterAgrees` and `RegistrationProperties.RemoveAgrees` state as if-and-only-if: the
  creating or disabling command took effect without a confirmation (no compensation is attempted then); the COMMIT
  failed and the compensation was not done; or the COMMIT took effect without a confirmation and the compensation,
  which the error triggers, took effect.
- An acknowledgement is matched with the pending reading by message id alone, also while nothing is in flight
  (-1). `PublisherProperties.MinusOneAcknowledgesUnsent` is the run in which a reading is acknowledged unsent;
  `PublisherProperties.AcksAnswerSends` says that an acknowledgement stands for a send exactly when its id is not
  negative.
- Attempt numbers fence stale claims only within one row lifetime: a deleted identity that is stored again starts
  at attempt 0 (`StoreProperties.StaleClaimIsPowerless`).

## Model

| member | source | states |
|---|---|---|
| Pipeline.NothingIsLost | gateway/src/forwarder.cpp:228-292 | at every point of every run mixing intake, claims, answers, lost and late answers, storage faults, other traffic, registry changes and gateway restarts, each event reported inserted is in the queue or in quarantine with its bytes and receipt time, or in the backend with equal immutable content |
| Pipeline.StoredOnceAndForAll | backend/app/telemetry/service.py:97-131 | from any reachable state on, whatever follows, a stored telemetry row keeps its id, content and receipt times |
| Pipeline.OutcomesAlwaysApply | gateway/src/forwarder.cpp:264-278 | in every reachable state the outcome of the running drain applies: with working storage no call in the drain's settlement throws |
| Pipeline.StepKeeps | gateway/src/forwarder.cpp:228-292 | every single step, in any interleaving with the claim and the outcome, keeps the system invariant: nothing inserted is lost, the running claims are still held with the stored bytes, and whatever reads as confirmed has arrived |
| Pipeline.DeliverIsHonest | backend/app/telemetry/service.py:140-141 | when the backend commits and answers, every event the forwarder reads as accepted or duplicate is stored with equal content (commit before answer) |
| Pipeline.ClaimKeeps | gateway/src/sqlite/store.cpp:347-372 | taking a batch hands out distinct claims with the stored bytes, all in flight, and loses nothing |
| Pipeline.FinishKeeps | gateway/src/sqlite/store.cpp:401-462 | an outcome, or handing the claim back, loses nothing: what leaves the queue is in quarantine or has arrived |
| Pipeline.RebootKeeps | gateway/src/sqlite/store.cpp:146-147 | a gateway restart during a drain loses nothing |
| Pipeline.LateKeeps | backend/app/telemetry/service.py:52-141 | a request that commits unheard, even long after its drain was given up, only adds to what is stored |
| Pipeline.LateIsPossible | gateway/src/forwarder.cpp:249-253 | a request once sent may still commit at any later point of the run, whatever became of its drain |
| Progress.EverythingIsSettled | gateway/src/forwarder.cpp:228-292 | after any run that stored accepted events, a restart and k fault-free rounds of claim, answer or batch refusal, and outcome are possible and leave exactly the queue's events from rank min(500k, c) on, where c is the queue's length if the backend can read every queued event and 500 * floor(r / 500) if the first it cannot read has rank r; everything else ever reported inserted is in the backend with equal content or in quarantine; so ceil(n/500) rounds empty a queue of n rows if and only if the backend can read each of them (claims are counted against the attempt counter: one per row, or one per round when some row cannot be read) |
| Progress.SettledWithoutRestart | gateway/src/forwarder.cpp:228-292 | the same without a restart, from wherever a forwarder comes to rest, if no finish since the last start abandoned its claim |
| Resting.RestNeedsNoRestart | gateway/src/forwarder.cpp:233-279 | in every run, if no finish since the last restart abandoned its claim (the release failed, and so did the outcome or there was none), only the running drain holds rows, and a forwarder at rest has all its rows pending |
| Resting.FinishReleases | gateway/src/forwarder.cpp:233-279 | a finish leaves every row pending if and only if it does not abandon its claim; an abandoned claim's rows stay as they were |
| Poison.UnreadableNeverLeaves | gateway/src/forwarder.cpp:254-261 | once queued, an accepted event that the backend cannot read stays queued, with its bytes and receipt time, in every continuation of every run |
| DeviceDelivery.DevicesAreDelivered | gateway/src/forwarder.cpp:228-292 | if everything a run stored came from devices running this firmware, a restart and ceil(n/500) such rounds empty the queue of n rows, and every event ever reported inserted is in the backend with equal content or in quarantine |
| Line.HeadOfLine | gateway/src/sqlite/store.cpp:347-372 | a claim of an all-pending queue takes exactly the first min(n, 500) events of the queue in delivery order |
| Line.DrainMovesLine | gateway/src/forwarder.cpp:228-292 | one fault-free drain takes exactly the claimed head off the line when its answer is understood, and leaves the line as it is otherwise |
| Progress.AnswerIsGood | backend/app/telemetry/service.py:140-141 | for a claim of convertible events whose request is read, whatever the backend decides about each, its answer is one the gateway reads: it names every event and fits the client's limit |
| Progress.OneRound | gateway/src/forwarder.cpp:228-292 | one round moves the line of queued events forward by its first min(n, 500) if the backend can read all of those, and by nothing if it cannot, and leaves everything ready for the next round |
| Pipeline.StepComesFromRows | gateway/src/sqlite/store.cpp:401-462 | no step other than intake makes up a row: every queued row keeps a queued row's bytes and receipt time, every quarantined one was queued or quarantined with its bytes |
| Pipeline.DrainIsTheseSteps | gateway/src/forwarder.cpp:228-292 | claim, any inserts, one answer and the settlement, as separate steps, leave the tables exactly as one `drain_once` with those inserts in its middle |
| Store.Store.InsertEvent | gateway/src/sqlite/store.cpp:240-300 | one transaction: on a fault nothing changes; otherwise the tables and the answer are those of `Insert` |
| Store.Store.ClaimPending | gateway/src/sqlite/store.cpp:347-372 | takes the batch all or nothing: any fault or a used-up attempt counter leaves both tables as they were |
| Store.Store.ReleaseClaim | gateway/src/sqlite/store.cpp:374-399 | only a claim marked in flight may be released, and it moves its row only while the row still holds that attempt |
| Store.Store.ApplyDecisions | gateway/src/sqlite/store.cpp:401-462 | either an error and both tables unchanged, or the whole list applied in order |
| Store.Store.constructor | gateway/src/sqlite/store.cpp:146-147 | opening the queue returns every abandoned claim to pending |
| Store.FirstPending | gateway/src/sqlite/store.cpp:325-345 | the places taken are the first `limit` pending ones in the strict order receipt time, device, boot, sequence |
| StoreProperties.InsertAnswers | gateway/src/sqlite/store.cpp:240-300 | a new identity is queued pending; a known one is answered duplicate or conflict by comparing bytes and changes nothing (conflicts are not quarantined, unlike gateway/README.md says); offering the event again is a duplicate without effect |
| StoreProperties.ClaimTakesTheHead | gateway/src/sqlite/store.cpp:325-372 | a claim takes exactly the first min(limit, pending) rows in queue order, marks exactly those in flight with one more attempt, hands out the stored bytes, and changes nothing else |
| StoreProperties.ClaimFailsExactly | gateway/src/sqlite/store.cpp:303-372 | a claim fails exactly when its limit is not 1 to 500, or when one of the rows it would take has used up its attempt counter |
| StoreProperties.DeliveryOrder | gateway/src/sqlite/store.cpp:324-334 | the queue's order: receipt time, then device, boot and sequence number, texts by their first different character |
| StoreProperties.ApplyExactly | gateway/src/sqlite/store.cpp:401-462 | succeeds exactly when every claim is still held, none is decided twice, reasons stand exactly on rejections and no rejected event is quarantined already; then exactly the accepted, duplicate and rejected rows are gone, exactly the rejected ones joined quarantine with payload and receipt time, exactly the retried ones are pending, and no other row moved |
| StoreProperties.LifetimeHistory | gateway/src/sqlite/store.cpp:355-369 | over one row lifetime, in any run, bytes and receipt time stay and the attempt count grows by exactly the claims that took the row |
| StoreProperties.StaleClaimIsPowerless | gateway/src/sqlite/store.cpp:444-459 | once a later claim took a row, releasing the older claim changes nothing and any outcome list holding it is refused, for as long as the row lives |
| StoreProperties.ReleaseExactly | gateway/src/sqlite/store.cpp:374-399 | releasing a claim makes its row pending exactly when the row is still in flight with the claim's attempt number, and changes nothing else |
| StoreProperties.RunKeepsWellFormed | gateway/src/sqlite/store.cpp:240-462 | over every run of operations no identity is queued and quarantined at once |
| StoreProperties.RestartRequeuesEverything | gateway/src/sqlite/store.cpp:146-147 | after a restart every row is pending with payload, receipt time and attempts preserved; restarting twice is restarting once |
| Ordering.FirstIsUnique | gateway/src/sqlite/store.cpp:329-331 | the specification of ORDER BY with LIMIT determines the selected list |
| Forwarder.DrainOnce | gateway/src/forwarder.cpp:228-292 | the drain's tables and report are those of `Drain` for any answer, any inserts in its middle and a storage fault anywhere; `Reports.ReportIsExact` and `DrainConserves` say what those are |
| Forwarder.GiveClaimBack | gateway/src/forwarder.cpp:233-236 | releasing applies a retry to every claim, or changes nothing |
| ForwarderProperties.InsertsKeepRows | gateway/src/sqlite/store.cpp:240-300 | any number of inserts leave every existing row and the quarantine as they were |
| ForwarderProperties.ClaimSurvivesInserts | gateway/src/forwarder.cpp:229-278 | after any inserts behind a claim, a well-reasoned decision list for the whole claim still applies |
| ForwarderProperties.DrainNeverThrows | gateway/src/forwarder.cpp:228-292 | for any table, answer and interleaved inserts, with working storage no drain ends in an exception unless an attempt counter is used up |
| ForwarderProperties.DrainConserves | gateway/src/forwarder.cpp:228-292 | whatever storage, network and backend do, a queued row leaves the queue only if the drain's decisions are committed; then it is quarantined with bytes and receipt time, or was named accepted or duplicate by an answer the gateway could read; the quarantine never loses or changes a row |
| ForwarderProperties.DeliveredMeansCommitted | gateway/src/forwarder.cpp:273-291 | a drain reports delivery if and only if its decisions are committed and the row count it logs afterwards can be read; when the count fails the committed drain ends in an exception, with the same tables |
| Reports.ReportIsExact | gateway/src/forwarder.cpp:228-292 | a drain's report, exactly, for any answer and any storage fault: idle when the claim is empty; authentication failure when the request was written and fits 9 MiB, the response fits 1 MiB and its status is 401 or 403; delivered when a 200 decides the claim and the decisions commit; retry for everything else that leaves the claim undecided; storage error otherwise |
| Reports.IdleMeansNothingPending | gateway/src/forwarder.cpp:228-232 | the claim is empty exactly when no row is pending |
| ForwarderProperties.GoodAnswerDecides | gateway/src/forwarder.cpp:149-209 | for a claim of convertible events a 200 answer of at most 1 MiB with one item per event, each naming its event, is read as exactly the backend's outcomes |
| ForwarderProperties.OneDrain | gateway/src/forwarder.cpp:228-292 | with such an answer and no intake, one drain removes exactly min(n, 500) rows and leaves the rest deliverable |
| ForwarderProperties.DrainsEmptyTheQueue | gateway/src/forwarder.cpp:228-292 | with such answers and no intake, ceil(n/500) drains empty a queue of n deliverable rows |
| ForwarderProperties.DrainExactly | gateway/src/forwarder.cpp:228-292 | without faults and new intake, a drain of an all-pending queue removes exactly its claim when the answer is understood, and otherwise only makes the claimed rows' attempts one more |
| ForwarderProperties.MarkedStays | gateway/src/forwarder.cpp:238-247 | a queued row whose payload starts with a byte order mark stays queued through every drain, whatever storage, network and backend do |
| Intake.ReceiveMessage | gateway/src/intake.cpp:14-43 | retained and invalid messages leave the store alone; a live valid one is in the store afterwards, with its bytes and receipt time if its identity was unknown, unless the insert fails; an exception escapes exactly when the insert fails or the row count after a committed new event does, and in the second case the event is stored |
| Intake.ReceivedMessages | gateway/src/intake.cpp:14-43 | a retained message changes nothing; a live one that is no event changes nothing and the answer is the reason; a live one that is an event is in the store afterwards: queued pending with its bytes and receipt time and answered inserted if its identity was unknown, and otherwise nothing changes |
| DeviceDelivery.LiveMessageIsQueued | gateway/src/intake.cpp:14-43 | a live message that a device running this firmware publishes is queued with its bytes when its identity is unknown |
| DeviceDelivery.IntakeIsAnArrival | gateway/src/intake.cpp:14-43 | the pipeline's intake step is the arrival of such a message, and reports it stored exactly when intake does |
| Intake.OnlyAcceptedEver | gateway/src/intake.cpp:14-43 | over any run of messages, claims, releases, outcomes and restarts every queued row is an event intake accepted, with its bytes |
| Intake.EveryQueueDrains | gateway/src/forwarder.cpp:228-292 | after any run of the gateway alone and a restart, drains with any answers at all take exactly 500 rows off the queue for each answer they understand and none for the others; and ceil(n/500) drains whose answers name the claimed events empty the queue of n rows if and only if no queued payload starts with a byte order mark (as far as the attempt counters last) |
| Splicer.SkipSpace | gateway/src/forwarder.cpp:21-25 | the scanner stops at the first character that is no C-locale space |
| Splicer.QuotedEnd | gateway/src/forwarder.cpp:27-39 | the scanner's loop is the string scan, from any position of any text |
| Splicer.MemberEnd | gateway/src/forwarder.cpp:41-62 | the depth-counting loop is the value scan, from any position of any text |
| Splicer.BackendEventJson | gateway/src/forwarder.cpp:66-115 | the member loop computes `Splice` on every text, including all error cases |
| Splicer.StringEndOnChars | gateway/src/forwarder.cpp:27-39 | on any valid string body the scan stops exactly at the closing quote, escapes included |
| Splicer.ValueSkips | gateway/src/forwarder.cpp:41-62 | on any valid JSON value, however nested, the scan passes over exactly the value |
| Splicer.SpanEndStopsAtSeparator | gateway/src/forwarder.cpp:41-62 | after any valid value with blanks around it the scan stops exactly at the comma or brace that follows |
| Splicer.SplicePreservesMeaning | gateway/src/forwarder.cpp:66-115 | for every well-formed object text whose keys decode, the output is the text of a well-formed object: the input's members without `schema_version`, same order, byte-identical spans, then `gateway_received_at`; it refuses exactly when there is no schema version or nothing besides it |
| Splicer.SpliceOnObject | gateway/src/forwarder.cpp:66-115 | on every well-formed object text with blanks around it the member loop ends without error in exactly the progress its members specify, in order |
| Splicer.SpliceKeepsLookups | gateway/src/forwarder.cpp:93-101 | every key other than the two envelope keys names the same value before and after |
| Splicer.SpliceSwapsEnvelope | gateway/src/forwarder.cpp:93-113 | the output has no schema version and its receipt time is the dumped clock text |
| Splicer.DumpRoundTrips | gateway/src/forwarder.cpp:112-112 | the library's string dump is well formed and unescapes to the string |
| Json.UnitEscapeDecodes | firmware/components/telemetry/telemetry_encoding.c:31-35 | a control character spelled as a four-digit escape unescapes to itself (section 7 of RFC 8259) |
| Batch.BatchJson | gateway/src/forwarder.cpp:117-127 | the loop over the claim computes `Body`: all events converted, or the first conversion error |
| Batch.AcceptedEventCarries | gateway/src/forwarder.cpp:66-115 | an event intake accepted without a byte order mark converts to an object that names its device, boot, sequence and receipt time and has no schema version, at most 25 + 6 |receipt time| bytes longer than its payload limit |
| Batch.FullClaimIsSendable | gateway/src/http/client.cpp:12-46 | a claim of 1 to 500 accepted events without a byte order mark converts without error to a well-formed batch object carrying each event, whose size is positive and at most 9 MiB |
| Batch.SomeMarkIsAnError | gateway/src/forwarder.cpp:117-127 | one event whose payload starts with a byte order mark makes the conversion of its whole claim fail |
| JsonUnique.TextIsInjective | gateway/src/telemetry/event.cpp:25-46 | one text has one tree: two valid JSON trees with the same text are equal, blanks included |
| JsonUnique.ValuesSplit | gateway/src/forwarder.cpp:41-62 | a valid value at the start of a text, followed by whatever may follow a value, is determined by the text |
| EventParser.OneTextOnePayload | gateway/src/telemetry/event.cpp:25-46 | the bytes decide: every text is exactly one valid payload, the tree it spells, with or without a byte order mark before it, or none if it spells no tree; so what intake does is a function of the text |
| EventParser.AcceptedPayload | gateway/src/telemetry/event.cpp:126-163 | what passes intake is one JSON object of limited size and depth, without repeated keys and with numbers that are finite doubles, whose fields give the event's identity, on the topic of its device |
| IntakeRules.ParsesExactly | gateway/src/telemetry/event.cpp:126-163 | a message parses, with this event, if and only if its topic is the telemetry topic of the event's device, its payload has at most 16384 bytes and is a JSON text with finite numbers, at most four levels deep and without repeated keys, and its ten fields are those of the event |
| IntakeRules.FieldsExactly | gateway/src/telemetry/event.cpp:131-163 | the field checks pass, with this identity, exactly for the ten fields of an event of the topic's device, each of its kind, and no other field |
| IntakeRules.RefusalsAreTrue | gateway/src/telemetry/event.cpp:126-163 | a refused message has the fault that the reported reason names |
| IntakeRules.TopicExactly | gateway/src/telemetry/event.cpp:111-122 | a topic names a device exactly when it is `equipment/`, a non-empty name of at most 128 bytes without `/`, `+` and `#`, and `/telemetry` |
| IntakeRules.TimestampExactly | gateway/src/telemetry/event.cpp:74-109 | a clock text passes if and only if it spells a second of the Gregorian calendar of the years 1 to 9999, perhaps with a fraction, and `Z` or an offset of less than a day |
| EventParser.AcceptedEventConverts | gateway/src/telemetry/event.cpp:126-163 | `backend_event_json` rewrites what `parse` accepts if and only if its text does not start with a byte order mark; the result is a well-formed object whose identity members keep their values, with the receipt time and without the schema version |
| EventParser.KeptIsNoLonger | gateway/src/forwarder.cpp:93-101 | dropping the schema version never lengthens the members' text, in UTF-8 bytes |
| KeyStream.Check | gateway/src/telemetry/event.cpp:25-46 | the callback with its depth-indexed vector of key sets computes the stream machine `Run`, never indexing outside the vector |
| KeyStream.StreamEqualsTree | gateway/src/telemetry/event.cpp:25-46 | the stream check passes exactly when the document is within the depth limit and no object in its tree repeats a key; each error names a real violation |
| Verdicts.ParseDecisions | gateway/src/forwarder.cpp:149-209 | the loop over the claim computes `Decisions`, with the first offending item deciding the error |
| Verdicts.DecisionsAreFinal | gateway/src/forwarder.cpp:178-208 | an answer that is read never retries: one decision per claim, in order, with a reason exactly on rejections |
| Verdicts.BackendAnswerIsUnderstood | gateway/src/forwarder.cpp:149-209 | the backend's rendering of its results is accepted exactly when it has one item per claim, each naming its event, and then the decisions are its outcomes |
| Verdicts.AnswerExactly | gateway/src/forwarder.cpp:157-209 | any body at all is read as these decisions if and only if it is an object of a batch id and a results array, at most three levels deep and without repeated keys, whose items say them of the claims in order: accepted or duplicate with the claim's identity, or rejected for a permanent reason, with null identity parts only for a malformed value |
| Verdicts.DecisionsMeanOutcomes | gateway/src/forwarder.cpp:175-205 | the decisions have the meaning and the reason texts of the backend's outcomes, one by one |
| Answers.AnswerReads | backend/app/telemetry/router.py:27-61 | what the backend writes for a batch is one well-formed JSON object, and the gateway's parser reads exactly the response back from it |
| Answers.AnswerFits | gateway/src/http/client.cpp:13-26 | the answer to at most 500 items with parts of at most 128 bytes stays within the 1 MiB the client accepts |
| Validation.SentMembers | gateway/src/forwarder.cpp:66-115 | what the gateway sends for an accepted event without a byte order mark is one object whose members all parse, and it carries the event |
| Validation.IdentityIsValid | gateway/src/telemetry/event.cpp:126-163 | the identity parts of an accepted event are non-empty, at most 128 bytes, free of NUL, with a 63-bit counter |
| Validation.RefusalNamesItsEvent | backend/app/telemetry/validation.py:58-89 | however the backend's validation rejects an accepted event it was sent, the rejection repeats the whole identity |
| Validation.RefusalRepeatsWhatIsValid | backend/app/telemetry/validation.py:58-89 | a rejection repeats exactly the identity parts that are valid by themselves |
| Requests.RequestReadsExactly | backend/app/telemetry/validation.py:92-112 | the backend reads the request for accepted events (one UTF-8 JSON text, unique member names, every number an exact Python integer or Decimal) if and only if it could read each event alone: one unreadable event refuses the whole batch |
| Requests.ReadsExactly | backend/app/telemetry/validation.py:92-112 | an accepted event can be read if and only if its payload has no byte order mark and its `value` is spelled as a number Python represents exactly; every other number and name of it always can |
| Numbers.TinyIsRefused | backend/app/telemetry/validation.py:92-112 | `1e-9999999999999999999` is a JSON number, a finite double for the gateway, and no Decimal |
| Numbers.VastZeroIsRefused | backend/app/telemetry/validation.py:92-112 | `0e99999999999999999999` is a JSON number, zero for the gateway, and no Decimal |
| Numbers.CounterReads | backend/app/telemetry/validation.py:92-112 | a printed counter of at most 63 bits is a number both the gateway and the backend read |
| Numbers.FractionReads | backend/app/telemetry/validation.py:92-112 | any spelling with a fraction, no exponent and at most 30 digits is a number both the gateway and the backend read |
| Ingestion.Session.InsertEvent | backend/app/telemetry/repository.py:25-33 | inserts a row for a new identity and does nothing for a known one |
| Ingestion.Session.IngestOne | backend/app/telemetry/service.py:75-138 | one turn of the batch loop: registry check, representation check, insert or compare, alert step and presence, on the transaction's own view |
| Ingestion.Backend.IngestBatch | backend/app/telemetry/service.py:52-141 | the whole batch with its alert cache equals the item-by-item fold on the committed tables; without a commit nothing changes and no result escapes |
| Ingestion.IngestKeepsSound | backend/app/telemetry/service.py:74-138 | every batch keeps the database sound: alert tables sound, telemetry ids unique and below the next one |
| Ingestion.IngestKeepsRegistry | backend/app/telemetry/service.py:62-73 | ingestion changes no gateway, and of devices only the last-seen time, so the assignments read at the start stay right |
| IngestionProperties.IngestExtends | backend/app/telemetry/service.py:97-131 | a stored row is never changed or removed by ingestion |
| IngestionProperties.AnswersAreTrue | backend/app/telemetry/service.py:109-138 | after a batch every item's outcome is true of the committed rows: accepted and duplicate mean an equal row is stored, a conflict means a different one is, the other rejections mean their reason |
| Acceptance.AcceptedIsTheFirst | backend/app/telemetry/service.py:97-128 | in any batch an item is answered accepted if and only if its event was not stored before the batch and it is the first item that carries it past the registry and representation checks |
| Acceptance.StoredIsTheFirst | backend/app/telemetry/service.py:97-128 | the row a batch stores for an event has the content and the receipt times of exactly that first item |
| Acceptance.BatchStores | backend/app/telemetry/service.py:97-128 | after a batch exactly the events stored before it and those that some item carries past the checks are stored |
| Acceptance.RepeatsAreCompared | backend/app/telemetry/service.py:109-122 | an item is answered duplicate, or identity conflict, if and only if it passes the checks and its event is there, from before the batch or from an earlier item, with equal content, or with other content |
| Acceptance.RefusalsAreExact | backend/app/telemetry/service.py:81-107 | the answers unknown device, wrong gateway and malformed value are given exactly for devices that are not registered, devices of another gateway or disabled ones, and readings of the gateway's enabled devices that the database cannot represent |
| Acceptance.AcceptedExactlyOnce | backend/app/telemetry/service.py:60-141 | over any run of batches and registry changes, however often an event is delivered, it is answered accepted exactly once if it was not stored at the start and is at the end, and otherwise never |
| Effects.ForbiddenExactly | backend/app/telemetry/service.py:62-64 | a batch is refused as a whole exactly when its gateway is unknown or disabled, or the gateway's site is disabled |
| Effects.ItemMovesAlerts | backend/app/alerts/service.py:37-62 | an item moves the alert tables if and only if it is accepted, its instant (the device's if its clock is synchronised, else the gateway's receipt) is at most five minutes before and one minute after the backend's receipt, and it is newer than the device's cursor; the cursor is then that instant |
| Effects.ItemIsEvaluated | backend/app/telemetry/service.py:123-126 | an accepted reading is evaluated with that instant, its value, its telemetry id and its receipt time |
| Effects.EventTimeRule | backend/app/telemetry/time.py:6-15 | the device's time counts exactly when it is there and its clock is synchronised |
| Effects.BatchPresence | backend/app/telemetry/service.py:127-131 | a device was last seen at the presence update of the last item of the batch that was accepted and received by the gateway at most 90 seconds before, and if there is none its presence is unchanged |
| IngestionProperties.AnswersNameTheirItems | backend/app/telemetry/service.py:79-138 | there is one result per item in order, and each result for a readable item carries its identity |
| IngestionProperties.RedeliveryChangesNothing | backend/app/telemetry/service.py:97-131 | exactly-once effect: redelivering a committed batch any time later under an unchanged registry turns every accepted item into duplicate, repeats the other answers, and leaves telemetry and alert tables exactly as they were |
| IngestionProperties.BatchSplits | backend/app/telemetry/service.py:74-138 | one batch A+B gives the same results, rows, states and episodes as A then B, so the per-batch cache is transparent |
| IngestionProperties.RunKeepsEverything | backend/app/telemetry/service.py:52-141 | over every run of commits and registry changes the database stays sound, only grows, and its alert tables stay explained by its rows |
| IngestionProperties.AlertsFollowFromTelemetry | backend/app/alerts/service.py:20-84 | in every reachable database no alert constraint is violated and each device's episodes are exactly what the stored readings specify, taken in telemetry-id order |
| Alerts.AlertSession.EvaluateReading | backend/app/alerts/service.py:20-84 | the cached, in-place state machine computes `Evaluate` on the tables as the transaction sees them |
| Alerts.AlertSession.FindOrAdd | backend/app/alerts/service.py:44-59 | looks a state up in the cache, then the session, then adds one; a cached row is the stored one |
| Alerts.AlertSession.Advance | backend/app/alerts/service.py:61-84 | advances cursor, streaks and episode in place as `NextState` and `NextEpisodes` say |
| AlertSpec.FirstTriple | backend/app/alerts/service.py:63-84 | the third of the first three consecutive hits from a position on, or none if there are no three |
| AlertSpec.MachineMeetsSpecification | backend/app/alerts/service.py:32-84 | over any history the incremental machine has exactly the episodes of the declarative story on the readings that count: open on the third consecutive value above 30 since the last resolve, resolve on the third consecutive value below 28 since the open; cursor and streaks match |
| AlertRules.ReadingCounts | backend/app/alerts/service.py:37-62 | a reading changes the tables if and only if its instant lies from 300,000,000 microseconds before to 60,000,000 after the backend's receipt and is newer than the device's cursor, which it then becomes |
| AlertRules.KeptIsCounting | backend/app/alerts/service.py:37-62 | the readings of a history that the specification keeps are exactly those within these bounds and newer than every earlier one within them |
| AlertRules.TripleIsThreeInARow | backend/app/alerts/service.py:64-80 | what the specification of a device's episodes searches for is three kept values above 30, or below 28, next to each other |
| AlertRules.ThreeHighOpen | backend/app/alerts/service.py:64-75 | three counting readings above 30 in a row have opened an episode by the third, and from a streak of 0 exactly the third opens it, with its instant and telemetry id |
| AlertRules.ThreeLowResolve | backend/app/alerts/service.py:76-84 | three counting readings below 28 in a row have resolved the episode by the third, and from a streak of 0 exactly the third resolves it |
| AlertRules.StreakBreaks | backend/app/alerts/service.py:64-80 | a counting reading of at most 30, or of at least 28 under an alert, sets the streak to 0 and opens or resolves nothing |
| AlertRules.CalmReading | backend/app/alerts/service.py:64-75 | what one counting reading without an active alert does to streaks and episodes, in numbers |
| AlertRules.AlarmedReading | backend/app/alerts/service.py:76-84 | what one counting reading under an active alert does to streaks and episodes, in numbers |
| AlertSpec.StreaksAreShort | backend/app/db/models.py:200-203 | whenever the machine's registers tell the story of its history, both streaks are at most 2 and one of them is 0 |
| AlertTablesSpec.EvaluateKeepsSound | backend/app/alerts/service.py:42-84 | every evaluation keeps a device's episodes in strict time order and disjoint, at most the last unresolved, `active_episode_id` naming exactly that one, the idle streak 0 |
| AlertTablesSpec.SoundMeetsConstraints | backend/app/db/models.py:161-204 | sound tables violate no unique, check or partial unique constraint of episodes and states |
| AlertTablesSpec.EvaluateProjects | backend/app/alerts/service.py:42-84 | on the tables one device sees exactly its own machine's step |
| AlertTablesSpec.EvaluateLeavesOthers | backend/app/alerts/service.py:42-84 | a reading of one device changes no other device's state or episodes |
| AlertTablesSpec.TablesMeetSpecification | backend/app/alerts/service.py:32-84 | for any interleaving of devices the tables are sound, no constraint is violated, and each device's rows are what its own history specifies |
| Encoder.Writer.Append | firmware/components/telemetry/telemetry_encoding.c:8-17 | appends text and NUL exactly when it is shorter than the space left, else changes nothing it had written; never writes at or past the capacity |
| Encoder.Writer.AppendJsonString | firmware/components/telemetry/telemetry_encoding.c:19-45 | appends the quoted, escaped string exactly when all of it fits |
| Encoder.Writer.Print | firmware/components/telemetry/telemetry_encoding.c:70-77 | `snprintf`: cut to the space left, full length reported |
| Encoder.Encode | firmware/components/telemetry/telemetry_encoding.c:47-92 | succeeds exactly when the event is acceptable and its text is shorter than the capacity, then leaves exactly that text and a NUL, the same for every sufficient capacity; bytes at or past the capacity never change |
| EncoderProperties.EscapeRoundTrips | firmware/components/telemetry/telemetry_encoding.c:24-43 | the escaped spelling of any string is well formed and unescapes to it (section 7 of RFC 8259) |
| EncoderProperties.EncodingIsJson | firmware/components/telemetry/telemetry_encoding.c:61-92 | what the encoder writes is the text of one JSON object with the ten members intake expects |
| EncoderProperties.TreeIsValid | firmware/components/telemetry/telemetry_encoding.c:61-92 | that object is well formed |
| EncoderProperties.FixedPointDenotes | firmware/components/telemetry/telemetry_encoding.c:85-90 | the value text spells exactly the temperature, with four decimals |
| EncoderProperties.EncodingIsUtf8 | firmware/components/telemetry/telemetry_encoding.c:24-43 | encoding the UTF-8 bytes of an event's strings gives the UTF-8 bytes of its text |
| EncoderProperties.ConfiguredEventFits | firmware/components/app_config/app_config.c:16-28 | 768 bytes suffice for every device id the configuration accepts, with a 29-character boot id, 64-bit counters and the clock text |
| EncoderProperties.AcceptableExactly | firmware/components/telemetry/telemetry_encoding.c:48-60 | an event is encoded only if its ids have 1 to 128 bytes, its counters are not negative and its temperature is from -55 to 125 degrees, and then always if it fits |
| Formatting.DecimalIsNumber | firmware/components/telemetry/telemetry_encoding.c:70-72 | a printed counter is a JSON number that reads back as the same integer |
| Formatting.PaddedValue | firmware/components/identity/boot_id.c:46-47 | a zero-padded spelling denotes its number, so equal spellings come from equal numbers |
| Formatting.PaddedLength | firmware/components/identity/boot_id.c:46-47 | a number below base^width is spelt with exactly the width |
| Utf8.EncodeInjective | firmware/components/telemetry/telemetry_encoding.c:24-43 | different texts have different UTF-8 bytes |
| Utf8.EncodeCharDenotes | firmware/components/telemetry/telemetry_encoding.c:19-45 | a character's bytes are a sequence of section 3 of RFC 3629 and denote the character |
| DeviceIdentity.Flash.CreateBootId | firmware/components/identity/boot_id.c:9-49 | the counter is committed before a boot id is returned; unreadable flash, an unconfirmed write or an exhausted counter return none |
| DeviceIdentity.Context.Init | firmware/components/identity/identity.c:5-16 | accepts boot ids of 1 to 29 characters and starts at sequence 0 |
| DeviceIdentity.Context.NextSequence | firmware/components/identity/identity.c:18-26 | hands out the next sequence number, and none past INT64_MAX |
| DeviceIdentity.BootIdLength | firmware/components/identity/boot_id.c:46-48 | every boot id has exactly 29 characters, so the final length check never fails |
| DeviceIdentity.BootIdInjective | firmware/components/identity/boot_id.c:46-47 | equal boot ids come from the same MAC address and the same counter value |
| DeviceIdentity.IdentitiesAreFresh | firmware/components/identity/boot_id.c:26-48 | over any run of any number of boards with restarts, crashes, lost and unconfirmed flash writes, no (boot id, sequence) pair is issued twice |
| DeviceIdentity.StartUpExactly | firmware/components/identity/boot_id.c:20-49 | a start gives a boot id exactly when the next counter value exists and its write is confirmed, made of that value, which flash then holds; otherwise flash is unchanged unless an unconfirmed write got through |
| DeviceIdentity.BootIdSpells | firmware/components/identity/boot_id.c:20-49 | the boot id spells the six octets of the MAC address, a dash and the counter in hexadecimal |
| DeviceIdentity.NumbersAreConsecutive | firmware/components/identity/identity.c:7-26 | over any run a number is issued only after the one before it in the same session |
| DeviceIdentity.IssuingGoesOn | firmware/components/identity/identity.c:7-26 | a running session always issues its next number until all 63 bits are used, and then none |
| Publisher.PublisherTask.SubmitTemperature | firmware/components/telemetry/telemetry.c:217-246 | a submission draws a number and queues the reading under it, or drops it when the queue is full; `Submissions.SentAsSubmitted` says what is then sent |
| Publisher.PublisherTask.OnMqttEvent | firmware/components/telemetry/telemetry.c:52-73 | queues the signal, or drops it when eight wait |
| Publisher.PublisherTask.DrainSignals | firmware/components/telemetry/telemetry.c:86-102 | handles all waiting signals in order |
| Publisher.PublisherTask.TakeReading | firmware/components/telemetry/telemetry.c:104-119 | with nothing pending takes the oldest reading and encodes it into the 768-byte buffer, or drops it |
| Publisher.PublisherTask.SendPending | firmware/components/telemetry/telemetry.c:127-137 | hands the buffer's text up to its NUL to the client, and waits for the message id it gets |
| Publisher.PublisherTask.LoopPass | firmware/components/telemetry/telemetry.c:85-138 | one pass of the loop is its four pieces in order |
| Publisher.StrLen | firmware/components/telemetry/telemetry.c:129-129 | the length handed to the client is that of the text before the first NUL |
| PublisherProperties.PassIsARun | firmware/components/telemetry/telemetry.c:85-138 | a loop pass is one of the interleavings the other results are about |
| PublisherProperties.StepKeeps | firmware/components/telemetry/telemetry.c:52-139 | every atomic step keeps the invariant: conservation, order, queue bounds, one in flight, faithful payloads |
| PublisherProperties.EveryNumberIsInOnePlace | firmware/components/telemetry/telemetry.c:52-246 | over any interleaving of submits, connects, disconnects, acknowledgements, stale ones, dropped signals and timeouts each issued number is exactly one of dropped, waiting (at most 32), pending or acknowledged, exactly once |
| PublisherProperties.AcksAscend | firmware/components/telemetry/telemetry.c:96-100 | acknowledged numbers strictly increase, the pending one is newer, and an outstanding id implies connected with a pending reading |
| PublisherProperties.ResendsAreIdentical | firmware/components/telemetry/telemetry.c:104-137 | all sends of one number carry the same bytes, the encoding of its reading |
| Submissions.SentAsSubmitted | firmware/components/telemetry/telemetry.c:217-246 | over any run, everything sent under number n is the encoding of the n-th submission, with exactly its uptime, temperature and clock text and the device's identity, and whatever waits or is pending under n is that submission |
| Submissions.DropsAreExact | firmware/components/telemetry/telemetry.c:102-118 | over any run a number is given up exactly where a submission finds 32 readings waiting, or where the oldest reading cannot be encoded into 768 bytes |
| Submissions.EverythingCanBeDelivered | firmware/components/telemetry/telemetry.c:85-138 | from any state without unhandled signals there is a schedule that delivers the pending reading and then all waiting ones that fit, in order |
| Submissions.SignalsAreKept | firmware/components/telemetry/telemetry.c:52-73 | a signal of the MQTT callback is lost only when eight are waiting |
| Submissions.SentWhileConnected | firmware/components/telemetry/telemetry.c:85-138 | over any run nothing is sent between a disconnection and the next connection |
| PublisherProperties.AcksAnswerSends | firmware/components/telemetry/telemetry.c:96-137 | over any run an acknowledged number was sent before with its reading's payload under exactly the acknowledged id, with no connection, disconnection, timeout or other send in between, if and only if that id is not negative |
| PublisherProperties.EveryAckAnswersASend | firmware/components/telemetry/telemetry.c:96-137 | if every acknowledgement signal of the run carries a non-negative id, every acknowledged number was sent so |
| PublisherProperties.MinusOneAcknowledgesUnsent | firmware/components/telemetry/telemetry.c:96-100 | the run submit, take, acknowledgement -1, receive acknowledges a reading that was never sent |
| PublisherProperties.TimeoutIsExact | firmware/components/telemetry/telemetry.c:121-126 | waiting ends exactly at the timeout, across the tick counter's wrap; before it nothing is sent again |
| PublisherProperties.TimeoutInTicks | firmware/components/telemetry/telemetry.c:121-126 | in ticks: waiting ends at the first look at least the configured number of ticks after the send, and not before, wherever the counter wraps at 2^32 |
| PublisherProperties.PendingUntilAcknowledged | firmware/components/telemetry/telemetry.c:88-138 | over any continuation of any run the pending reading is still pending, unchanged, if and only if its number has not been acknowledged |
| PublisherProperties.PendingCanAlwaysBeDelivered | firmware/components/telemetry/telemetry.c:85-138 | no lost signal wedges the publisher: from any state a connection, one accepted send and its acknowledgement deliver the pending reading, and after a lost acknowledgement so do a timeout, a resend and its acknowledgement |
| Devices.SiteStaysSound | firmware/components/telemetry/telemetry.c:104-137 | over any run of any boards every message sent stays attributable to one board, counter value and reading |
| Devices.OneIdentityOnePayload | firmware/components/identity/boot_id.c:26-48 | over any boards, restarts, crashes and failed commits, two messages with the same boot id and sequence are byte-identical and from the same device |
| Measurements.MessagesTellMeasurements | firmware/components/telemetry/telemetry.c:217-246 | over any number of boards, restarts, crashes and failed commits, the message a board sends under a number is the encoding of exactly the measurement submitted under that number since the start its boot id names |
| Measurements.StartRuns | firmware/components/telemetry/telemetry.c:141-215 | a confirmed start runs the publisher afresh under the next counter's boot id and leaves every other board alone |
| Measurements.WorkSends | firmware/components/telemetry/telemetry.c:85-138 | a running board's step is the publisher's, and what it hands to the client is sent |
| DeviceEvents.TreeParses | firmware/components/telemetry/telemetry_encoding.c:61-92 | the gateway's parser reads every field of the event back: strings, counters, clock text or null, value text, quality; with the value spelled in any other way it reads that spelling |
| DeviceEvents.FieldValues | firmware/components/telemetry/telemetry_encoding.c:61-92 | each of the ten fields, looked up by name, is the event's own value |
| DeviceEvents.DeviceEventIsAccepted | gateway/src/telemetry/event.cpp:126-163 | every event the firmware can send passes all intake checks on its device's topic, and is stored under the device's identity with its bytes |
| DeviceEvents.DeviceEventReads | backend/app/telemetry/validation.py:92-112 | the backend can read every event the firmware can send |
| DeviceEvents.RespelledEventIsAccepted | gateway/src/telemetry/event.cpp:126-163 | such an event passes intake with any spelling of its value that is a JSON number, a finite double and not too long |
| DeviceEvents.RespelledEventReads | backend/app/telemetry/validation.py:92-112 | an event the firmware can send, with its value respelled as such a number, can be read by the backend if and only if Python represents that spelling exactly |
| DeviceEvents.PoisonEvent | backend/app/telemetry/validation.py:92-112 | with the value `1e-9999999999999999999` or `0e99999999999999999999` the event is accepted and converted, and cannot be read by the backend |
| DeviceEvents.PoisonExists | gateway/src/telemetry/event.cpp:126-163 | on the topic `equipment/d1/telemetry` one concrete message, device `d1`, boot `b1`, sequence 0, value `1e-9999999999999999999`, passes intake, is converted, and cannot be read by the backend |
| DeviceEvents.MeasuredTextIsTimestamp | firmware/components/telemetry/telemetry.c:226-237 | the device's clock text for any calendar moment it trusts is a timestamp the gateway accepts, 24 characters long |
| DeviceLink.ArrivalsAgree | gateway/src/sqlite/store.cpp:243-299 | two arrivals with one identity have one payload text |
| DeviceLink.DevicesNeverConflict | gateway/src/sqlite/store.cpp:240-300 | fed from the devices, over any run of the pipeline, storing a message never answers identity conflict |
| DeviceLink.RowsTellMeasurements | gateway/src/sqlite/store.cpp:240-300 | fed from the devices, over any run of the site and of the pipeline, a queued row's payload is the encoding of exactly the measurement its board submitted under the row's number since the start its boot id names |
| Registration.BrokerAdmin.Create | backend/app/integrations/mqtt.py:225-250 | looks the account up, clears a disabled managed leftover, honours a legacy account with the same password, or creates a managed account; every command may be confirmed, not done, or done unheard |
| Registration.BrokerAdmin.Disable | backend/app/integrations/mqtt.py:272-281 | disables a managed account, reports a missing one, refuses an unmanaged one |
| Registration.BrokerAdmin.Delete | backend/app/integrations/mqtt.py:288-291 | removes the account; a missing one counts as removed |
| Registration.DeviceService.RegisterDevice | backend/app/devices/service.py:50-88 | the transaction with its broker step, a COMMIT that may be confirmed, not done or done unheard, and the compensation change registry and broker exactly as `Register` |
| Registration.DeviceService.RemoveDevice | backend/app/devices/service.py:91-117 | the removal with its broker step, a COMMIT that may be confirmed, not done or done unheard, compensation and final cleanup changes registry and broker exactly as `Remove` |
| RegistrationProperties.RegisterAgrees | backend/app/devices/service.py:53-79 | from an agreeing state, registry and broker agree afterwards if and only if not: the account was created unheard; or created, the COMMIT failed and the compensation was not done; or created, the COMMIT took effect unheard and the compensation took effect |
| RegistrationProperties.RemoveAgrees | backend/app/devices/service.py:93-111 | from an agreeing state, registry and broker agree afterwards if and only if not: the account was disabled unheard; or disabled, the COMMIT failed and the compensation was not done; or disabled, the COMMIT took effect unheard and the compensation took effect |
| RegistrationProperties.RunAgreesExactly | backend/app/devices/service.py:50-117 | over every serial run, with any faults, registry and broker agree at every point if and only if no operation is one of those, each judged in the state it meets |
| RegistrationProperties.RunAgrees | backend/app/devices/service.py:50-117 | over every serial run where broker commands and COMMITs are confirmed or not done and compensations are done, and only the final cleanup may fail, exactly the rows marked managed have an enabled managed account |
| RegistrationProperties.RegisterMeans | backend/app/devices/service.py:50-88 | a successful registration admits the device with its password; one that reports a fault leaves the registry alone, unless its COMMIT took effect unheard; no account without the device role, no other id and no existing row ever changes |
| RegistrationProperties.RegisterExactly | backend/app/devices/service.py:56-106 | a registration's outcome, exactly, by the request and the answers of registry and broker: when it succeeds, when only its COMMIT fails, and when gateway, name, id or broker refuse it |
| RegistrationProperties.RemoveMeans | backend/app/devices/service.py:91-117 | a successful removal forgets the row and shuts a managed device out; one that reports a fault forgets it exactly if its COMMIT took effect unheard; recorded history prevents removal; nothing else changes |
| RegistrationProperties.RemoveExactly | backend/app/devices/service.py:109-135 | a removal's outcome, exactly: an unmanaged device needs nothing of the broker, a managed one its account shut out or gone |
| RegistrationProperties.RepeatedRegistrationChangesNothing | backend/app/devices/service.py:66-72 | registering an existing id changes neither registry nor broker, whatever the broker does |
| RegistrationProperties.RemovedIdCanComeBack | backend/app/integrations/mqtt.py:228-232 | after a removal whose cleanup failed, a new registration is not blocked by the disabled leftover and ends with a fresh account |
| RegistrationProperties.RegisterThenRemove | backend/app/devices/service.py:50-117 | registering and removing an unknown id is a round trip |
| History.ReadDeviceHistory | backend/app/telemetry/service.py:144-205 | refuses exactly unordered, unzoned or over-long ranges and unknown devices; otherwise returns the points of the window with their gap flags, truncated exactly when more than 2000 rows lie in range |
| History.GapBefore | backend/app/telemetry/service.py:171-183 | the flag is set exactly for the first point and where two neighbours are not linked |
| History.NewestMarks | backend/app/telemetry/repository.py:50-70 | the fetched rows are the first `limit` in descending (event time, id) order |
| History.WindowIsOrdered | backend/app/telemetry/service.py:157-162 | the window is min(N, 2000) stored rows of the range, each once, ascending by (event time, id) |
| History.WindowIsTheNewest | backend/app/telemetry/repository.py:50-70 | a row of the range that is left out is older than the whole window |
| HistoryRules.PointsAreStored | backend/app/telemetry/service.py:170-199 | every point of a history shows a stored reading of the device: its values, receipt time, clock and the instant it is placed at, within the range, ascending, each reading once |
| HistoryRules.NewestAreShown | backend/app/telemetry/service.py:145-199 | every stored reading of the device in the range is shown, unless there are 2000 points and none of them is older |
| HistoryRules.GapsAreReal | backend/app/telemetry/service.py:165-183 | a point has a gap before it exactly when it is the first or boot, sequence, a distance of more than two minutes or the time source says so |
| History.LineSegments | frontend/src/History.tsx:33-40 | the loop computes the segments, on any points |
| History.SegmentsPartition | frontend/src/History.tsx:33-40 | segments joined in order are the points; none is empty, each but the first starts at a gap, and no gap is inside one |
| History.LinesFollowTheData | frontend/src/History.tsx:33-40 | inside a drawn line boot and time source are constant, sequence numbers increase by exactly one and neighbours are at most two minutes apart; at each break some of that fails |

## Left out

- SQLite and PostgreSQL internals, SQL text, savepoints and row locks: a table is a map, a transaction an atomic step that may fail, and a device lock the serialization of batches.
- A COMMIT of the gateway's SQLite queue that takes effect although it reports an error: here a failed transaction leaves the tables as they were.
- Schema creation, migration and version checks of the queue database, and `quarantined_at`, a timestamp nothing reads.
- libcurl, libmosquitto, paho, FreeRTOS, ESP-IDF and FastAPI: their effects are parameters and steps.
- Most of request validation in the backend: a batch item is a reading, with a flag for what PostgreSQL reports as a data error, or an already rejected result. `Pipeline` takes that decoding as any function that keeps identities; `Progress` asks in addition that a rejection of an accepted event is built as `Validation.Refusal` builds it.
- Telemetry ids the database sequence skips: an id here is used only when a row is stored.
- Pending counts, the contents of log lines, retry backoff, worker start and stop, configuration parsing.
- Floating point: temperatures are fixed point with four decimals and a sign, backend values are reals. `strtof` and the rounding of `%.4f` are not modelled.
- Malformed MQTT payloads are one case; which of several faults in a text with more than one is reported first is not modelled.
- The bounds of Python numbers are those of CPython on a 64-bit platform: 4300 digits for an integer, and for a Decimal a scale of at least -1999999999999999997 and an adjusted exponent of at most 999999999999999999. Lone surrogates in strings, which Python would read, do not occur in what the gateway accepts.
- Bytes that are no UTF-8 in the gateway's payloads: they are malformed JSON there.
- Null pointers in the encoder's event and in the firmware's other entry points.
- Intake.OnlyAcceptedEver: takes the gateway's own clock text to be at most 400 characters; the gateway prints about 24.
- DeviceIdentity.IdentitiesAreFresh: boards have distinct MAC addresses, and flash is never erased or rolled back, as the firmware's start-up demands.
- DeviceEvents.DeviceEventIsAccepted: a device id that contains `/`, `+` or `#`, which the device's own configuration refuses, has no topic.
- RegistrationProperties.RunAgrees: operations do not overlap; `remove_device` does its final cleanup after the row lock is gone, so a concurrent registration of the same id is outside this model.
- `configure_existing_mqtt`, presence heartbeats, ownership checks, password hashes and the legacy account file's format.
- `list_alert_episodes`, device status lists, the other React components, HTML escaping and time zone formatting.
- Wi-Fi, sampling, web input and clock synchronisation on the device: a submit step brings any temperature, uptime and clock text.
- `release_packages/version01`, an older snapshot of the same code.
