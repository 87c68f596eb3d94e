/**
 The delivery pipeline as one system: intake, the forwarder's claim, post and outcome as separate
 steps, and the backend, with lost requests, lost and late answers, storage faults, rollbacks, other
 traffic and gateway restarts in between.
 */
module Pipeline {
  import opened Options
  import opened Events
  import opened Deliveries
  import opened Store
  import opened StoreProperties
  import opened Forwarder
  import opened ForwarderProperties
  import Answers
  import Ingestion
  import IngestionProperties
  import Json
  import Outcomes
  import Requests
  import Telemetry
  import Verdicts

  /** What the backend's validation makes of one event of a request. */
  datatype Decoding = Readable(reading: Telemetry.Reading, storable: bool) | Unreadable(result: Outcomes.ResultItem)

  type Decoder = Event -> Decoding

  /** A readable event keeps its identity, and an unreadable one is rejected. */
  ghost predicate Faithful(decode: Decoder) {
    forall e: Event ::
      match decode(e)
      case Readable(reading, _) => reading.id == e.id
      case Unreadable(result) => result.outcome.Rejected?
  }

  /** Where the forwarder's current drain stands. */
  datatype Phase = Resting | Posted(claims: seq<Claim>) | Replied(claims: seq<Claim>, http: Http)

  /** `inserted` remembers the events intake reported stored; `wire` the requests ever sent. */
  datatype System = System(
    tables: Tables,
    phase: Phase,
    backend: Ingestion.Db,
    inserted: set<Event>,
    wire: set<seq<Event>>)

  /** The database clock at an insert and at the presence update after it. */
  datatype Ticks = Ticks(now: int, seenAt: int)

  datatype Step =
    | Intake(e: Event)
    | TakeClaim
    | Deliver(gateway: string, batchId: string, ticks: seq<Ticks>)   // reads, commits, and the answer arrives
    | Fail(http: Http)                                              // no answer the forwarder can act on
    | DeliverLate(request: seq<Event>, gateway: string, ticks: seq<Ticks>)  // commits, unheard
    | Elsewhere(commit: IngestionProperties.Commit)                  // other gateways, registry changes
    | Finish(faults: Faults)
    | Reboot

  function ItemOf(decode: Decoder, e: Event, tick: Ticks): Ingestion.Item {
    match decode(e)
    case Readable(reading, storable) => Ingestion.Valid(reading, storable, tick.now, tick.seenAt)
    case Unreadable(result) => Ingestion.Refused(result)
  }

  function ItemsOf(decode: Decoder, events: seq<Event>, ticks: seq<Ticks>): (items: seq<Ingestion.Item>)
    requires |ticks| == |events|
    ensures |items| == |events|
    ensures forall i :: 0 <= i < |events| ==> items[i] == ItemOf(decode, events[i], ticks[i])
  {
    seq(|events|, i requires 0 <= i < |events| => ItemOf(decode, events[i], ticks[i]))
  }

  /** The backend's answer to a committed batch. */
  function Reply(batchId: string, results: seq<Outcomes.ResultItem>): Http {
    Answered(200, Some(Outcomes.ResponseDoc(batchId, results)), Json.Bytes(Answers.AnswerText(batchId, results)))
  }

  /** Whether the step can happen.  The backend only gets to commit a request it can read. */
  ghost predicate Enabled(s: System, step: Step) {
    match step
    case Intake(_) => true
    case TakeClaim => s.phase.Resting? && ClaimHead(s.tables, MAX_BATCH).Ok?
    case Deliver(gateway, batchId, ticks) =>
      && s.phase.Posted? && |ticks| == |s.phase.claims| && Requests.RequestReads(EventsOf(s.phase.claims))
      && Ingestion.Eligible(s.backend, gateway) && 0 < Json.Bytes(batchId) <= 128
    case Fail(http) => s.phase.Posted? && React(s.phase.claims, http).HandBack?
    case DeliverLate(request, gateway, ticks) =>
      && request in s.wire && |ticks| == |request| && Requests.RequestReads(request)
      && Ingestion.Eligible(s.backend, gateway)
    case Elsewhere(_) => true
    case Finish(_) => s.phase.Replied?
    case Reboot => true
  }

  function Next(decode: Decoder, s: System, step: Step): System
    requires Enabled(s, step)
  {
    match step
    case Intake(e) =>
      var (t, r) := Insert(s.tables, e);
      s.(tables := t, inserted := if r == Inserted then s.inserted + {e} else s.inserted)
    case TakeClaim =>
      var (t, claims) := ClaimHead(s.tables, MAX_BATCH).value;
      if claims == [] then s.(tables := t)
      else s.(tables := t, phase := Posted(claims), wire := s.wire + {EventsOf(claims)})
    case Deliver(gateway, batchId, ticks) =>
      var (db, results) :=
        Ingestion.IngestItems(s.backend, gateway, ItemsOf(decode, EventsOf(s.phase.claims), ticks));
      s.(backend := db,
         phase := Replied(s.phase.claims, Reply(batchId, results)))
    case Fail(http) => s.(phase := Replied(s.phase.claims, http))
    case DeliverLate(request, gateway, ticks) =>
      s.(backend := Ingestion.IngestItems(s.backend, gateway, ItemsOf(decode, request, ticks)).0)
    case Elsewhere(commit) => s.(backend := IngestionProperties.Committed(s.backend, commit))
    case Finish(faults) =>
      s.(tables := Settle(s.tables, s.phase.claims, React(s.phase.claims, s.phase.http), faults).0,
         phase := Resting)
    case Reboot => s.(tables := Recovered(s.tables), phase := Resting)
  }

  // The invariant

  /** The backend holds the event with equal immutable content. */
  predicate Arrived(db: Ingestion.Db, decode: Decoder, e: Event) {
    && decode(e).Readable?
    && e.id in db.telemetry
    && db.telemetry[e.id].content == decode(e).reading.content
  }

  predicate Queued(t: Tables, e: Event) {
    e.id in t.queue && t.queue[e.id].payload == e.payload && t.queue[e.id].receivedAt == e.receivedAt
  }

  predicate Shelved(t: Tables, e: Event) {
    e.id in t.quarantine && t.quarantine[e.id].payload == e.payload && t.quarantine[e.id].receivedAt == e.receivedAt
  }

  /** The event is in the queue, in quarantine, or in the backend. */
  predicate Safe(s: System, decode: Decoder, e: Event) {
    Queued(s.tables, e) || Shelved(s.tables, e) || Arrived(s.backend, decode, e)
  }

  /** The claims of the running drain are still held, and hand out the stored bytes. */
  predicate Held(t: Tables, claims: seq<Claim>) {
    && 0 < |claims| <= MAX_BATCH
    && Distinct(claims) && Authentic(t, claims)
    && forall i :: 0 <= i < |claims| ==>
         claims[i].state == InFlight && claims[i].attempts > 0 && Holds(t, claims[i])
  }

  predicate Confirms(d: Decision) {
    d.action == Action.Accepted || d.action == Action.Duplicate
  }

  /** Whatever the forwarder reads as confirmed has arrived. */
  predicate Honest(db: Ingestion.Db, decode: Decoder, claims: seq<Claim>, reaction: Reaction) {
    reaction.Decide? && |reaction.decisions| == |claims| ==>
      forall i :: 0 <= i < |claims| && Confirms(reaction.decisions[i]) ==> Arrived(db, decode, claims[i].event)
  }

  predicate PhaseHolds(s: System, decode: Decoder) {
    match s.phase
    case Resting => true
    case Posted(claims) => Held(s.tables, claims)
    case Replied(claims, http) =>
      Held(s.tables, claims) && Honest(s.backend, decode, claims, React(claims, http))
  }

  ghost predicate Inv(s: System, decode: Decoder) {
    && WellFormed(s.tables)
    && Ingestion.SoundDb(s.backend)
    && (forall e :: e in s.inserted ==> Safe(s, decode, e))
    && PhaseHolds(s, decode)
  }

  // Each step keeps it

  lemma BackendGrows(s: System, decode: Decoder, db: Ingestion.Db)
    requires Inv(s, decode) && Ingestion.SoundDb(db) && IngestionProperties.Extends(db, s.backend)
    ensures Inv(s.(backend := db), decode)
  {
    hide WellFormed, Ingestion.SoundDb, React, Held;
    var u := s.(backend := db);
    forall e | e in s.inserted ensures Safe(u, decode, e) {
      assert Safe(s, decode, e);
    }
  }

  lemma IntakeKeeps(s: System, decode: Decoder, e: Event)
    requires Inv(s, decode)
    ensures Inv(Next(decode, s, Intake(e)), decode)
  {
    hide React, Ingestion.SoundDb, Honest;
    var u := Next(decode, s, Intake(e));
    StepKeepsWellFormed(s.tables, InsertOp(e));
    forall x | x in u.inserted ensures Safe(u, decode, x) {
      if x in s.inserted {
        assert Safe(s, decode, x);
      }
    }
  }

  lemma ClaimKeeps(s: System, decode: Decoder)
    requires Inv(s, decode) && Enabled(s, TakeClaim)
    ensures Inv(Next(decode, s, TakeClaim), decode)
  {
    hide React, Ingestion.SoundDb, Honest, ClaimHead, WellFormed;
    var (t, claims) := ClaimHead(s.tables, MAX_BATCH).value;
    var u := Next(decode, s, TakeClaim);
    StepKeepsWellFormed(s.tables, ClaimOp(MAX_BATCH));
    ClaimTakesTheHead(s.tables, MAX_BATCH);
    ClaimsAreDistinct(s.tables, MAX_BATCH);
    forall e | e in s.inserted ensures Safe(u, decode, e) {
      assert Safe(s, decode, e);
      if e.id in s.tables.queue {
        StepKeepsRow(s.tables, ClaimOp(MAX_BATCH), e.id);
      }
    }
  }

  lemma DeliverIsHonest(s: System, decode: Decoder, gateway: string, batchId: string, ticks: seq<Ticks>)
    requires Faithful(decode) && Enabled(s, Deliver(gateway, batchId, ticks))
    ensures
      var u := Next(decode, s, Deliver(gateway, batchId, ticks));
      Honest(u.backend, decode, s.phase.claims, React(s.phase.claims, u.phase.http))
  {
    hide Requests.RequestReads, Json.Bytes, Outcomes.ResponseDoc, Verdicts.Decisions, IngestionProperties.True,
         Verdicts.Names;
    var claims := s.phase.claims;
    var events := EventsOf(claims);
    var items := ItemsOf(decode, events, ticks);
    var u := Next(decode, s, Deliver(gateway, batchId, ticks));
    var (db, results) := Ingestion.IngestItems(s.backend, gateway, items);
    IngestionProperties.AnswersAreTrue(s.backend, gateway, items);
    Verdicts.BackendAnswerIsUnderstood(batchId, results, Forwarder.IdsOf(claims));
    var reaction := React(claims, u.phase.http);
    if reaction.Decide? {
      assert reaction.decisions == Verdicts.DecisionsOf(results);
      forall i | 0 <= i < |claims| && Confirms(reaction.decisions[i])
        ensures Arrived(db, decode, claims[i].event)
      {
        assert IngestionProperties.True(db, gateway, items[i], results[i]);
        TrueAnswerArrived(db, decode, gateway, claims[i].event, ticks[i], results[i]);
      }
    }
  }

  lemma TrueAnswerArrived(
      db: Ingestion.Db, decode: Decoder, gateway: string, e: Event, tick: Ticks, result: Outcomes.ResultItem)
    requires Faithful(decode)
    requires IngestionProperties.True(db, gateway, ItemOf(decode, e, tick), result)
    requires result.outcome.Accepted? || result.outcome.Duplicate?
    ensures Arrived(db, decode, e)
  {
    var d := decode(e);
  }

  lemma DeliverKeeps(s: System, decode: Decoder, gateway: string, batchId: string, ticks: seq<Ticks>)
    requires Inv(s, decode) && Faithful(decode) && Enabled(s, Deliver(gateway, batchId, ticks))
    ensures Inv(Next(decode, s, Deliver(gateway, batchId, ticks)), decode)
  {
    hide Requests.RequestReads, React, Ingestion.SoundDb, Honest, WellFormed, Ingestion.IngestItems, Held, Json.Bytes,
         Safe;
    var items := ItemsOf(decode, EventsOf(s.phase.claims), ticks);
    var db := Ingestion.IngestItems(s.backend, gateway, items).0;
    Ingestion.IngestKeepsSound(s.backend, gateway, items);
    IngestionProperties.IngestExtends(s.backend, gateway, items);
    BackendGrows(s, decode, db);
    DeliverIsHonest(s, decode, gateway, batchId, ticks);
    SafeIgnoresPhase(s.(backend := db), decode, Next(decode, s, Deliver(gateway, batchId, ticks)).phase);
  }

  lemma SafeIgnoresPhase(s: System, decode: Decoder, phase: Phase)
    ensures forall e :: Safe(s, decode, e) ==> Safe(s.(phase := phase), decode, e)
  {
  }

  /** An outcome loses nothing: what leaves the queue is in quarantine or has arrived. */
  lemma FinishKeeps(s: System, decode: Decoder, faults: Faults)
    requires Inv(s, decode) && Enabled(s, Finish(faults))
    ensures Inv(Next(decode, s, Finish(faults)), decode)
  {
    hide React, Ingestion.SoundDb, WellFormed, Settle, Held;
    var claims, t := s.phase.claims, s.tables;
    var reaction := React(claims, s.phase.http);
    var u := Next(decode, s, Finish(faults));
    SettleKeepsWellFormed(t, claims, reaction, faults);
    forall e | e in s.inserted ensures Safe(u, decode, e) {
      assert Safe(s, decode, e);
      SettleKeepsSafe(s, decode, claims, reaction, faults, e);
    }
  }

  lemma SettleKeepsSafe(
      s: System, decode: Decoder, claims: seq<Claim>, reaction: Reaction, faults: Faults, e: Event)
    requires Safe(s, decode, e) && Held(s.tables, claims) && Honest(s.backend, decode, claims, reaction)
    ensures
      var t := Settle(s.tables, claims, reaction, faults).0;
      Queued(t, e) || Shelved(t, e) || Arrived(s.backend, decode, e)
  {
    hide Settle, Distinct;
    var t := Settle(s.tables, claims, reaction, faults).0;
    SettleKeepsQuarantine(s.tables, claims, reaction, faults);
    if Queued(s.tables, e) {
      SettleConserves(s.tables, claims, reaction, faults, e.id);
      if Confirmed(claims, reaction, e.id) {
        var i :| 0 <= i < |claims| && claims[i].event.id == e.id &&
          Confirms(reaction.decisions[i]);
        assert claims[i].event == e;
      }
    }
  }

  lemma SettleKeepsQuarantine(t: Tables, claims: seq<Claim>, reaction: Reaction, faults: Faults)
    ensures
      var w := Settle(t, claims, reaction, faults).0;
      forall q :: q in t.quarantine ==> q in w.quarantine && w.quarantine[q] == t.quarantine[q]
  {
    hide ApplyAll, Outcome;
    var w := Settle(t, claims, reaction, faults).0;
    var retries := Retries(|claims|);
    if Commits(t, claims, reaction, faults) {
      ApplyExactly(t, claims, reaction.decisions);
      OutcomeKeepsQuarantine(t, w, claims, reaction.decisions);
    } else if w != t {
      ApplyExactly(t, claims, retries);
      OutcomeKeepsQuarantine(t, w, claims, retries);
    }
  }

  lemma SettleKeepsWellFormed(t: Tables, claims: seq<Claim>, reaction: Reaction, faults: Faults)
    requires WellFormed(t)
    ensures WellFormed(Settle(t, claims, reaction, faults).0)
  {
    hide ApplyAll, WellFormed;
    var w := Settle(t, claims, reaction, faults).0;
    var retries := Retries(|claims|);
    if w != t {
      StepKeepsWellFormed(t, ApplyOp(claims, retries));
      if reaction.Decide? {
        StepKeepsWellFormed(t, ApplyOp(claims, reaction.decisions));
      }
    }
  }

  lemma RebootKeeps(s: System, decode: Decoder)
    requires Inv(s, decode)
    ensures Inv(Next(decode, s, Reboot), decode)
  {
    hide React, Ingestion.SoundDb, Honest, Held;
    forall e | e in s.inserted ensures Safe(Next(decode, s, Reboot), decode, e) {
      assert Safe(s, decode, e);
    }
  }

  lemma CommitKeeps(db: Ingestion.Db, c: IngestionProperties.Commit)
    requires Ingestion.SoundDb(db)
    ensures
      var after := IngestionProperties.Committed(db, c);
      Ingestion.SoundDb(after) && IngestionProperties.Extends(after, db)
  {
    hide Ingestion.IngestItems;
    if c.Batch? {
      Ingestion.IngestKeepsSound(db, c.gateway, c.items);
      IngestionProperties.IngestExtends(db, c.gateway, c.items);
    }
  }

  lemma StepKeeps(s: System, decode: Decoder, step: Step)
    requires Inv(s, decode) && Faithful(decode) && Enabled(s, step)
    ensures Inv(Next(decode, s, step), decode)
    ensures IngestionProperties.Extends(Next(decode, s, step).backend, s.backend)
    ensures s.inserted <= Next(decode, s, step).inserted
  {
    hide Requests.RequestReads, React, Ingestion.SoundDb, Honest, WellFormed, Ingestion.IngestItems, Held, Safe,
         Json.Bytes, Inv, Settle, ClaimHead, Insert;
    match step
    case Intake(e) => IntakeKeeps(s, decode, e);
    case TakeClaim => ClaimKeeps(s, decode);
    case Deliver(gateway, batchId, ticks) =>
      DeliverKeeps(s, decode, gateway, batchId, ticks);
      IngestionProperties.IngestExtends(s.backend, gateway, ItemsOf(decode, EventsOf(s.phase.claims), ticks));
    case Fail(http) => FailKeeps(s, decode, http);
    case DeliverLate(request, gateway, ticks) =>
      LateKeeps(s, decode, request, gateway, ticks);
    case Elsewhere(commit) => ElsewhereKeeps(s, decode, commit);
    case Finish(faults) => FinishKeeps(s, decode, faults);
    case Reboot => RebootKeeps(s, decode);
  }

  lemma FailKeeps(s: System, decode: Decoder, http: Http)
    requires Inv(s, decode) && Enabled(s, Fail(http))
    ensures Inv(Next(decode, s, Fail(http)), decode)
  {
    hide React, Ingestion.SoundDb, WellFormed, Held, Safe;
    SafeIgnoresPhase(s, decode, Next(decode, s, Fail(http)).phase);
  }

  lemma LateKeeps(s: System, decode: Decoder, request: seq<Event>, gateway: string, ticks: seq<Ticks>)
    requires Inv(s, decode) && Enabled(s, DeliverLate(request, gateway, ticks))
    ensures Inv(Next(decode, s, DeliverLate(request, gateway, ticks)), decode)
    ensures IngestionProperties.Extends(Next(decode, s, DeliverLate(request, gateway, ticks)).backend, s.backend)
  {
    hide Requests.RequestReads, Ingestion.IngestItems, WellFormed, Safe, Held, Honest, React;
    var items := ItemsOf(decode, request, ticks);
    Ingestion.IngestKeepsSound(s.backend, gateway, items);
    IngestionProperties.IngestExtends(s.backend, gateway, items);
    BackendGrows(s, decode, Ingestion.IngestItems(s.backend, gateway, items).0);
  }

  lemma ElsewhereKeeps(s: System, decode: Decoder, commit: IngestionProperties.Commit)
    requires Inv(s, decode)
    ensures Inv(Next(decode, s, Elsewhere(commit)), decode)
    ensures IngestionProperties.Extends(Next(decode, s, Elsewhere(commit)).backend, s.backend)
  {
    hide Ingestion.IngestItems, WellFormed, Safe, Held, Honest, React;
    CommitKeeps(s.backend, commit);
    BackendGrows(s, decode, IngestionProperties.Committed(s.backend, commit));
  }

  // Where rows come from

  /** Rows only come from rows. */
  predicate FromRows(t: Tables, w: Tables) {
    && (forall id :: id in w.queue ==>
          && id in t.queue && w.queue[id].payload == t.queue[id].payload
          && w.queue[id].receivedAt == t.queue[id].receivedAt)
    && (forall id :: id in w.quarantine ==>
          || (id in t.quarantine && w.quarantine[id].payload == t.quarantine[id].payload)
          || (id in t.queue && w.quarantine[id].payload == t.queue[id].payload))
  }

  lemma OutcomeComesFromRows(t: Tables, w: Tables, claims: seq<Claim>, decisions: seq<Decision>)
    requires |claims| == |decisions| && Authentic(t, claims) && Outcome(t, w, claims, decisions)
    ensures FromRows(t, w)
  {
    forall id | id in w.queue ensures id in t.queue && Stays(t, w, id) {
      assert QueueOutcome(t, w, claims, decisions, id);
    }
    forall id | id in w.quarantine && id !in t.quarantine
      ensures id in t.queue && w.quarantine[id].payload == t.queue[id].payload
    {
      assert QueueOutcome(t, w, claims, decisions, id);
      var i :| 0 <= i < |claims| && claims[i].event.id == id && decisions[i].action == Action.Rejected;
      assert Condemns(w, claims[i], decisions[i]);
    }
    forall id | id in t.quarantine ensures id in w.quarantine && w.quarantine[id] == t.quarantine[id] {
      assert QueueOutcome(t, w, claims, decisions, id);
    }
  }

  lemma SettleComesFromRows(t: Tables, claims: seq<Claim>, reaction: Reaction, faults: Faults)
    requires Authentic(t, claims)
    ensures FromRows(t, Settle(t, claims, reaction, faults).0)
  {
    hide ApplyAll, Outcome, Authentic;
    var w := Settle(t, claims, reaction, faults).0;
    var retries := Retries(|claims|);
    if Commits(t, claims, reaction, faults) {
      ApplyExactly(t, claims, reaction.decisions);
      OutcomeComesFromRows(t, w, claims, reaction.decisions);
    } else if w != t {
      ApplyExactly(t, claims, retries);
      OutcomeComesFromRows(t, w, claims, retries);
    }
  }

  /** What a step of the pipeline does to the rows, intake aside. */
  lemma StepComesFromRows(s: System, decode: Decoder, step: Step)
    requires Inv(s, decode) && Enabled(s, step) && !step.Intake?
    ensures FromRows(s.tables, Next(decode, s, step).tables)
  {
    hide Requests.RequestReads, React, Settle, ClaimHead, Ingestion.SoundDb, Ingestion.IngestItems, Authentic, Honest;
    match step
    case TakeClaim =>
      ClaimTakesTheHead(s.tables, MAX_BATCH);
      var u := Next(decode, s, step).tables;
      forall id | id in u.queue ensures id in s.tables.queue && Stays(s.tables, u, id) {
        StepKeepsRow(s.tables, ClaimOp(MAX_BATCH), id);
      }
    case Finish(faults) =>
      SettleComesFromRows(s.tables, s.phase.claims, React(s.phase.claims, s.phase.http), faults);
    case _ =>
  }

  // Whole runs

  ghost predicate Possible(decode: Decoder, s: System, steps: seq<Step>)
    decreases |steps|
  {
    steps == [] || (Enabled(s, steps[0]) && Possible(decode, Next(decode, s, steps[0]), steps[1..]))
  }

  function Run(decode: Decoder, s: System, steps: seq<Step>): System
    requires Possible(decode, s, steps)
    decreases |steps|
  {
    if steps == [] then s else Run(decode, Next(decode, s, steps[0]), steps[1..])
  }

  function Initial(backend: Ingestion.Db): System {
    System(Tables(map[], map[]), Resting, backend, {}, {})
  }

  lemma {:induction false} RunKeeps(decode: Decoder, s: System, steps: seq<Step>)
    requires Faithful(decode) && Inv(s, decode) && Possible(decode, s, steps)
    ensures
      var u := Run(decode, s, steps);
      Inv(u, decode) && IngestionProperties.Extends(u.backend, s.backend) && s.inserted <= u.inserted
    decreases |steps|
  {
    hide Inv, Next, Enabled;
    if steps != [] {
      StepKeeps(s, decode, steps[0]);
      RunKeeps(decode, Next(decode, s, steps[0]), steps[1..]);
    }
  }

  /**
   No loss, end to end: at every point of every run, each event intake reported stored is in the queue
   or in quarantine with its bytes and receipt time, or in the backend with equal immutable content.
   */
  lemma NothingIsLost(decode: Decoder, backend: Ingestion.Db, steps: seq<Step>, e: Event)
    requires Faithful(decode) && Ingestion.SoundDb(backend)
    requires Possible(decode, Initial(backend), steps)
    requires e in Run(decode, Initial(backend), steps).inserted
    ensures Safe(Run(decode, Initial(backend), steps), decode, e)
  {
    hide Next, Enabled, Run, Possible, Safe, Ingestion.SoundDb;
    RunKeeps(decode, Initial(backend), steps);
  }

  /** Exactly once: whatever happens after, a stored row keeps its id, content and receipt times. */
  lemma StoredOnceAndForAll(decode: Decoder, backend: Ingestion.Db, steps: seq<Step>, more: seq<Step>)
    requires Faithful(decode) && Ingestion.SoundDb(backend)
    requires Possible(decode, Initial(backend), steps)
    requires Possible(decode, Run(decode, Initial(backend), steps), more)
    ensures
      var s := Run(decode, Initial(backend), steps);
      IngestionProperties.Extends(Run(decode, s, more).backend, s.backend)
  {
    hide Next, Enabled, Run, Possible, Ingestion.SoundDb;
    RunKeeps(decode, Initial(backend), steps);
    RunKeeps(decode, Run(decode, Initial(backend), steps), more);
  }

  lemma {:induction false} RunKeepsWire(decode: Decoder, s: System, steps: seq<Step>)
    requires Possible(decode, s, steps)
    ensures s.wire <= Run(decode, s, steps).wire
    decreases |steps|
  {
    hide Enabled, ClaimHead, Insert, Settle, React, Ingestion.IngestItems, Requests.RequestReads, Json.Bytes;
    if steps != [] {
      RunKeepsWire(decode, Next(decode, s, steps[0]), steps[1..]);
    }
  }

  /** A request once sent may reach the backend at any time after, whatever became of its drain. */
  lemma LateIsPossible(decode: Decoder, s: System, steps: seq<Step>, gateway: string, ticks: seq<Ticks>)
    requires Enabled(s, TakeClaim) && Next(decode, s, TakeClaim).phase.Posted?
    requires Possible(decode, Next(decode, s, TakeClaim), steps)
    ensures
      var request := EventsOf(Next(decode, s, TakeClaim).phase.claims);
      var u := Run(decode, Next(decode, s, TakeClaim), steps);
      |ticks| == |request| && Requests.RequestReads(request) && Ingestion.Eligible(u.backend, gateway) ==>
        Enabled(u, DeliverLate(request, gateway, ticks))
  {
    hide ClaimHead, Run, Possible, Requests.RequestReads;
    RunKeepsWire(decode, Next(decode, s, TakeClaim), steps);
  }

  function Intakes(arrivals: seq<Event>): (steps: seq<Step>)
    ensures |steps| == |arrivals| && forall i :: 0 <= i < |steps| ==> steps[i] == Intake(arrivals[i])
  {
    seq(|arrivals|, i requires 0 <= i < |arrivals| => Intake(arrivals[i]))
  }

  lemma {:induction false} IntakesInsert(decode: Decoder, s: System, arrivals: seq<Event>)
    ensures Possible(decode, s, Intakes(arrivals))
    ensures
      var u := Run(decode, s, Intakes(arrivals));
      u.tables == Inserts(s.tables, arrivals) && u.phase == s.phase && u.backend == s.backend && u.wire == s.wire
    decreases |arrivals|
  {
    hide Insert;
    if arrivals != [] {
      assert Intakes(arrivals)[1..] == Intakes(arrivals[1..]);
      IntakesInsert(decode, Next(decode, s, Intake(arrivals[0])), arrivals[1..]);
    }
  }

  /** After the claim, and whatever arrives while the forwarder waits for the answer. */
  ghost function Waiting(decode: Decoder, s: System, arrivals: seq<Event>): System
    requires Enabled(s, TakeClaim)
  {
    IntakesInsert(decode, Next(decode, s, TakeClaim), arrivals);
    Run(decode, Next(decode, s, TakeClaim), Intakes(arrivals))
  }

  /** The steps are the forwarder's: taking, inserts, an answer and finishing make exactly one drain. */
  lemma DrainIsTheseSteps(
      decode: Decoder, s: System, arrivals: seq<Event>, u: System, answer: Step, v: System, faults: Faults)
    requires Enabled(s, TakeClaim) && u == Waiting(decode, s, arrivals) && u.phase.Posted?
    requires (answer.Deliver? || answer.Fail?) && Enabled(u, answer) && v == Next(decode, u, answer)
    requires faults.claim.None?
    ensures Enabled(v, Finish(faults))
    ensures Next(decode, v, Finish(faults)).tables == Drain(s.tables, v.phase.http, arrivals, faults).0
  {
    hide Requests.RequestReads, Run, Possible, Settle, React, ClaimHead, Json.Bytes;
    IntakesInsert(decode, Next(decode, s, TakeClaim), arrivals);
  }

  /** In any run, outcomes of the running drain always apply when storage works. */
  lemma OutcomesAlwaysApply(decode: Decoder, backend: Ingestion.Db, steps: seq<Step>)
    requires Faithful(decode) && Ingestion.SoundDb(backend)
    requires Possible(decode, Initial(backend), steps)
    ensures
      var s := Run(decode, Initial(backend), steps);
      s.phase.Replied? ==>
        Settle(s.tables, s.phase.claims, React(s.phase.claims, s.phase.http), NO_FAULTS).1 != StorageError
  {
    hide Next, Enabled, Run, Possible, Ingestion.SoundDb, React, Safe, Honest, ApplyAll;
    RunKeeps(decode, Initial(backend), steps);
    var s := Run(decode, Initial(backend), steps);
    if s.phase.Replied? {
      var claims := s.phase.claims;
      var reaction := React(claims, s.phase.http);
      HandBackResults(claims, s.phase.http);
      HeldApplies(s.tables, claims, Retries(|claims|));
      if reaction.Decide? {
        ReactionIsWellReasoned(claims, s.phase.http);
        HeldApplies(s.tables, claims, reaction.decisions);
      }
    }
  }

  lemma HeldApplies(t: Tables, claims: seq<Claim>, decisions: seq<Decision>)
    requires WellFormed(t) && Held(t, claims) && |decisions| == |claims|
    requires forall d :: d in decisions ==> WellReasoned(d)
    ensures Apply(t, claims, decisions).Ok?
  {
    hide ApplyAll;
    forall i | 0 <= i < |claims| ensures Admissible(t, claims[i], decisions[i]) {
      assert decisions[i] in decisions;
    }
    ApplyExactly(t, claims, decisions);
  }
}
