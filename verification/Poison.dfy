/**
 What a queued event that the backend cannot read does to the pipeline: no claim that holds it is ever
 decided, so it stays queued in every run, and so does whatever keeps being claimed with it.
 */
module Poison {
  import opened Events
  import opened Store
  import opened StoreProperties
  import opened Forwarder
  import opened ForwarderProperties
  import opened Pipeline
  import Batch
  import Ingestion
  import Intake
  import Json
  import Requests

  // Everything queued is accepted

  /** Everything intake stores in the run is what intake accepts, with the gateway's own clock text. */
  ghost predicate OnlyAccepted(steps: seq<Step>) {
    forall i :: 0 <= i < |steps| && steps[i].Intake? ==>
      Batch.Accepted(steps[i].e) && |steps[i].e.receivedAt| <= 400
  }

  lemma StepKeepsAllAccepted(decode: Decoder, s: System, step: Step)
    requires Faithful(decode) && Inv(s, decode) && Enabled(s, step) && Intake.AllAccepted(s.tables)
    requires step.Intake? ==> Batch.Accepted(step.e) && |step.e.receivedAt| <= 400
    ensures Intake.AllAccepted(Next(decode, s, step).tables)
  {
    hide Batch.Accepted, Next, Enabled, WellFormed;
    StepKeeps(s, decode, step);
    if step.Intake? {
      InsertKeepsAllAccepted(decode, s, step.e);
    } else {
      StepComesFromRows(s, decode, step);
    }
  }

  lemma InsertKeepsAllAccepted(decode: Decoder, s: System, e: Event)
    requires Intake.AllAccepted(s.tables) && Batch.Accepted(e) && |e.receivedAt| <= 400
    ensures Intake.AllAccepted(Next(decode, s, Intake(e)).tables)
  {
    hide Batch.Accepted;
  }

  lemma OnlyAcceptedTail(steps: seq<Step>)
    requires steps != [] && OnlyAccepted(steps)
    ensures OnlyAccepted(steps[1..])
  {
    hide Batch.Accepted;
    forall i | 0 <= i < |steps| - 1 && steps[1..][i].Intake?
      ensures Batch.Accepted(steps[1..][i].e) && |steps[1..][i].e.receivedAt| <= 400
    {
      assert steps[1..][i] == steps[i + 1];
    }
  }

  // A decided claim was read

  /** The answer at hand decides the claim only if the backend read the request. */
  ghost predicate DecidedWasRead(s: System) {
    s.phase.Replied? && React(s.phase.claims, s.phase.http).Decide? ==> Requests.RequestReads(EventsOf(s.phase.claims))
  }

  lemma StepKeepsDecidedWasRead(decode: Decoder, s: System, step: Step)
    requires DecidedWasRead(s) && Enabled(s, step)
    ensures DecidedWasRead(Next(decode, s, step))
  {
    hide React, Requests.RequestReads, Ingestion.IngestItems, ClaimHead, Settle, Insert, Json.Bytes;
  }

  /** What holds at every point of a run that stores only accepted events. */
  ghost predicate Sane(s: System, decode: Decoder) {
    Inv(s, decode) && Intake.AllAccepted(s.tables) && DecidedWasRead(s)
  }

  lemma InitialIsSane(decode: Decoder, backend: Ingestion.Db)
    requires Ingestion.SoundDb(backend)
    ensures Sane(Initial(backend), decode)
  {
    hide Ingestion.SoundDb;
  }

  lemma StepKeepsSane(decode: Decoder, s: System, step: Step)
    requires Faithful(decode) && Sane(s, decode) && Enabled(s, step)
    requires step.Intake? ==> Batch.Accepted(step.e) && |step.e.receivedAt| <= 400
    ensures Sane(Next(decode, s, step), decode)
  {
    hide Next, Enabled, Inv, Intake.AllAccepted, Batch.Accepted, DecidedWasRead;
    StepKeeps(s, decode, step);
    StepKeepsAllAccepted(decode, s, step);
    StepKeepsDecidedWasRead(decode, s, step);
  }

  lemma {:induction false} RunKeepsSane(decode: Decoder, s: System, steps: seq<Step>)
    requires Faithful(decode) && Sane(s, decode) && Possible(decode, s, steps) && OnlyAccepted(steps)
    ensures Sane(Pipeline.Run(decode, s, steps), decode)
    decreases |steps|
  {
    hide Next, Enabled, Sane, Batch.Accepted, Faithful;
    if steps != [] {
      StepKeepsSane(decode, s, steps[0]);
      OnlyAcceptedTail(steps);
      RunKeepsSane(decode, Next(decode, s, steps[0]), steps[1..]);
    }
  }

  // An unreadable row stays

  lemma HeldAreAccepted(s: System, claims: seq<Claim>)
    requires Intake.AllAccepted(s.tables) && Held(s.tables, claims)
    ensures EventsOf(claims) != [] && forall e :: e in EventsOf(claims) ==> Batch.Accepted(e)
  {
    hide Batch.Accepted, WellFormed, Distinct;
    forall e | e in EventsOf(claims) ensures Batch.Accepted(e) {
      var i :| 0 <= i < |claims| && EventsOf(claims)[i] == e;
      assert claims[i].event == e;
      assert e == Event(e.id, s.tables.queue[e.id].payload, s.tables.queue[e.id].receivedAt);
    }
  }

  lemma FinishKeepsUnreadable(decode: Decoder, s: System, faults: Faults, e: Event)
    requires Sane(s, decode) && s.phase.Replied? && Queued(s.tables, e) && !Requests.EventReads(e)
    ensures Queued(Settle(s.tables, s.phase.claims, React(s.phase.claims, s.phase.http), faults).0, e)
  {
    hide React, Settle, Requests.RequestReads, Requests.EventReads, Batch.Accepted, WellFormed, Ingestion.SoundDb,
         Honest, Distinct, Intake.AllAccepted;
    var claims := s.phase.claims;
    var reaction := React(claims, s.phase.http);
    if Touched(claims, e.id) && reaction.Decide? {
      var i :| 0 <= i < |claims| && claims[i].event.id == e.id;
      assert claims[i].event == e && EventsOf(claims)[i] == e;
      HeldAreAccepted(s, claims);
      Requests.RequestReadsExactly(EventsOf(claims));
      assert false;
    }
    UndecidedStays(s.tables, claims, reaction, faults, e.id);
  }

  lemma StepKeepsUnreadable(decode: Decoder, s: System, step: Step, e: Event)
    requires Sane(s, decode) && Enabled(s, step) && Queued(s.tables, e) && !Requests.EventReads(e)
    ensures Queued(Next(decode, s, step).tables, e)
  {
    hide React, Settle, Requests.RequestReads, Requests.EventReads, Batch.Accepted, Inv, ClaimHead,
         Ingestion.IngestItems, Json.Bytes;
    match step
    case TakeClaim =>
      ClaimTakesTheHead(s.tables, MAX_BATCH);
      StepKeepsRow(s.tables, ClaimOp(MAX_BATCH), e.id);
    case Finish(faults) => FinishKeepsUnreadable(decode, s, faults, e);
    case _ =>
  }

  lemma {:induction false} RunKeepsUnreadable(decode: Decoder, s: System, steps: seq<Step>, e: Event)
    requires Faithful(decode) && Sane(s, decode) && Possible(decode, s, steps) && OnlyAccepted(steps)
    requires Queued(s.tables, e) && !Requests.EventReads(e)
    ensures Queued(Pipeline.Run(decode, s, steps).tables, e)
    decreases |steps|
  {
    hide Next, Enabled, Sane, Batch.Accepted, Faithful, Queued, Requests.EventReads;
    if steps != [] {
      StepKeepsUnreadable(decode, s, steps[0], e);
      StepKeepsSane(decode, s, steps[0]);
      OnlyAcceptedTail(steps);
      RunKeepsUnreadable(decode, Next(decode, s, steps[0]), steps[1..], e);
    }
  }

  /**
   Poison: once queued, an event that the backend cannot read is queued for good, with its bytes and receipt
   time, whatever is answered, lost, faulted, retried or restarted afterwards.
   */
  lemma UnreadableNeverLeaves(decode: Decoder, backend: Ingestion.Db, steps: seq<Step>, more: seq<Step>, e: Event)
    requires Faithful(decode) && Ingestion.SoundDb(backend)
    requires Possible(decode, Initial(backend), steps) && OnlyAccepted(steps)
    requires
      var s := Pipeline.Run(decode, Initial(backend), steps);
      && Possible(decode, s, more) && OnlyAccepted(more)
      && Queued(s.tables, e) && !Requests.EventReads(e)
    ensures Queued(Pipeline.Run(decode, Pipeline.Run(decode, Initial(backend), steps), more).tables, e)
  {
    hide Pipeline.Run, Possible, OnlyAccepted, Faithful, Sane, Queued, Requests.EventReads, Ingestion.SoundDb;
    InitialIsSane(decode, backend);
    RunKeepsSane(decode, Initial(backend), steps);
    RunKeepsUnreadable(decode, Pipeline.Run(decode, Initial(backend), steps), more, e);
  }
}
