/**
 When rows stay claimed: only after the forwarder could neither record its outcome nor hand its claim back.
 Without that, a forwarder at rest has everything pending and needs no restart to go on.
 */
module Resting {
  import opened Options
  import opened Events
  import opened Deliveries
  import opened Store
  import opened StoreProperties
  import opened Forwarder
  import opened ForwarderProperties
  import opened Pipeline
  import Ingestion
  import Json
  import Line
  import Requests

  /** Storage fails while the claim is handed back, and nothing was decided or storage failed before that. */
  predicate Abandons(s: System, step: Step)
    requires step.Finish? ==> s.phase.Replied?
  {
    && step.Finish? && step.faults.release.Some?
    && (step.faults.apply.Some? || React(s.phase.claims, s.phase.http).HandBack?)
  }

  /** Only the running drain holds rows. */
  ghost predicate HeldOnly(s: System) {
    forall id :: id in s.tables.queue && s.tables.queue[id].state == InFlight ==>
      !s.phase.Resting? && Touched(s.phase.claims, id)
  }

  lemma ClaimKeepsHeldOnly(decode: Decoder, s: System)
    requires HeldOnly(s) && Enabled(s, TakeClaim)
    ensures HeldOnly(Next(decode, s, TakeClaim))
  {
    hide ClaimHead;
    var (t, claims) := ClaimHead(s.tables, MAX_BATCH).value;
    ClaimTakesTheHead(s.tables, MAX_BATCH);
    var u := Next(decode, s, TakeClaim);
    assert forall id :: id in u.tables.queue && !Touched(claims, id) ==> u.tables.queue[id] == s.tables.queue[id];
  }

  /** After an outcome everything is pending, or nothing has changed. */
  lemma OutcomeReleases(t: Tables, w: Tables, claims: seq<Claim>, decisions: seq<Decision>)
    requires |claims| == |decisions| && Outcome(t, w, claims, decisions)
    requires forall id :: id in t.queue && t.queue[id].state == InFlight ==> Touched(claims, id)
    ensures Line.AllPending(w)
  {
    hide Touched, Settled, Condemned;
    forall id | id in w.queue ensures w.queue[id].state == Pending {
      assert QueueOutcome(t, w, claims, decisions, id);
    }
  }

  /**
   Finishing leaves every row pending exactly when it does not abandon its claim, and an abandoned claim's
   rows stay in flight.
   */
  lemma FinishReleases(decode: Decoder, s: System, faults: Faults)
    requires Inv(s, decode) && HeldOnly(s) && Enabled(s, Finish(faults))
    ensures Line.AllPending(Next(decode, s, Finish(faults)).tables) <==> !Abandons(s, Finish(faults))
    ensures Abandons(s, Finish(faults)) ==> Next(decode, s, Finish(faults)).tables == s.tables
  {
    hide React, ApplyAll, Outcome, Ingestion.SoundDb, Honest, Safe;
    var claims, t := s.phase.claims, s.tables;
    var reaction := React(claims, s.phase.http);
    var retries := Retries(|claims|);
    HeldApplies(t, claims, retries);
    ApplyExactly(t, claims, retries);
    OutcomeReleases(t, ApplyAll(t, claims, retries).value, claims, retries);
    if reaction.Decide? {
      ReactionIsWellReasoned(claims, s.phase.http);
      HeldApplies(t, claims, reaction.decisions);
      ApplyExactly(t, claims, reaction.decisions);
      OutcomeReleases(t, ApplyAll(t, claims, reaction.decisions).value, claims, reaction.decisions);
    }
    assert t.queue[claims[0].event.id].state == InFlight;
  }

  lemma StepKeepsHeldOnly(decode: Decoder, s: System, step: Step)
    requires Inv(s, decode) && HeldOnly(s) && Enabled(s, step) && !Abandons(s, step)
    ensures HeldOnly(Next(decode, s, step))
  {
    hide React, Settle, ClaimHead, Ingestion.SoundDb, Ingestion.IngestItems, Requests.RequestReads, Json.Bytes, Inv,
         Touched;
    match step
    case TakeClaim => ClaimKeepsHeldOnly(decode, s);
    case Finish(faults) => FinishReleases(decode, s, faults);
    case _ =>
  }

  /** No finish of the run abandons its claim. */
  ghost predicate NothingAbandoned(decode: Decoder, s: System, steps: seq<Step>)
    requires Possible(decode, s, steps)
    decreases |steps|
  {
    steps == [] || (!Abandons(s, steps[0]) && NothingAbandoned(decode, Next(decode, s, steps[0]), steps[1..]))
  }

  lemma {:induction false} RunKeepsHeldOnly(decode: Decoder, s: System, steps: seq<Step>)
    requires Faithful(decode) && Inv(s, decode) && HeldOnly(s)
    requires Possible(decode, s, steps) && NothingAbandoned(decode, s, steps)
    ensures HeldOnly(Pipeline.Run(decode, s, steps))
    decreases |steps|
  {
    hide Next, Enabled, Inv, HeldOnly, Abandons, Faithful;
    if steps != [] {
      StepKeeps(s, decode, steps[0]);
      StepKeepsHeldOnly(decode, s, steps[0]);
      RunKeepsHeldOnly(decode, Next(decode, s, steps[0]), steps[1..]);
    }
  }

  function Rebooted(decode: Decoder, s: System): System {
    Next(decode, s, Reboot)
  }

  /**
   A restart is needed only after an abandoned claim: in every run, if no finish since the last restart
   abandoned its claim, a forwarder at rest has all its rows pending.
   */
  lemma RestNeedsNoRestart(decode: Decoder, backend: Ingestion.Db, before: seq<Step>, since: seq<Step>)
    requires Faithful(decode) && Ingestion.SoundDb(backend) && Possible(decode, Initial(backend), before)
    requires
      var restarted := Rebooted(decode, Pipeline.Run(decode, Initial(backend), before));
      Possible(decode, restarted, since) && NothingAbandoned(decode, restarted, since)
    ensures
      var restarted := Rebooted(decode, Pipeline.Run(decode, Initial(backend), before));
      var s := Pipeline.Run(decode, restarted, since);
      HeldOnly(s) && (s.phase.Resting? ==> Line.AllPending(s.tables))
  {
    hide Pipeline.Run, Possible, Faithful, Inv, Ingestion.SoundDb, NothingAbandoned;
    StartHolds(decode, backend);
    RunKeeps(decode, Initial(backend), before);
    var s := Pipeline.Run(decode, Initial(backend), before);
    StepKeeps(s, decode, Reboot);
    RunKeepsHeldOnly(decode, Rebooted(decode, s), since);
  }

  lemma StartHolds(decode: Decoder, backend: Ingestion.Db)
    requires Ingestion.SoundDb(backend)
    ensures Inv(Initial(backend), decode)
  {
    hide Ingestion.SoundDb;
  }
}
