/** What a drain guarantees, whatever the network answers and whatever arrives meanwhile. */
module ForwarderProperties {
  import opened Options
  import opened Events
  import opened Deliveries
  import opened Store
  import opened StoreProperties
  import opened Forwarder
  import Batch
  import EventParser
  import Json
  import Outcomes
  import Verdicts

  // Non-interference

  lemma {:induction false} InsertsKeepRows(t: Tables, arrivals: seq<Event>)
    ensures
      var u := Inserts(t, arrivals);
      && u.quarantine == t.quarantine
      && (forall id :: id in t.queue ==> id in u.queue && u.queue[id] == t.queue[id])
      && (WellFormed(t) ==> WellFormed(u))
    decreases |arrivals|
  {
    if arrivals != [] {
      InsertsKeepRows(Insert(t, arrivals[0]).0, arrivals[1..]);
    }
  }

  lemma ClaimsAreDistinct(t: Tables, limit: nat)
    requires ClaimHead(t, limit).Ok?
    ensures Distinct(ClaimHead(t, limit).value.1)
  {
    hide Head;
    HeadHasNoRepeats(t, limit);
  }

  /**
   Non-interference: inserts between a claim and its outcome neither change nor remove a claimed row,
   so any well-reasoned decisions for the claim go through.
   */
  lemma ClaimSurvivesInserts(t: Tables, arrivals: seq<Event>, decisions: seq<Decision>)
    requires WellFormed(t) && ClaimHead(t, MAX_BATCH).Ok?
    requires |decisions| == |ClaimHead(t, MAX_BATCH).value.1|
    requires forall d :: d in decisions ==> WellReasoned(d)
    ensures
      var (u, claims) := ClaimHead(t, MAX_BATCH).value;
      var v := Inserts(u, arrivals);
      && WellFormed(v)
      && (forall i :: 0 <= i < |claims| ==> Holds(v, claims[i]) && claims[i].event.id !in v.quarantine)
      && Applicable(v, claims, decisions)
      && ApplyAll(v, claims, decisions).Ok?
      && (claims != [] ==> Apply(v, claims, decisions).Ok?)
  {
    hide ClaimHead, ApplyAll;
    var (u, claims) := ClaimHead(t, MAX_BATCH).value;
    ClaimTakesTheHead(t, MAX_BATCH);
    ClaimsAreDistinct(t, MAX_BATCH);
    StepKeepsWellFormed(t, ClaimOp(MAX_BATCH));
    InsertsKeepRows(u, arrivals);
    var v := Inserts(u, arrivals);
    forall i | 0 <= i < |claims| ensures Admissible(v, claims[i], decisions[i]) {
      assert decisions[i] in decisions;
    }
    ApplyExactly(v, claims, decisions);
  }

  lemma ReactionIsWellReasoned(claims: seq<Claim>, http: Http)
    requires React(claims, http).Decide?
    ensures |React(claims, http).decisions| == |claims|
    ensures forall d :: d in React(claims, http).decisions ==> WellReasoned(d) && d.action != Retry
  {
    hide Batch.Body, Verdicts.Decisions, Json.Bytes;
    Verdicts.DecisionsAreFinal(http.body, Forwarder.IdsOf(claims));
  }

  /** Storage faults aside, a drain never reaches any of the throws of `apply_decisions`. */
  lemma DrainNeverThrows(t: Tables, http: Http, arrivals: seq<Event>)
    requires WellFormed(t) && ClaimHead(t, MAX_BATCH).Ok?
    ensures Drain(t, http, arrivals, NO_FAULTS).1 != StorageError
  {
    hide ClaimHead, Apply, React;
    var (u, claims) := ClaimHead(t, MAX_BATCH).value;
    if claims != [] {
      ClaimSurvivesInserts(t, arrivals, Retries(|claims|));
      var reaction := React(claims, http);
      match reaction
      case Decide(decisions) =>
        ReactionIsWellReasoned(claims, http);
        ClaimSurvivesInserts(t, arrivals, decisions);
      case HandBack(result) => HandBackResults(claims, http);
    }
  }

  lemma HandBackResults(claims: seq<Claim>, http: Http)
    ensures React(claims, http).HandBack? ==>
      React(claims, http).result == RetryLater || React(claims, http).result == AuthenticationFailure
  {
    hide Batch.Body, Verdicts.Decisions, Json.Bytes;
  }

  // Conservation

  /** The row is still queued with its bytes and receipt time. */
  predicate Stays(t: Tables, w: Tables, id: Identity)
    requires id in t.queue
  {
    id in w.queue && w.queue[id].payload == t.queue[id].payload && w.queue[id].receivedAt == t.queue[id].receivedAt
  }

  /** The row moved to quarantine with its bytes and receipt time. */
  predicate Moved(t: Tables, w: Tables, id: Identity)
    requires id in t.queue
  {
    && id in w.quarantine
    && w.quarantine[id].payload == t.queue[id].payload
    && w.quarantine[id].receivedAt == t.queue[id].receivedAt
  }

  /** The backend confirmed the row, by an answer the forwarder could read. */
  predicate Confirmed(claims: seq<Claim>, reaction: Reaction, id: Identity) {
    && reaction.Decide? && |reaction.decisions| == |claims|
    && exists i :: 0 <= i < |claims| && claims[i].event.id == id &&
         (reaction.decisions[i].action == Action.Accepted || reaction.decisions[i].action == Action.Duplicate)
  }

  /** Claims that hand out the stored bytes. */
  predicate Authentic(t: Tables, claims: seq<Claim>) {
    forall i :: 0 <= i < |claims| ==>
      var e := claims[i].event;
      e.id in t.queue && t.queue[e.id].payload == e.payload && t.queue[e.id].receivedAt == e.receivedAt
  }

  lemma OutcomeConserves(t: Tables, w: Tables, claims: seq<Claim>, decisions: seq<Decision>, id: Identity)
    requires |claims| == |decisions| && Authentic(t, claims) && Outcome(t, w, claims, decisions)
    requires id in t.queue
    ensures Stays(t, w, id) || Moved(t, w, id) || Confirmed(claims, Decide(decisions), id)
    ensures (forall d :: d in decisions ==> d.action == Retry) ==> Stays(t, w, id)
  {
    assert QueueOutcome(t, w, claims, decisions, id);
    if Settled(claims, decisions, id) {
      var i :| 0 <= i < |claims| && claims[i].event.id == id && decisions[i].action != Retry;
      assert decisions[i] in decisions;
      assert Condemns(w, claims[i], decisions[i]);
    }
  }

  /** The decisions the drain read are committed. */
  predicate Commits(t: Tables, claims: seq<Claim>, reaction: Reaction, faults: Faults) {
    reaction.Decide? && faults.apply.None? && Apply(t, claims, reaction.decisions).Ok?
  }

  lemma SettleConserves(
      t: Tables, claims: seq<Claim>, reaction: Reaction, faults: Faults, id: Identity)
    requires Authentic(t, claims) && id in t.queue
    ensures
      var w := Settle(t, claims, reaction, faults).0;
      && (Stays(t, w, id) ||
          (Commits(t, claims, reaction, faults) && (Moved(t, w, id) || Confirmed(claims, reaction, id))))
      && (forall q :: q in t.quarantine ==> q in w.quarantine && w.quarantine[q] == t.quarantine[q])
  {
    hide ApplyAll, Outcome;
    var w := Settle(t, claims, reaction, faults).0;
    var retries := Retries(|claims|);
    if Commits(t, claims, reaction, faults) {
      ApplyExactly(t, claims, reaction.decisions);
      OutcomeConserves(t, w, claims, reaction.decisions, id);
      OutcomeKeepsQuarantine(t, w, claims, reaction.decisions);
    } else if w != t {
      ApplyExactly(t, claims, retries);
      OutcomeConserves(t, w, claims, retries, id);
      OutcomeKeepsQuarantine(t, w, claims, retries);
    }
  }

  lemma OutcomeKeepsQuarantine(t: Tables, w: Tables, claims: seq<Claim>, decisions: seq<Decision>)
    requires |claims| == |decisions| && Outcome(t, w, claims, decisions)
    ensures forall q :: q in t.quarantine ==> q in w.quarantine && w.quarantine[q] == t.quarantine[q]
  {
    forall q | q in t.quarantine ensures q in w.quarantine && w.quarantine[q] == t.quarantine[q] {
      assert QueueOutcome(t, w, claims, decisions, q);
    }
  }

  lemma UntouchedStays(t: Tables, w: Tables, claims: seq<Claim>, decisions: seq<Decision>, id: Identity)
    requires |claims| == |decisions| && QueueOutcome(t, w, claims, decisions, id)
    requires id in t.queue && !Touched(claims, id) && !Settled(claims, decisions, id)
    ensures Stays(t, w, id)
  {
  }

  /** A row is safe from the outcome unless its own claim is decided. */
  lemma UndecidedStays(t: Tables, claims: seq<Claim>, reaction: Reaction, faults: Faults, id: Identity)
    requires Authentic(t, claims) && id in t.queue && (Touched(claims, id) ==> reaction.HandBack?)
    ensures Stays(t, Settle(t, claims, reaction, faults).0, id)
  {
    hide ApplyAll, QueueOutcome, Touched, Settled, Confirmed;
    var w := Settle(t, claims, reaction, faults).0;
    SettleConserves(t, claims, reaction, faults, id);
    if Commits(t, claims, reaction, faults) {
      ApplyExactly(t, claims, reaction.decisions);
      SettledIsTouched(claims, reaction.decisions, id);
      assert QueueOutcome(t, w, claims, reaction.decisions, id);
      UntouchedStays(t, w, claims, reaction.decisions, id);
    }
  }

  /** The drain's claim succeeds and its decisions are committed. */
  predicate DrainCommits(t: Tables, http: Http, arrivals: seq<Event>, faults: Faults) {
    && faults.claim.None? && ClaimHead(t, MAX_BATCH).Ok?
    && var (u, claims) := ClaimHead(t, MAX_BATCH).value;
       claims != [] && Commits(Inserts(u, arrivals), claims, React(claims, http), faults)
  }

  /**
   Conservation: whatever storage, the network and the backend do during a drain, a queued row leaves the
   queue only if the drain's decisions are committed; then it is in quarantine with its bytes and receipt
   time, or the backend's answer named it accepted or duplicate.
   */
  lemma DrainConserves(t: Tables, http: Http, arrivals: seq<Event>, faults: Faults, id: Identity)
    requires id in t.queue
    ensures
      var w := Drain(t, http, arrivals, faults).0;
      && (Stays(t, w, id) ||
          (DrainCommits(t, http, arrivals, faults) &&
           (Moved(t, w, id) ||
            Confirmed(ClaimHead(t, MAX_BATCH).value.1, React(ClaimHead(t, MAX_BATCH).value.1, http), id))))
      && (forall q :: q in t.quarantine ==> q in w.quarantine && w.quarantine[q] == t.quarantine[q])
  {
    hide ClaimHead, React, Settle, Confirmed, Commits;
    if faults.claim.None? && ClaimHead(t, MAX_BATCH).Ok? {
      var (u, claims) := ClaimHead(t, MAX_BATCH).value;
      ClaimTakesTheHead(t, MAX_BATCH);
      StepKeepsRow(t, ClaimOp(MAX_BATCH), id);
      if claims != [] {
        InsertsKeepRows(u, arrivals);
        var v := Inserts(u, arrivals);
        SettleConserves(v, claims, React(claims, http), faults, id);
      }
    }
  }

  /**
   The report and the commit differ in exactly one case: a drain reports delivery if and only if its
   decisions are committed and the row count it logs afterwards can be read.  When the count fails, the
   committed drain ends in an exception and the tables are those of the drain that could read it.
   */
  lemma DeliveredMeansCommitted(t: Tables, http: Http, arrivals: seq<Event>, faults: Faults)
    ensures
      Drain(t, http, arrivals, faults).1 == Delivered <==>
      DrainCommits(t, http, arrivals, faults) && !faults.depth
    ensures
      DrainCommits(t, http, arrivals, faults) && faults.depth ==>
      Drain(t, http, arrivals, faults).1 == StorageError
    ensures
      Drain(t, http, arrivals, faults).0 == Drain(t, http, arrivals, faults.(depth := false)).0
  {
    hide ClaimHead, React, Apply, Inserts;
    if ClaimHead(t, MAX_BATCH).Ok? {
      HandBackResults(ClaimHead(t, MAX_BATCH).value.1, http);
    }
  }

  // Progress

  /** A 200 answer to this claim, as the backend renders it: one item per event, each naming its event. */
  predicate GoodAnswer(claims: seq<Claim>, http: Http, batchId: string, items: seq<Outcomes.ResultItem>) {
    && http.Answered? && http.status == 200 && http.body == Some(Outcomes.ResponseDoc(batchId, items))
    && http.size <= Verdicts.MAX_RESPONSE_BYTES
    && 0 < Json.Bytes(batchId) <= 128
    && |items| == |claims|
    && forall i :: 0 <= i < |claims| ==> Verdicts.Names(items[i], claims[i].event.id)
  }

  /** Everything queued is pending and has attempts to spare. */
  ghost predicate Ready(t: Tables) {
    && WellFormed(t)
    && forall id :: id in t.queue ==> t.queue[id].state == Pending && t.queue[id].attempts < MAX_COUNTER
  }

  /** And all of it can be converted. */
  ghost predicate Deliverable(t: Tables) {
    && Ready(t)
    && forall id :: id in t.queue ==>
         && |t.queue[id].receivedAt| <= 400
         && Batch.Convertible(Event(id, t.queue[id].payload, t.queue[id].receivedAt))
  }

  /** The backend's answer to a claim of convertible events is read as exactly its outcomes. */
  lemma GoodAnswerDecides(claims: seq<Claim>, http: Http, batchId: string, items: seq<Outcomes.ResultItem>)
    requires 0 < |claims| <= MAX_BATCH && GoodAnswer(claims, http, batchId, items)
    requires forall i :: 0 <= i < |claims| ==>
      Batch.Convertible(claims[i].event) && |claims[i].event.receivedAt| <= 400
    ensures React(claims, http) == Decide(Verdicts.DecisionsOf(items))
  {
    hide Batch.Body, Verdicts.Decisions, Json.Bytes, Batch.Convertible, Outcomes.ResponseDoc, Batch.BatchValue;
    var events := EventsOf(claims);
    assert forall e :: e in events ==> exists i :: 0 <= i < |claims| && claims[i].event == e;
    var _ := Batch.FullClaimIsSendable(events);
    assert Json.Bytes("") == 0 by { NoBytes(); }
    Verdicts.BackendAnswerIsUnderstood(batchId, items, Forwarder.IdsOf(claims));
  }

  lemma NoBytes()
    ensures Json.Bytes("") == 0
  {
  }

  function IdSet(claims: seq<Claim>): set<Identity> {
    set i | 0 <= i < |claims| :: claims[i].event.id
  }

  lemma {:induction false} DistinctCount(claims: seq<Claim>)
    requires Distinct(claims)
    ensures |IdSet(claims)| == |claims|
  {
    if claims != [] {
      var n := |claims| - 1;
      DistinctCount(claims[..n]);
      assert IdSet(claims) == IdSet(claims[..n]) + {claims[n].event.id} by {
        assert forall i :: 0 <= i < n ==> claims[..n][i] == claims[i];
        forall id | id in IdSet(claims) ensures id in IdSet(claims[..n]) + {claims[n].event.id} {
          var i :| 0 <= i < |claims| && claims[i].event.id == id;
          if i < n {
            assert claims[..n][i].event.id == id;
          }
        }
      }
      assert claims[n].event.id !in IdSet(claims[..n]);
    }
  }

  ghost predicate AnswersNextClaim(t: Tables, http: Http) {
    ClaimHead(t, MAX_BATCH).Ok? ==>
      exists batchId, items :: GoodAnswer(ClaimHead(t, MAX_BATCH).value.1, http, batchId, items)
  }

  lemma ReadyClaims(t: Tables)
    requires Ready(t)
    ensures ClaimHead(t, MAX_BATCH).Ok?
    ensures PendingIds(t) == t.queue.Keys
  {
    hide WellFormed;
  }

  lemma DrainDecides(t: Tables, http: Http)
    requires Deliverable(t) && AnswersNextClaim(t, http)
    requires ClaimHead(t, MAX_BATCH).Ok? && ClaimHead(t, MAX_BATCH).value.1 != []
    ensures React(ClaimHead(t, MAX_BATCH).value.1, http).Decide?
  {
    hide ClaimHead, GoodAnswer, WellFormed, Batch.Convertible, React;
    ClaimTakesTheHead(t, MAX_BATCH);
    var claims := ClaimHead(t, MAX_BATCH).value.1;
    var batchId, items :| GoodAnswer(claims, http, batchId, items);
    GoodAnswerDecides(claims, http, batchId, items);
  }

  lemma AllSettled(t: Tables, w: Tables, claims: seq<Claim>, decisions: seq<Decision>)
    requires |claims| == |decisions| && Outcome(t, w, claims, decisions)
    requires forall d :: d in decisions ==> d.action != Retry
    ensures w.queue.Keys == t.queue.Keys - IdSet(claims)
    ensures forall id :: id in w.queue ==> w.queue[id] == t.queue[id]
  {
    forall i | 0 <= i < |claims| ensures decisions[i].action != Retry {
      assert decisions[i] in decisions;
    }
    forall id
      ensures id in w.queue <==> id in t.queue && id !in IdSet(claims)
      ensures id in w.queue ==> w.queue[id] == t.queue[id]
    {
      assert QueueOutcome(t, w, claims, decisions, id);
    }
  }

  /** The row after a drain that hands its claim back. */
  function Returned(row: Row, claimed: bool): Row {
    if claimed then row.(attempts := row.attempts + 1) else row
  }

  lemma RetriesReturn(t: Tables, u: Tables, w: Tables, claims: seq<Claim>)
    requires ClaimHead(t, MAX_BATCH) == Ok((u, claims)) && Outcome(u, w, claims, Retries(|claims|))
    ensures w.queue.Keys == t.queue.Keys
    ensures forall id :: id in t.queue ==> w.queue[id] == Returned(t.queue[id], Touched(claims, id))
  {
    hide ClaimHead;
    ClaimTakesTheHead(t, MAX_BATCH);
    forall id
      ensures id in w.queue <==> id in t.queue
      ensures id in t.queue ==> w.queue[id] == Returned(t.queue[id], Touched(claims, id))
    {
      assert QueueOutcome(u, w, claims, Retries(|claims|), id);
      if id in t.queue && Touched(claims, id) {
        var i :| 0 <= i < |claims| && claims[i].event.id == id;
        assert u.queue[id] == Taken(t.queue[id]);
      }
    }
  }

  /**
   What one drain without faults and new intake does to a queue that is all pending: when the answer is
   understood exactly the claim is gone, otherwise exactly the claim's attempt counts are one higher.
   */
  lemma DrainExactly(t: Tables, http: Http)
    requires Ready(t)
    ensures ClaimHead(t, MAX_BATCH).Ok?
    ensures
      var w, claims := Drain(t, http, [], NO_FAULTS).0, ClaimHead(t, MAX_BATCH).value.1;
      && WellFormed(w)
      && (React(claims, http).Decide? ==> w.queue == t.queue - IdSet(claims))
      && (React(claims, http).HandBack? ==>
            && w.queue.Keys == t.queue.Keys
            && forall id :: id in t.queue ==> w.queue[id] == Returned(t.queue[id], Touched(claims, id)))
  {
    hide ClaimHead, React, WellFormed, Drain, Ready;
    ReadyClaims(t);
    if React(ClaimHead(t, MAX_BATCH).value.1, http).Decide? {
      DecidedDrain(t, http);
    } else {
      ReturnedDrain(t, http);
    }
  }

  lemma DecidedDrain(t: Tables, http: Http)
    requires Ready(t) && ClaimHead(t, MAX_BATCH).Ok? && React(ClaimHead(t, MAX_BATCH).value.1, http).Decide?
    ensures
      var w, claims := Drain(t, http, [], NO_FAULTS).0, ClaimHead(t, MAX_BATCH).value.1;
      WellFormed(w) && w.queue == t.queue - IdSet(claims)
  {
    hide ClaimHead, React, ApplyAll, WellFormed, Outcome, IdSet;
    var (u, claims) := ClaimHead(t, MAX_BATCH).value;
    StepKeepsWellFormed(t, ClaimOp(MAX_BATCH));
    if claims == [] {
      EmptyClaim(t);
    } else {
      ReactionIsWellReasoned(claims, http);
      var decisions := React(claims, http).decisions;
      ClaimSurvivesInserts(t, [], decisions);
      ApplyExactly(u, claims, decisions);
      var w := ApplyAll(u, claims, decisions).value;
      ApplyKeepsWellFormed(u, claims, decisions);
      AllSettled(u, w, claims, decisions);
      UnclaimedAreSame(t);
      assert w.queue == t.queue - IdSet(claims);
    }
  }

  lemma EmptyClaim(t: Tables)
    requires ClaimHead(t, MAX_BATCH).Ok? && ClaimHead(t, MAX_BATCH).value.1 == []
    ensures ClaimHead(t, MAX_BATCH).value.0.queue == t.queue && IdSet([]) == {}
  {
    hide ClaimHead;
    ClaimTakesTheHead(t, MAX_BATCH);
  }

  lemma UnclaimedAreSame(t: Tables)
    requires ClaimHead(t, MAX_BATCH).Ok?
    ensures
      var (u, claims) := ClaimHead(t, MAX_BATCH).value;
      u.queue.Keys == t.queue.Keys && forall id :: id in t.queue && id !in IdSet(claims) ==> u.queue[id] == t.queue[id]
  {
    hide ClaimHead;
    ClaimTakesTheHead(t, MAX_BATCH);
  }

  lemma ReturnedDrain(t: Tables, http: Http)
    requires Ready(t) && ClaimHead(t, MAX_BATCH).Ok? && React(ClaimHead(t, MAX_BATCH).value.1, http).HandBack?
    ensures
      var w, claims := Drain(t, http, [], NO_FAULTS).0, ClaimHead(t, MAX_BATCH).value.1;
      && WellFormed(w) && w.queue.Keys == t.queue.Keys
      && forall id :: id in t.queue ==> w.queue[id] == Returned(t.queue[id], Touched(claims, id))
  {
    hide ClaimHead, React, ApplyAll, WellFormed, Outcome, Touched;
    var (u, claims) := ClaimHead(t, MAX_BATCH).value;
    StepKeepsWellFormed(t, ClaimOp(MAX_BATCH));
    if claims == [] {
      EmptyClaim(t);
      NothingTouched();
    } else {
      ClaimSurvivesInserts(t, [], Retries(|claims|));
      ApplyExactly(u, claims, Retries(|claims|));
      var w := ApplyAll(u, claims, Retries(|claims|)).value;
      ApplyKeepsWellFormed(u, claims, Retries(|claims|));
      RetriesReturn(t, u, w, claims);
    }
  }

  lemma NothingTouched()
    ensures forall id :: !Touched([], id)
  {
  }

  /** The part of the queue one claim takes. */
  function ClaimSize(n: nat): nat {
    if n < MAX_BATCH then n else MAX_BATCH
  }

  lemma ClaimCount(t: Tables)
    requires Ready(t) && ClaimHead(t, MAX_BATCH).Ok?
    ensures |ClaimHead(t, MAX_BATCH).value.1| == ClaimSize(|t.queue|)
    ensures t.queue == map[] <==> |t.queue| == 0
  {
    hide ClaimHead, WellFormed;
    ReadyClaims(t);
    ClaimTakesTheHead(t, MAX_BATCH);
    assert |t.queue| == |t.queue.Keys|;
  }

  /** An understood answer shortens the queue by its claim, any other leaves its length. */
  lemma DrainShortens(t: Tables, http: Http)
    requires Ready(t)
    ensures ClaimHead(t, MAX_BATCH).Ok?
    ensures
      var w, claims := Drain(t, http, [], NO_FAULTS).0, ClaimHead(t, MAX_BATCH).value.1;
      |w.queue| == |t.queue| - if React(claims, http).Decide? then ClaimSize(|t.queue|) else 0
  {
    hide ClaimHead, Drain, WellFormed, React, Ready, IdSet, Distinct;
    DrainExactly(t, http);
    ClaimCount(t);
    ClaimsAreDistinct(t, MAX_BATCH);
    var claims, w := ClaimHead(t, MAX_BATCH).value.1, Drain(t, http, [], NO_FAULTS).0;
    DistinctCount(claims);
    ClaimIsQueued(t);
    assert |w.queue| == |w.queue.Keys| && |t.queue| == |t.queue.Keys|;
    if React(claims, http).Decide? {
      assert w.queue.Keys == t.queue.Keys - IdSet(claims);
    }
  }

  lemma ClaimIsQueued(t: Tables)
    requires ClaimHead(t, MAX_BATCH).Ok?
    ensures IdSet(ClaimHead(t, MAX_BATCH).value.1) <= t.queue.Keys
  {
    hide ClaimHead;
    ClaimTakesTheHead(t, MAX_BATCH);
  }

  /** With a good answer and no new intake, one drain removes its whole claim and touches nothing else. */
  lemma OneDrain(t: Tables, http: Http)
    requires Deliverable(t) && AnswersNextClaim(t, http)
    ensures
      var w := Drain(t, http, [], NO_FAULTS).0;
      && Deliverable(w)
      && |w.queue| == if |t.queue| <= MAX_BATCH then 0 else |t.queue| - MAX_BATCH
  {
    hide ClaimHead, Drain, Batch.Convertible, WellFormed, AnswersNextClaim, React;
    DrainExactly(t, http);
    DrainShortens(t, http);
    ClaimCount(t);
    if t.queue != map[] {
      DrainDecides(t, http);
    }
  }

  function Drains(t: Tables, answers: seq<Http>): Tables
    decreases |answers|
  {
    if answers == [] then t else Drains(Drain(t, answers[0], [], NO_FAULTS).0, answers[1..])
  }

  ghost predicate AllAnswered(t: Tables, answers: seq<Http>)
    decreases |answers|
  {
    answers == [] ||
    (AnswersNextClaim(t, answers[0]) && AllAnswered(Drain(t, answers[0], [], NO_FAULTS).0, answers[1..]))
  }

  /** With valid answers and no new intake, ceil(n / 500) drains empty a queue of n deliverable rows. */
  lemma {:induction false} DrainsEmptyTheQueue(t: Tables, answers: seq<Http>)
    requires Deliverable(t) && AllAnswered(t, answers)
    requires |answers| >= (|t.queue| + MAX_BATCH - 1) / MAX_BATCH
    ensures Drains(t, answers).queue == map[]
    decreases |answers|
  {
    hide Drain, Deliverable, AnswersNextClaim;
    if answers != [] {
      OneDrain(t, answers[0]);
      DrainsEmptyTheQueue(Drain(t, answers[0], [], NO_FAULTS).0, answers[1..]);
    }
  }

  /** How many of the drains get an answer they understand. */
  function Understood(t: Tables, answers: seq<Http>): nat
    decreases |answers|
  {
    if answers == [] || ClaimHead(t, MAX_BATCH).Err? then 0
    else
      (if React(ClaimHead(t, MAX_BATCH).value.1, answers[0]).Decide? then 1 else 0)
      + Understood(Drain(t, answers[0], [], NO_FAULTS).0, answers[1..])
  }

  /** Every row is pending and can be claimed this many times more. */
  ghost predicate ReadyFor(t: Tables, claims: nat) {
    && WellFormed(t)
    && forall id :: id in t.queue ==> t.queue[id].state == Pending && t.queue[id].attempts + claims <= MAX_COUNTER
  }

  lemma DrainKeepsReady(t: Tables, http: Http, claims: nat)
    requires ReadyFor(t, claims + 1)
    ensures ReadyFor(Drain(t, http, [], NO_FAULTS).0, claims)
  {
    hide ClaimHead, React, WellFormed, Drain;
    DrainExactly(t, http);
  }

  /** Whatever the answers are: each one that is understood shortens the queue by 500, the others do not. */
  lemma {:induction false} DrainsShorten(t: Tables, answers: seq<Http>)
    requires ReadyFor(t, |answers|)
    ensures
      var gone := MAX_BATCH * Understood(t, answers);
      |Drains(t, answers).queue| == if |t.queue| <= gone then 0 else |t.queue| - gone
    decreases |answers|
  {
    hide Drain, React, ClaimHead, WellFormed;
    if answers != [] {
      DrainShortens(t, answers[0]);
      DrainKeepsReady(t, answers[0], |answers| - 1);
      DrainsShorten(Drain(t, answers[0], [], NO_FAULTS).0, answers[1..]);
    }
  }

  // Rows that cannot be converted

  lemma MarkedClaimIsReturned(claims: seq<Claim>, http: Http, id: Identity)
    requires Touched(claims, id)
    requires forall i :: 0 <= i < |claims| && claims[i].event.id == id ==>
      EventParser.StartsWithMark(claims[i].event.payload)
    ensures React(claims, http).HandBack?
  {
    hide Batch.Body, Verdicts.Decisions, Json.Bytes;
    var i :| 0 <= i < |claims| && claims[i].event.id == id;
    Batch.SomeMarkIsAnError(EventsOf(claims), i);
  }

  /** A row whose payload starts with a byte order mark never leaves, whatever is answered. */
  lemma MarkedStays(t: Tables, http: Http, arrivals: seq<Event>, faults: Faults, id: Identity)
    requires id in t.queue && EventParser.StartsWithMark(t.queue[id].payload)
    ensures Stays(t, Drain(t, http, arrivals, faults).0, id)
  {
    hide ClaimHead, React, Settle, EventParser.StartsWithMark;
    if faults.claim.None? && ClaimHead(t, MAX_BATCH).Ok? {
      var (u, claims) := ClaimHead(t, MAX_BATCH).value;
      ClaimTakesTheHead(t, MAX_BATCH);
      StepKeepsRow(t, ClaimOp(MAX_BATCH), id);
      if claims != [] {
        InsertsKeepRows(u, arrivals);
        if Touched(claims, id) {
          MarkedClaimIsReturned(claims, http, id);
        }
        UndecidedStays(Inserts(u, arrivals), claims, React(claims, http), faults, id);
      }
    }
  }

  lemma {:induction false} MarkedStaysForGood(t: Tables, answers: seq<Http>, id: Identity)
    requires id in t.queue && EventParser.StartsWithMark(t.queue[id].payload)
    ensures id in Drains(t, answers).queue
    decreases |answers|
  {
    hide Drain;
    if answers != [] {
      MarkedStays(t, answers[0], [], NO_FAULTS, id);
      MarkedStaysForGood(Drain(t, answers[0], [], NO_FAULTS).0, answers[1..], id);
    }
  }
}
