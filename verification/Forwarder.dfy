/**
 One drain of the queue (gateway/src/forwarder.cpp, `drain_once`): claim, post, read the answer, apply.
 The store's mutex is free between the claim and the outcome, so MQTT inserts may land there.
 */
module Forwarder {
  import opened Options
  import opened Events
  import opened Deliveries
  import opened Store
  import Batch
  import Json
  import Verdicts

  /** What the network gives the HTTP client: nothing usable, or a status with a body of some size. */
  datatype Http = Failed | Answered(status: int, body: Verdicts.Response, size: nat)

  datatype RunResult = Idle | Delivered | RetryLater | AuthenticationFailure | StorageError

  /**
   Where SQLite fails during this drain, if anywhere; `depth` is the row count the drain logs once its
   outcome, or its release, has committed.
   */
  datatype Faults = Faults(claim: Option<nat>, apply: Option<nat>, release: Option<nat>, depth: bool)

  const NO_FAULTS := Faults(None, None, None, false)

  /** What the forwarder does with its claim: hand it back, or apply decisions. */
  datatype Reaction = HandBack(result: RunResult) | Decide(decisions: seq<Decision>)

  function EventsOf(claims: seq<Claim>): (events: seq<Event>)
    ensures |events| == |claims|
    ensures forall i :: 0 <= i < |claims| ==> events[i] == claims[i].event
  {
    seq(|claims|, i requires 0 <= i < |claims| => claims[i].event)
  }

  function IdsOf(claims: seq<Claim>): (ids: seq<Identity>)
    ensures |ids| == |claims|
    ensures forall i :: 0 <= i < |claims| ==> ids[i] == claims[i].event.id
  {
    seq(|claims|, i requires 0 <= i < |claims| => claims[i].event.id)
  }

  function Retries(n: nat): (ds: seq<Decision>)
    ensures |ds| == n && forall d :: d in ds ==> d == Decision(Retry, "")
  {
    seq(n, _ => Decision(Retry, ""))
  }

  /** `post_batch` refuses an empty or oversized request before it sends anything, and an oversized answer. */
  function Post(body: string, http: Http): Http {
    if body == "" || Json.Bytes(body) > Batch.MAX_REQUEST_BYTES then Failed
    else if http.Answered? && http.size > Verdicts.MAX_RESPONSE_BYTES then Failed
    else http
  }

  function React(claims: seq<Claim>, http: Http): Reaction {
    match Batch.Body(EventsOf(claims))
    case Err(_) => HandBack(RetryLater)
    case Ok(body) =>
      match Post(body, http)
      case Failed => HandBack(RetryLater)
      case Answered(status, answer, _) =>
        if status == 401 || status == 403 then HandBack(AuthenticationFailure)
        else if status != 200 then HandBack(RetryLater)
        else
          match Verdicts.Decisions(answer, IdsOf(claims))
          case Err(_) => HandBack(RetryLater)
          case Ok(decisions) => Decide(decisions)
  }

  function Inserts(t: Tables, arrivals: seq<Event>): Tables
    decreases |arrivals|
  {
    if arrivals == [] then t else Inserts(Insert(t, arrivals[0]).0, arrivals[1..])
  }

  /** Handing the claim back, unless storage fails again. */
  function GiveBack(t: Tables, claims: seq<Claim>, fault: Option<nat>): Result<Tables, ()> {
    match Apply(t, claims, Retries(|claims|))
    case Err(_) => Err(())
    case Ok(u) => if fault.Some? then Err(()) else Ok(u)
  }

  /** What the drain reports once its transaction has committed: counting the rows may still fail. */
  function Reported(result: RunResult, faults: Faults): RunResult {
    if faults.depth then StorageError else result
  }

  function Settle(t: Tables, claims: seq<Claim>, reaction: Reaction, faults: Faults): (Tables, RunResult) {
    match reaction
    case HandBack(result) =>
      (match GiveBack(t, claims, faults.release)
       case Err(_) => (t, StorageError)
       case Ok(u) => (u, Reported(result, faults)))
    case Decide(decisions) =>
      var applied := Apply(t, claims, decisions);
      if faults.apply.None? && applied.Ok? then (applied.value, Reported(Delivered, faults))
      else
        match GiveBack(t, claims, faults.release)
        case Err(_) => (t, StorageError)
        case Ok(u) => (u, StorageError)
  }

  function Drain(t: Tables, http: Http, arrivals: seq<Event>, faults: Faults): (Tables, RunResult) {
    var claimed := ClaimHead(t, MAX_BATCH);
    if faults.claim.Some? || claimed.Err? then (t, StorageError)
    else
      var (u, claims) := claimed.value;
      if claims == [] then (u, Idle)
      else Settle(Inserts(u, arrivals), claims, React(claims, http), faults)
  }

  method Arrive(store: Store, arrivals: seq<Event>)
    modifies store
    ensures store.View() == Inserts(old(store.View()), arrivals)
  {
    assert arrivals[0..] == arrivals;
    for i := 0 to |arrivals|
      invariant Inserts(old(store.View()), arrivals) == Inserts(store.View(), arrivals[i..])
    {
      assert arrivals[i..][1..] == arrivals[i + 1..];
      var _ := store.InsertEvent(arrivals[i], false);
    }
  }

  method GiveClaimBack(store: Store, claims: seq<Claim>, fault: Option<nat>) returns (ok: bool)
    modifies store
    ensures
      var spec := GiveBack(old(store.View()), claims, fault);
      ok == spec.Ok? && store.View() == if spec.Ok? then spec.value else old(store.View())
  {
    var r := store.ApplyDecisions(claims, Retries(|claims|), fault);
    ok := r.Ok?;
  }

  method DrainOnce(store: Store, http: Http, arrivals: seq<Event>, faults: Faults)
    returns (result: RunResult)
    modifies store
    ensures (store.View(), result) == Drain(old(store.View()), http, arrivals, faults)
  {
    hide Verdicts.Decisions, Batch.Body, ClaimHead, Apply, Json.Bytes, Inserts;
    var taken := store.ClaimPending(MAX_BATCH, faults.claim);
    if taken.Err? {
      return StorageError;
    }
    var claims := taken.value;
    if claims == [] {
      return Idle;
    }
    Arrive(store, arrivals);
    var body := Batch.BatchJson(EventsOf(claims));
    if body.Err? {
      var ok := GiveClaimBack(store, claims, faults.release);
      return if ok then Reported(RetryLater, faults) else StorageError;
    }
    var response := Post(body.value, http);
    if response.Failed? {
      var ok := GiveClaimBack(store, claims, faults.release);
      return if ok then Reported(RetryLater, faults) else StorageError;
    }
    if response.status != 200 {
      var ok := GiveClaimBack(store, claims, faults.release);
      return if !ok then StorageError
             else if response.status == 401 || response.status == 403 then Reported(AuthenticationFailure, faults)
             else Reported(RetryLater, faults);
    }
    var decisions := Verdicts.ParseDecisions(response.body, IdsOf(claims));
    if decisions.Err? {
      var ok := GiveClaimBack(store, claims, faults.release);
      return if ok then Reported(RetryLater, faults) else StorageError;
    }
    var applied := store.ApplyDecisions(claims, decisions.value, faults.apply);
    if applied.Err? {
      var _ := GiveClaimBack(store, claims, faults.release);
      return StorageError;
    }
    return Reported(Delivered, faults);
  }
}
