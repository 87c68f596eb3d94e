/** What a drain reports to the worker loop, which waits for credentials, backs off or goes on accordingly. */
module Reports {
  import opened Options
  import opened Events
  import opened Store
  import opened StoreProperties
  import opened Forwarder
  import opened ForwarderProperties
  import Batch
  import Json
  import Verdicts

  /** The request for the claim can be written, and the HTTP client takes it: at most 9 MiB. */
  predicate Goes(claims: seq<Claim>) {
    Batch.Body(EventsOf(claims)).Ok? && 0 < Json.Bytes(Batch.Body(EventsOf(claims)).value) <= 9_437_184
  }

  /** The client hands back a response of at most 1 MiB with this status. */
  predicate Returns(http: Http, status: int) {
    http.Answered? && http.status == status && http.size <= 1_048_576
  }

  /** The backend refuses the gateway's credential. */
  predicate Refused(claims: seq<Claim>, http: Http) {
    Goes(claims) && (Returns(http, 401) || Returns(http, 403))
  }

  /** The response decides the whole claim. */
  predicate Decided(claims: seq<Claim>, http: Http) {
    Goes(claims) && Returns(http, 200) && Verdicts.Decisions(http.body, Forwarder.IdsOf(claims)).Ok?
  }

  /** The claim succeeds and takes these rows. */
  predicate Takes(t: Tables, faults: Faults, claims: seq<Claim>) {
    faults.claim.None? && ClaimHead(t, MAX_BATCH).Ok? && ClaimHead(t, MAX_BATCH).value.1 == claims
  }

  lemma ReactionIs(claims: seq<Claim>, http: Http)
    ensures React(claims, http) == HandBack(AuthenticationFailure) <==> Refused(claims, http)
    ensures React(claims, http).Decide? <==> Decided(claims, http)
    ensures React(claims, http) == HandBack(RetryLater) <==> !Refused(claims, http) && !Decided(claims, http)
  {
    hide Verdicts.Decisions, Json.Bytes, Batch.Converted, Batch.Joined;
    assert Json.Bytes("") == 0 by { NoBytes(); }
  }

  lemma SettlementSays(t: Tables, claims: seq<Claim>, reaction: Reaction, faults: Faults)
    requires Apply(t, claims, Retries(|claims|)).Ok?
    requires reaction.Decide? ==> Apply(t, claims, reaction.decisions).Ok?
    ensures
      Settle(t, claims, reaction, faults).1 ==
      if reaction.Decide? then if faults.apply.None? && !faults.depth then Delivered else StorageError
      else if faults.release.None? && !faults.depth then reaction.result
      else StorageError
  {
    hide ApplyAll;
  }

  /**
   The report, exactly, whatever the network answers and storage does: idle when nothing is pending; an
   authentication failure when the backend refused the credential with status 401 or 403; delivered when a 200
   decides the claim and the decisions commit; to be retried for everything else that left the claim undecided,
   be it a claim that cannot be converted or is too large, no usable response, another status, or a 200 that
   cannot be read; and a storage error in all other cases.
   */
  lemma ReportIsExact(t: Tables, http: Http, arrivals: seq<Event>, faults: Faults)
    requires WellFormed(t)
    ensures
      var report := Drain(t, http, arrivals, faults).1;
      && (report == Idle <==> Takes(t, faults, []))
      && (forall claims :: Takes(t, faults, claims) && claims != [] ==>
            && (report == AuthenticationFailure <==>
                  Refused(claims, http) && faults.release.None? && !faults.depth)
            && (report == Delivered <==> Decided(claims, http) && faults.apply.None? && !faults.depth)
            && (report == RetryLater <==>
                  !Refused(claims, http) && !Decided(claims, http) && faults.release.None? && !faults.depth))
      && (faults.claim.Some? || ClaimHead(t, MAX_BATCH).Err? ==> report == StorageError)
  {
    hide ClaimHead, React, Refused, Decided, Apply, Settle, Inserts;
    if faults.claim.None? && ClaimHead(t, MAX_BATCH).Ok? {
      var (u, claims) := ClaimHead(t, MAX_BATCH).value;
      if claims != [] {
        var reaction := React(claims, http);
        ReactionIs(claims, http);
        HandBackResults(claims, http);
        ClaimSurvivesInserts(t, arrivals, Retries(|claims|));
        if reaction.Decide? {
          ReactionIsWellReasoned(claims, http);
          ClaimSurvivesInserts(t, arrivals, reaction.decisions);
        }
        SettlementSays(Inserts(u, arrivals), claims, reaction, faults);
      }
    }
  }

  /** A claim is empty exactly when nothing is pending. */
  lemma IdleMeansNothingPending(t: Tables, faults: Faults)
    ensures Takes(t, faults, []) <==> faults.claim.None? && PendingIds(t) == {}
  {
    hide ClaimHead, Head;
    if PendingIds(t) == {} {
      NothingToTake(t);
    }
    if ClaimHead(t, MAX_BATCH).Ok? {
      ClaimTakesTheHead(t, MAX_BATCH);
    }
  }

  lemma NothingToTake(t: Tables)
    requires PendingIds(t) == {}
    ensures ClaimHead(t, MAX_BATCH).Ok?
  {
    hide Head;
    assert forall id :: id in Head(t, MAX_BATCH) ==> id in PendingIds(t);
  }
}
