/**
 The pipeline gets things done: once storage works and the backend answers, every round of claim, answer and
 outcome moves the line of queued events forward, until the first claim that holds an event the backend
 cannot read.  Nothing behind that point ever moves.
 */
module Progress {
  import opened Options
  import opened Events
  import opened Line
  import opened Poison
  import opened Resting
  import opened Store
  import opened StoreProperties
  import opened Forwarder
  import opened ForwarderProperties
  import opened Pipeline
  import Answers
  import Batch
  import Document
  import EventParser
  import Ingestion
  import IngestionProperties
  import Intake
  import Json
  import Outcomes
  import Requests
  import Splicer
  import Validation
  import Verdicts

  /** The decoding rejects as the backend's validation does, on what the gateway really sends. */
  ghost predicate Validates(decode: Decoder) {
    forall e, ms :: Batch.Accepted(e) && Validation.Sends(e, ms) && decode(e).Unreadable? ==>
      Rejects(decode(e).result, Document.Obj(Document.ParsedMembers(ms).value))
  }

  predicate Rejects(result: Outcomes.ResultItem, doc: Document.Doc) {
    result.outcome.Rejected? && result == Validation.Refusal(doc, result.outcome.reason)
  }

  /** One round with the backend: who asks, the batch id of the answer, and the clocks for each event. */
  datatype Round = Round(gateway: string, batchId: string, ticks: nat -> Ticks)

  function TicksOf(round: Round, n: nat): (ticks: seq<Ticks>)
    ensures |ticks| == n
  {
    seq(n, i requires 0 <= i < n => round.ticks(i))
  }

  /** The backend's answer to a request it cannot read. */
  const REFUSED := Answered(400, None, 0)

  /** What the network brings for the claim at hand: the backend's outcomes, or its refusal of the batch. */
  ghost function AnswerStep(claims: seq<Claim>, round: Round): Step {
    if Requests.RequestReads(EventsOf(claims)) then Deliver(round.gateway, round.batchId, TicksOf(round, |claims|))
    else Fail(REFUSED)
  }

  /** The steps of one round without faults. */
  ghost function RoundSteps(s: System, round: Round): seq<Step> {
    if s.tables.queue == map[] || ClaimHead(s.tables, MAX_BATCH).Err? then [TakeClaim]
    else [TakeClaim, AnswerStep(ClaimHead(s.tables, MAX_BATCH).value.1, round), Finish(NO_FAULTS)]
  }

  predicate Welcome(s: System, round: Round) {
    Ingestion.Eligible(s.backend, round.gateway) && 0 < Json.Bytes(round.batchId) <= 128
  }

  // The backend's answer is a good one

  lemma ItemIsGood(
      decode: Decoder, db: Ingestion.Db, gateway: string, e: Event, tick: Ticks, result: Outcomes.ResultItem)
    requires Faithful(decode) && Validates(decode) && Batch.Convertible(e)
    requires IngestionProperties.NamesReading(ItemOf(decode, e, tick), result)
    requires ItemOf(decode, e, tick).Refused? ==> result == ItemOf(decode, e, tick).result
    ensures Verdicts.Names(result, e.id) && Answers.Bounded(result)
  {
    hide Batch.Accepted, Json.Bytes, Splicer.Splice, Json.Text, Json.Valid, Validation.Refusal, Document.ParsedMembers;
    Validation.IdentityIsValid(e);
    var d := decode(e);
    if d.Unreadable? {
      var ms := Validation.SentMembers(e);
      assert Rejects(d.result, Document.Obj(Document.ParsedMembers(ms).value));
      Validation.RefusalNamesItsEvent(e, ms, d.result.outcome.reason);
    }
  }

  lemma AnswerIsGood(decode: Decoder, s: System, round: Round, claims: seq<Claim>)
    requires Faithful(decode) && Validates(decode) && 0 < |claims| <= MAX_BATCH
    requires 0 < Json.Bytes(round.batchId) <= 128
    requires forall i :: 0 <= i < |claims| ==> Batch.Convertible(claims[i].event)
    ensures
      var items := ItemsOf(decode, EventsOf(claims), TicksOf(round, |claims|));
      var results := Ingestion.IngestItems(s.backend, round.gateway, items).1;
      GoodAnswer(claims, Reply(round.batchId, results), round.batchId, results)
  {
    hide Batch.Convertible, Json.Bytes, Ingestion.IngestItem, Validates, Outcomes.ResponseDoc, Answers.AnswerText,
         IngestionProperties.NamesReading, Verdicts.Names, Answers.Bounded;
    var ticks := TicksOf(round, |claims|);
    var items := ItemsOf(decode, EventsOf(claims), ticks);
    var results := Ingestion.IngestItems(s.backend, round.gateway, items).1;
    IngestionProperties.AnswersNameTheirItems(s.backend, round.gateway, items);
    forall i | 0 <= i < |claims| ensures Verdicts.Names(results[i], claims[i].event.id) && Answers.Bounded(results[i]) {
      ItemIsGood(decode, s.backend, round.gateway, claims[i].event, ticks[i], results[i]);
    }
    forall r | r in results ensures Answers.Bounded(r) {
      var i :| 0 <= i < |results| && results[i] == r;
    }
    Answers.AnswerFits(round.batchId, results);
  }

  // How far the line moves

  /** The rank of the first event the backend cannot read; the length when it reads all. */
  ghost function FirstUnread(line: seq<Event>): (r: nat)
    ensures r <= |line|
  {
    if line == [] || !Requests.EventReads(line[0]) then 0 else 1 + FirstUnread(line[1..])
  }

  lemma {:induction false} FirstUnreadIsFirst(line: seq<Event>)
    ensures
      var r := FirstUnread(line);
      && (forall i :: 0 <= i < r ==> Requests.EventReads(line[i]))
      && (r < |line| ==> !Requests.EventReads(line[r]))
  {
    hide Requests.EventReads;
    if line != [] && Requests.EventReads(line[0]) {
      FirstUnreadIsFirst(line[1..]);
      forall i | 0 <= i < FirstUnread(line) ensures Requests.EventReads(line[i]) {
        assert i > 0 ==> line[i] == line[1..][i - 1];
      }
    }
  }

  /** With `unread` good events in front of a bad one, whole claims of good ones. */
  function Settleable(length: nat, unread: nat, rounds: nat): (n: nat)
    requires unread <= length
    ensures n <= length
  {
    var reach := if unread == length then length else unread / MAX_BATCH * MAX_BATCH;
    if MAX_BATCH * rounds < reach then MAX_BATCH * rounds else reach
  }

  /** How many events these many rounds settle: none of the claim that holds the first unreadable one. */
  ghost function Cleared(line: seq<Event>, rounds: nat): (n: nat)
    ensures n <= |line|
  {
    Settleable(|line|, FirstUnread(line), rounds)
  }

  lemma {:induction false} FirstUnreadIs(line: seq<Event>, r: nat)
    requires r <= |line| && (forall i :: 0 <= i < r ==> Requests.EventReads(line[i]))
    requires r < |line| ==> !Requests.EventReads(line[r])
    ensures FirstUnread(line) == r
  {
    hide Requests.EventReads;
    FirstUnreadIsFirst(line);
  }

  /** One round settles the claim at the head of the line if the backend can read all of it. */
  lemma OneRoundClears(line: seq<Event>)
    ensures
      var n := ClaimSize(|line|);
      Cleared(line, 1) == if forall e :: e in line[..n] ==> Requests.EventReads(e) then n else 0
  {
    hide Requests.EventReads;
    FirstUnreadIsFirst(line);
    var n, r := ClaimSize(|line|), FirstUnread(line);
    assert forall i :: 0 <= i < n ==> line[..n][i] == line[i];
    if r < n {
      assert line[r] in line[..n];
    } else {
      forall e | e in line[..n] ensures Requests.EventReads(e) {
        var i :| 0 <= i < n && line[..n][i] == e;
      }
    }
  }

  lemma SettleMore(length: nat, unread: nat, rounds: nat)
    requires unread <= length
    ensures
      var n := Settleable(length, unread, 1);
      n <= unread && Settleable(length, unread, rounds + 1) == n + Settleable(length - n, unread - n, rounds)
  {
  }

  lemma MoreRoundsClear(line: seq<Event>, rounds: nat)
    ensures Cleared(line, rounds + 1) == Cleared(line, 1) + Cleared(line[Cleared(line, 1)..], rounds)
    ensures Cleared(line, 1) > 0 ==>
      (FirstUnread(line[Cleared(line, 1)..]) == |line[Cleared(line, 1)..]| <==> FirstUnread(line) == |line|)
  {
    hide Requests.EventReads, FirstUnread, Settleable;
    FirstUnreadIsFirst(line);
    var n, r := Cleared(line, 1), FirstUnread(line);
    SettleMore(|line|, r, rounds);
    assert n == 0 ==> line[n..] == line;
    FirstUnreadIs(line[n..], r - n);
  }

  // One round

  /** Ready for rounds: at rest, all pending, all accepted, and with this many claims to spare. */
  ghost predicate Startable(s: System, decode: Decoder, claims: nat) {
    Inv(s, decode) && s.phase.Resting? && Intake.AllAccepted(s.tables) && ReadyFor(s.tables, claims)
  }

  lemma EmptyRound(decode: Decoder, s: System)
    requires ReadyFor(s.tables, 0) && s.phase.Resting? && s.tables.queue == map[]
    ensures Enabled(s, TakeClaim) && Next(decode, s, TakeClaim) == s
  {
    hide WellFormed, Head;
    ClaimTakesTheHead(s.tables, MAX_BATCH);
    var (u, claims) := ClaimHead(s.tables, MAX_BATCH).value;
    assert u.queue == map[];
    assert PendingIds(s.tables) == {};
  }

  lemma TakesClaim(decode: Decoder, s: System, line: seq<Event>)
    requires Startable(s, decode, 1) && InLine(s.tables, line) && s.tables.queue != map[]
    ensures Enabled(s, TakeClaim) && ClaimHead(s.tables, MAX_BATCH).Ok?
    ensures
      var claims := ClaimHead(s.tables, MAX_BATCH).value.1;
      && |claims| == ClaimSize(|line|) && 0 < |claims| <= MAX_BATCH && EventsOf(claims) == line[..|claims|]
      && Next(decode, s, TakeClaim).phase == Posted(claims)
      && (forall i :: 0 <= i < |claims| ==> Batch.Accepted(claims[i].event) && |claims[i].event.receivedAt| <= 400)
  {
    hide Inv, ClaimHead, Batch.Accepted, WellFormed, InLine;
    ReadyClaims(s.tables);
    HeadOfLine(s.tables, line);
    ClaimCount(s.tables);
    ClaimTakesTheHead(s.tables, MAX_BATCH);
  }

  lemma ReadableIsConvertible(e: Event)
    requires Batch.Accepted(e) && Requests.EventReads(e)
    ensures Batch.Convertible(e)
  {
    hide Batch.Accepted, Splicer.Splice, EventParser.StartsWithMark;
    if EventParser.StartsWithMark(e.payload) {
      EventParser.MarkIsNoObject(e.payload, e.receivedAt);
    }
  }

  lemma ClaimReads(claims: seq<Claim>)
    requires claims != [] && forall i :: 0 <= i < |claims| ==> Batch.Accepted(claims[i].event)
    ensures Requests.RequestReads(EventsOf(claims)) <==> forall e :: e in EventsOf(claims) ==> Requests.EventReads(e)
    ensures Requests.RequestReads(EventsOf(claims)) ==>
      forall i :: 0 <= i < |claims| ==> Batch.Convertible(claims[i].event)
  {
    hide Batch.Accepted, Requests.RequestReads, Requests.EventReads, Batch.Convertible;
    var events := EventsOf(claims);
    forall e | e in events ensures Batch.Accepted(e) {
      var i :| 0 <= i < |events| && events[i] == e;
    }
    Requests.RequestReadsExactly(events);
    if Requests.RequestReads(events) {
      forall i | 0 <= i < |claims| ensures Batch.Convertible(claims[i].event) {
        assert events[i] in events;
        ReadableIsConvertible(claims[i].event);
      }
    }
  }

  /** The answer can come, and decides the claim exactly when the backend reads the request. */
  lemma AnswerComes(decode: Decoder, s: System, a: System, claims: seq<Claim>, round: Round)
    requires Faithful(decode) && Validates(decode) && Welcome(a, round)
    requires a.phase == Posted(claims) && 0 < |claims| <= MAX_BATCH
    requires forall i :: 0 <= i < |claims| ==> Batch.Accepted(claims[i].event) && |claims[i].event.receivedAt| <= 400
    ensures Enabled(a, AnswerStep(claims, round))
    ensures
      var b := Next(decode, a, AnswerStep(claims, round));
      && b.phase.Replied? && b.tables == a.tables && b.inserted == a.inserted
      && b.backend.gateways == a.backend.gateways && b.phase.claims == claims
      && (React(claims, b.phase.http).Decide? <==> Requests.RequestReads(EventsOf(claims)))
  {
    hide Batch.Accepted, Batch.Convertible, Requests.RequestReads, Requests.EventReads, Json.Bytes, GoodAnswer,
         Ingestion.IngestItems, Answers.AnswerText, Outcomes.ResponseDoc, Validates, Faithful, React;
    ClaimReads(claims);
    if Requests.RequestReads(EventsOf(claims)) {
      AnswerIsGood(decode, a, round, claims);
      var items := ItemsOf(decode, EventsOf(claims), TicksOf(round, |claims|));
      var results := Ingestion.IngestItems(a.backend, round.gateway, items).1;
      Ingestion.IngestKeepsRegistry(a.backend, round.gateway, items);
      GoodAnswerDecides(claims, Reply(round.batchId, results), round.batchId, results);
    } else {
      RefusalReturns(claims);
    }
  }

  lemma RefusalReturns(claims: seq<Claim>)
    ensures React(claims, REFUSED).HandBack?
  {
    hide Batch.Body, Json.Bytes;
  }

  lemma NothingBetween(decode: Decoder, s: System, a: System, answer: Step, v: System)
    requires Enabled(s, TakeClaim) && a == Next(decode, s, TakeClaim) && a.phase.Posted?
    requires (answer.Deliver? || answer.Fail?) && Enabled(a, answer) && v == Next(decode, a, answer)
    ensures Enabled(v, Finish(NO_FAULTS))
    ensures Next(decode, v, Finish(NO_FAULTS)).tables == Drain(s.tables, v.phase.http, [], NO_FAULTS).0
  {
    hide Next, Drain, Requests.RequestReads, ClaimHead, React;
    assert Intakes([]) == [];
    assert Pipeline.Run(decode, a, []) == a;
    DrainIsTheseSteps(decode, s, [], a, answer, v, NO_FAULTS);
  }

  lemma RunStep(decode: Decoder, s: System, steps: seq<Step>)
    requires steps != [] && Enabled(s, steps[0]) && Possible(decode, Next(decode, s, steps[0]), steps[1..])
    ensures Possible(decode, s, steps)
    ensures Pipeline.Run(decode, s, steps) == Pipeline.Run(decode, Next(decode, s, steps[0]), steps[1..])
  {
    hide Next, Enabled;
  }

  lemma ThreeSteps(decode: Decoder, s: System, first: Step, second: Step, third: Step)
    requires Enabled(s, first)
    requires Enabled(Next(decode, s, first), second)
    requires Enabled(Next(decode, Next(decode, s, first), second), third)
    ensures Possible(decode, s, [first, second, third])
    ensures
      Pipeline.Run(decode, s, [first, second, third])
      == Next(decode, Next(decode, Next(decode, s, first), second), third)
  {
    hide Next, Enabled;
    var a := Next(decode, s, first);
    var b := Next(decode, a, second);
    var steps, two, one := [first, second, third], [second, third], [third];
    assert steps[1..] == two && two[1..] == one && one[1..] == [];
    RunStep(decode, b, one);
    RunStep(decode, a, two);
    RunStep(decode, s, steps);
  }

  /** What one round does to the tables: it is a drain, and decides its claim when the backend can read it. */
  lemma FullRound(decode: Decoder, s: System, round: Round, line: seq<Event>) returns (http: Http)
    requires Faithful(decode) && Validates(decode) && Startable(s, decode, 1) && Welcome(s, round)
    requires InLine(s.tables, line) && s.tables.queue != map[]
    ensures Possible(decode, s, RoundSteps(s, round)) && ClaimHead(s.tables, MAX_BATCH).Ok?
    ensures
      var u := Pipeline.Run(decode, s, RoundSteps(s, round));
      && u.phase.Resting? && u.inserted == s.inserted && u.backend.gateways == s.backend.gateways
      && u.tables == Drain(s.tables, http, [], NO_FAULTS).0
      && (React(ClaimHead(s.tables, MAX_BATCH).value.1, http).Decide? <==> Cleared(line, 1) > 0)
      && Cleared(line, 1) in [0, ClaimSize(|line|)]
  {
    hide Inv, ClaimHead, Batch.Accepted, Ingestion.IngestItems, Settle, React, Json.Bytes, Requests.RequestReads,
         Requests.EventReads, Validates, Faithful, Drain, Pipeline.Run, Possible, InLine, ReadyFor, AnswerStep,
         Intake.AllAccepted, Cleared;
    TakesClaim(decode, s, line);
    var claims := ClaimHead(s.tables, MAX_BATCH).value.1;
    var a := Next(decode, s, TakeClaim);
    var answer := AnswerStep(claims, round);
    AnswerComes(decode, s, a, claims, round);
    AnswerIsAnAnswer(claims, round);
    NothingBetween(decode, s, a, answer, Next(decode, a, answer));
    ThreeSteps(decode, s, TakeClaim, answer, Finish(NO_FAULTS));
    ClaimReads(claims);
    OneRoundClears(line);
    http := Next(decode, a, answer).phase.http;
  }

  lemma AnswerIsAnAnswer(claims: seq<Claim>, round: Round)
    ensures AnswerStep(claims, round).Deliver? || AnswerStep(claims, round).Fail?
  {
  }

  /** How often a row may still be claimed: once when everything reads, else in every round. */
  ghost function Lives(line: seq<Event>, rounds: nat): nat {
    if FirstUnread(line) == |line| then 1 else rounds
  }

  lemma FewerClaims(t: Tables, more: nat, claims: nat)
    requires ReadyFor(t, more) && claims <= more
    ensures ReadyFor(t, claims)
  {
  }

  lemma DecidedKeepsReady(t: Tables, http: Http, claims: nat)
    requires ReadyFor(t, claims) && claims > 0 && ClaimHead(t, MAX_BATCH).Ok?
    requires React(ClaimHead(t, MAX_BATCH).value.1, http).Decide?
    ensures ReadyFor(Drain(t, http, [], NO_FAULTS).0, claims)
  {
    hide ClaimHead, React, Drain, WellFormed, IdSet;
    DrainExactly(t, http);
  }

  lemma DrainKeepsLives(t: Tables, http: Http, line: seq<Event>, rounds: nat)
    requires ReadyFor(t, Lives(line, rounds + 1)) && InLine(t, line) && ClaimHead(t, MAX_BATCH).Ok?
    requires t.queue != map[]
    requires React(ClaimHead(t, MAX_BATCH).value.1, http).Decide? <==> Cleared(line, 1) > 0
    requires Cleared(line, 1) in [0, ClaimSize(|line|)]
    ensures
      var w := Drain(t, http, [], NO_FAULTS).0;
      && InLine(w, line[Cleared(line, 1)..]) && ReadyFor(w, Lives(line[Cleared(line, 1)..], rounds))
  {
    hide ClaimHead, React, Drain, ReadyFor, InLine, FirstUnread, Cleared, Requests.EventReads;
    var n, rest := Cleared(line, 1), line[Cleared(line, 1)..];
    FewerClaims(t, Lives(line, rounds + 1), 1);
    OneIsReady(t);
    DrainMovesLine(t, line, http);
    MoreRoundsClear(line, rounds);
    assert n == 0 ==> rest == line;
    if n > 0 && FirstUnread(line) == |line| {
      DecidedKeepsReady(t, http, 1);
    } else if FirstUnread(line) == |line| {
      NothingCleared(t, line);
    } else {
      DrainKeepsReady(t, http, rounds);
    }
  }

  lemma ReadyIsPending(t: Tables, claims: nat)
    requires ReadyFor(t, claims)
    ensures AllPending(t)
  {
  }

  lemma OneIsReady(t: Tables)
    requires ReadyFor(t, 1)
    ensures Ready(t) && AllPending(t)
  {
  }

  /** A queue that is not empty and reads throughout has something to settle. */
  lemma NothingCleared(t: Tables, line: seq<Event>)
    requires InLine(t, line) && t.queue != map[] && FirstUnread(line) == |line|
    ensures Cleared(line, 1) > 0
  {
    hide FirstUnread, Sooner;
    var id :| id in t.queue;
    assert EventAt(t, id) in line;
  }

  lemma RoundStoresNothing(s: System, round: Round)
    ensures OnlyAccepted(RoundSteps(s, round))
  {
    hide ClaimHead, Requests.RequestReads, Batch.Accepted;
  }

  /** One round moves the line by what it clears, and leaves the pipeline ready for the next. */
  lemma OneRound(decode: Decoder, s: System, round: Round, line: seq<Event>, rounds: nat)
    requires Faithful(decode) && Validates(decode) && Welcome(s, round) && InLine(s.tables, line)
    requires Startable(s, decode, Lives(line, rounds + 1))
    ensures Possible(decode, s, RoundSteps(s, round))
    ensures
      var u, rest := Pipeline.Run(decode, s, RoundSteps(s, round)), line[Cleared(line, 1)..];
      && Startable(u, decode, Lives(rest, rounds)) && InLine(u.tables, rest)
      && u.inserted == s.inserted && u.backend.gateways == s.backend.gateways
  {
    hide Inv, Next, Enabled, Validates, Faithful, RoundSteps, InLine, ReadyFor, Intake.AllAccepted, Lives, Cleared,
         Drain, OnlyAccepted, ClaimHead, React;
    LivesAreSome(line, rounds);
    FewerClaims(s.tables, Lives(line, rounds + 1), 1);
    RoundStoresNothing(s, round);
    if s.tables.queue == map[] {
      NoRound(decode, s, round, line, rounds);
    } else {
      var http := FullRound(decode, s, round, line);
      DrainKeepsLives(s.tables, http, line, rounds);
    }
    RunKeepsSane(decode, s, RoundSteps(s, round));
  }

  lemma LivesAreSome(line: seq<Event>, rounds: nat)
    ensures Lives(line, rounds + 1) >= 1
  {
  }

  lemma NoRound(decode: Decoder, s: System, round: Round, line: seq<Event>, rounds: nat)
    requires InLine(s.tables, line) && ReadyFor(s.tables, Lives(line, rounds + 1)) && s.phase.Resting?
    requires s.tables.queue == map[]
    ensures line == [] && line[Cleared(line, 1)..] == line
    ensures Possible(decode, s, RoundSteps(s, round)) && Pipeline.Run(decode, s, RoundSteps(s, round)) == s
    ensures ReadyFor(s.tables, Lives(line, rounds))
  {
    hide Next, Enabled, ClaimHead, Sooner;
    LinePlaces(s.tables, line);
    EmptyRound(decode, s);
    var steps := RoundSteps(s, round);
    assert steps == [TakeClaim] && steps[1..] == [];
    RunStep(decode, s, steps);
  }

  // Many rounds

  lemma {:induction false} RunConcat(decode: Decoder, s: System, a: seq<Step>, b: seq<Step>)
    requires Possible(decode, s, a) && Possible(decode, Pipeline.Run(decode, s, a), b)
    ensures Possible(decode, s, a + b)
    ensures Pipeline.Run(decode, s, a + b) == Pipeline.Run(decode, Pipeline.Run(decode, s, a), b)
    decreases |a|
  {
    hide Next, Enabled;
    if a == [] {
      assert a + b == b;
    } else {
      assert (a + b)[0] == a[0] && (a + b)[1..] == a[1..] + b;
      RunConcat(decode, Next(decode, s, a[0]), a[1..], b);
      RunStep(decode, s, a + b);
    }
  }

  /** The steps of all rounds, each starting where the one before it ends. */
  ghost function AllSteps(decode: Decoder, s: System, rounds: seq<Round>): seq<Step>
    decreases |rounds|
  {
    if rounds == [] || !Possible(decode, s, RoundSteps(s, rounds[0])) then []
    else
      var first := RoundSteps(s, rounds[0]);
      first + AllSteps(decode, Pipeline.Run(decode, s, first), rounds[1..])
  }

  /** The rounds settle exactly the events they can clear, in order. */
  lemma {:induction false} RoundsClear(decode: Decoder, s: System, rounds: seq<Round>, line: seq<Event>)
    requires Faithful(decode) && Validates(decode) && InLine(s.tables, line)
    requires Startable(s, decode, Lives(line, |rounds|))
    requires forall r :: r in rounds ==> Welcome(s, r)
    ensures Possible(decode, s, AllSteps(decode, s, rounds))
    ensures
      var u := Pipeline.Run(decode, s, AllSteps(decode, s, rounds));
      && Inv(u, decode) && u.phase.Resting? && u.inserted == s.inserted && AllPending(u.tables)
      && InLine(u.tables, line[Cleared(line, |rounds|)..])
    decreases |rounds|
  {
    hide Inv, Next, Enabled, Validates, Faithful, RoundSteps, InLine, ReadyFor, Intake.AllAccepted, Lives, FirstUnread,
         Json.Bytes;
    if rounds == [] {
      assert line[Cleared(line, 0)..] == line;
      ReadyIsPending(s.tables, Lives(line, 0));
    } else {
      assert rounds[0] in rounds;
      OneRound(decode, s, rounds[0], line, |rounds| - 1);
      var first, n := RoundSteps(s, rounds[0]), Cleared(line, 1);
      var u, rest := Pipeline.Run(decode, s, first), line[n..];
      forall r | r in rounds[1..] ensures Welcome(u, r) {
        assert r in rounds;
      }
      RoundsClear(decode, u, rounds[1..], rest);
      MoreRoundsClear(line, |rounds| - 1);
      assert rest[Cleared(rest, |rounds| - 1)..] == line[Cleared(line, |rounds|)..];
      RunConcat(decode, s, first, AllSteps(decode, u, rounds[1..]));
    }
  }

  // From any run

  /** The event is in quarantine with its bytes and receipt time, or in the backend with equal content. */
  predicate AtRest(u: System, decode: Decoder, e: Event) {
    Shelved(u.tables, e) || Arrived(u.backend, decode, e)
  }

  /** The rounds can be run, leave exactly the rest of the line queued, and everything else ever stored at rest. */
  ghost predicate ClearsExactly(decode: Decoder, s: System, rounds: seq<Round>) {
    var steps, line := AllSteps(decode, s, rounds), LineOf(s.tables);
    var rest := line[Cleared(line, |rounds|)..];
    && Possible(decode, s, steps)
    && var u := Pipeline.Run(decode, s, steps);
       && InLine(u.tables, rest) && |u.tables.queue| == |rest|
       && forall e :: e in s.inserted && e !in rest ==> AtRest(u, decode, e)
  }

  /** The rounds empty the queue if and only if the backend can read every event in it. */
  ghost predicate EmptiesExactly(decode: Decoder, s: System, rounds: seq<Round>) {
    var steps := AllSteps(decode, s, rounds);
    && Possible(decode, s, steps)
    && (Pipeline.Run(decode, s, steps).tables.queue == map[] <==>
        forall e :: e in LineOf(s.tables) ==> Requests.EventReads(e))
  }

  /** There are ceil(n / 500) rounds for n rows. */
  predicate Enough(s: System, rounds: seq<Round>) {
    |rounds| >= (|s.tables.queue| + MAX_BATCH - 1) / MAX_BATCH
  }

  /** The backend welcomes every round, and the rows have the claims to spare that the rounds need. */
  ghost predicate Prepared(s: System, rounds: seq<Round>) {
    && (forall r :: r in rounds ==> Welcome(s, r))
    && Intake.Spare(s.tables, Lives(LineOf(s.tables), |rounds|))
  }

  lemma AllOrNot(line: seq<Event>, rounds: nat)
    requires rounds >= (|line| + MAX_BATCH - 1) / MAX_BATCH
    ensures Cleared(line, rounds) == |line| <==> forall e :: e in line ==> Requests.EventReads(e)
  {
    hide Requests.EventReads;
    FirstUnreadIsFirst(line);
    var r := FirstUnread(line);
    if r < |line| {
      assert line[r] in line;
    } else {
      forall e | e in line ensures Requests.EventReads(e) {
        var i :| 0 <= i < |line| && line[i] == e;
      }
    }
  }

  lemma RestIsSafe(u: System, decode: Decoder, rest: seq<Event>, e: Event)
    requires Inv(u, decode) && InLine(u.tables, rest) && e in u.inserted && e !in rest
    ensures AtRest(u, decode, e)
  {
    hide WellFormed, Ingestion.SoundDb, PhaseHolds, Sooner;
    assert Safe(u, decode, e);
    if Queued(u.tables, e) {
      QueuedIsInLine(u.tables, rest, e);
    }
  }

  lemma QueuedIsInLine(t: Tables, line: seq<Event>, e: Event)
    requires InLine(t, line) && Queued(t, e)
    ensures e in line
  {
    hide Sooner;
    assert EventAt(t, e.id) == e;
  }

  lemma LineSize(t: Tables, line: seq<Event>)
    requires InLine(t, line) && AllPending(t)
    ensures |line| == |t.queue|
  {
    hide Sooner;
    LinePlaces(t, line);
  }

  lemma SettledFrom(decode: Decoder, s: System, rounds: seq<Round>)
    requires Faithful(decode) && Validates(decode) && Prepared(s, rounds)
    requires Inv(s, decode) && s.phase.Resting? && Intake.AllAccepted(s.tables) && AllPending(s.tables)
    ensures ClearsExactly(decode, s, rounds)
    ensures Enough(s, rounds) ==> EmptiesExactly(decode, s, rounds)
  {
    hide Pipeline.Run, Possible, AllSteps, Faithful, Validates, Json.Bytes, Inv, LineOf, InLine, Lives, Cleared,
         Requests.EventReads, Batch.Accepted;
    var line := LineOf(s.tables);
    LineOfIsInLine(s.tables);
    LineSize(s.tables, line);
    assert Startable(s, decode, Lives(line, |rounds|)) by { hide WellFormed; AcceptedIsWellFormed(s.tables); }
    RoundsClear(decode, s, rounds, line);
    var u := Pipeline.Run(decode, s, AllSteps(decode, s, rounds));
    var n := Cleared(line, |rounds|);
    LineSize(u.tables, line[n..]);
    forall e | e in s.inserted && e !in line[n..] ensures AtRest(u, decode, e) {
      RestIsSafe(u, decode, line[n..], e);
    }
    if Enough(s, rounds) {
      AllOrNot(line, |rounds|);
    }
  }

  lemma AcceptedIsWellFormed(t: Tables)
    requires Intake.AllAccepted(t)
    ensures WellFormed(t)
  {
    hide WellFormed, Batch.Accepted;
  }

  lemma RebootIsReady(decode: Decoder, s: System)
    requires Faithful(decode) && Inv(s, decode) && Intake.AllAccepted(s.tables)
    ensures
      var r := Rebooted(decode, s);
      && Inv(r, decode) && r.phase.Resting? && Intake.AllAccepted(r.tables) && AllPending(r.tables)
      && r.inserted == s.inserted && r.backend == s.backend
  {
    hide Batch.Accepted, Faithful, Inv, WellFormed, Intake.AllAccepted;
    StepKeeps(s, decode, Reboot);
    StepKeepsAllAccepted(decode, s, Reboot);
  }

  /**
   Delivery: after any run that stored accepted events, a restart and any number of rounds in which storage
   works and the backend answers settle events in order, 500 a round, up to the claim with the first event
   the backend cannot read: if that event has rank r in the queue, exactly the first 500 * floor(r / 500) ever
   settle, and if there is none all do.  What is not left queued is in the backend with equal content or in
   quarantine.  So ceil(n / 500) rounds empty the queue of n rows if and only if the backend can read each row.
   */
  lemma EverythingIsSettled(decode: Decoder, backend: Ingestion.Db, steps: seq<Step>, rounds: seq<Round>)
    requires Faithful(decode) && Validates(decode) && Ingestion.SoundDb(backend)
    requires Possible(decode, Initial(backend), steps) && OnlyAccepted(steps)
    requires Prepared(Rebooted(decode, Pipeline.Run(decode, Initial(backend), steps)), rounds)
    ensures
      var restarted := Rebooted(decode, Pipeline.Run(decode, Initial(backend), steps));
      && ClearsExactly(decode, restarted, rounds)
      && (Enough(restarted, rounds) ==> EmptiesExactly(decode, restarted, rounds))
  {
    hide Pipeline.Run, Possible, Faithful, Validates, OnlyAccepted, Inv, Intake.AllAccepted, Prepared, Enough,
         Ingestion.SoundDb, ClearsExactly, EmptiesExactly, Rebooted;
    InitialIsSane(decode, backend);
    RunKeepsSane(decode, Initial(backend), steps);
    RebootIsReady(decode, Pipeline.Run(decode, Initial(backend), steps));
    SettledFrom(decode, Rebooted(decode, Pipeline.Run(decode, Initial(backend), steps)), rounds);
  }

  /**
   The same without a restart: wherever a forwarder comes to rest, if no finish since the last start abandoned
   its claim, the rounds take the queue up from there.
   */
  lemma SettledWithoutRestart(
      decode: Decoder, backend: Ingestion.Db, before: seq<Step>, since: seq<Step>, rounds: seq<Round>)
    requires Faithful(decode) && Validates(decode) && Ingestion.SoundDb(backend)
    requires Possible(decode, Initial(backend), before) && OnlyAccepted(before)
    requires
      var restarted := Rebooted(decode, Pipeline.Run(decode, Initial(backend), before));
      && Possible(decode, restarted, since) && OnlyAccepted(since) && NothingAbandoned(decode, restarted, since)
      && Pipeline.Run(decode, restarted, since).phase.Resting?
      && Prepared(Pipeline.Run(decode, restarted, since), rounds)
    ensures
      var s := Pipeline.Run(decode, Rebooted(decode, Pipeline.Run(decode, Initial(backend), before)), since);
      && ClearsExactly(decode, s, rounds)
      && (Enough(s, rounds) ==> EmptiesExactly(decode, s, rounds))
  {
    hide Pipeline.Run, Possible, Faithful, Validates, OnlyAccepted, Inv, Intake.AllAccepted, Prepared, Enough,
         Ingestion.SoundDb, ClearsExactly, EmptiesExactly, NothingAbandoned, Rebooted, HeldOnly;
    InitialIsSane(decode, backend);
    RunKeepsSane(decode, Initial(backend), before);
    var restarted := Rebooted(decode, Pipeline.Run(decode, Initial(backend), before));
    RebootIsReady(decode, Pipeline.Run(decode, Initial(backend), before));
    RunKeepsSane(decode, restarted, since);
    RestNeedsNoRestart(decode, backend, before, since);
    SettledFrom(decode, Pipeline.Run(decode, restarted, since), rounds);
  }
}
