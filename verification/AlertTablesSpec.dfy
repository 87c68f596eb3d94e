/**
 From one device's machine to the two alert tables: every reachable state of the tables is sound, no
 database constraint can be violated, and each device's episodes are the ones its own history specifies.
 */
module AlertTablesSpec {
  import opened Options
  import opened Alerts
  import opened AlertSpec

  // Soundness

  /** A device's episodes lie one after the other in time, and only the latest may be unresolved. */
  predicate OrderedEpisodes(t: AlertTables) {
    forall e, f :: e in t.episodes && f in t.episodes && e < f && t.episodes[e].device == t.episodes[f].device ==>
      t.episodes[e].resolvedAt.Some? && t.episodes[e].resolvedAt.value < t.episodes[f].openedAt
  }

  predicate SoundEpisode(t: AlertTables, e: nat)
    requires e in t.episodes
  {
    var ep := t.episodes[e];
    && e < t.nextEpisode
    && ep.device in t.states
    && ep.openedAt <= t.states[ep.device].lastEventAt
    && (ep.resolvedAt.Some? <==> ep.resolvingId.Some?)
    && (ep.resolvedAt.Some? ==> ep.openedAt < ep.resolvedAt.value <= t.states[ep.device].lastEventAt)
    && (t.states[ep.device].active == Some(e) <==> ep.resolvedAt.None?)
  }

  predicate SoundState(t: AlertTables, d: string)
    requires d in t.states
  {
    var st := t.states[d];
    && (st.active.Some? ==> st.active.value in t.episodes && t.episodes[st.active.value].device == d)
    && st.highStreak <= 2 && st.recoveryStreak <= 2
    && (if st.active.Some? then st.highStreak == 0 else st.recoveryStreak == 0)
  }

  /** Telemetry ids name at most one opening and at most one resolution, and are all older than `next`. */
  predicate SoundReferences(t: AlertTables, next: nat) {
    && (forall e :: e in t.episodes ==>
          t.episodes[e].openingId < next &&
          (t.episodes[e].resolvingId.Some? ==> t.episodes[e].resolvingId.value < next))
    && (forall e, f :: e in t.episodes && f in t.episodes && e != f ==>
          && t.episodes[e].openingId != t.episodes[f].openingId
          && (t.episodes[e].resolvingId.Some? ==> t.episodes[e].resolvingId != t.episodes[f].resolvingId))
  }

  predicate Sound(t: AlertTables, next: nat) {
    && (forall e :: e in t.episodes ==> SoundEpisode(t, e))
    && (forall d :: d in t.states ==> SoundState(t, d))
    && OrderedEpisodes(t)
    && SoundReferences(t, next)
  }

  /** The constraints of the `alert_episodes` and `alert_states` tables. */
  predicate Constraints(t: AlertTables) {
    && (forall e, f :: e in t.episodes && f in t.episodes && e != f ==>
          && t.episodes[e].openingId != t.episodes[f].openingId
          && (t.episodes[e].resolvingId.Some? ==> t.episodes[e].resolvingId != t.episodes[f].resolvingId)
          && (t.episodes[e].device == t.episodes[f].device ==>
                t.episodes[e].resolvedAt.Some? || t.episodes[f].resolvedAt.Some?))
    && (forall e :: e in t.episodes && t.episodes[e].resolvedAt.Some? ==>
          t.episodes[e].resolvedAt.value >= t.episodes[e].openedAt)
    && (forall d :: d in t.states ==>
          && t.states[d].highStreak <= 2 && t.states[d].recoveryStreak <= 2
          && (t.states[d].active.Some? ==> t.states[d].active.value in t.episodes))
    && (forall d, c :: d in t.states && c in t.states && d != c && t.states[d].active.Some? ==>
          t.states[d].active != t.states[c].active)
  }

  lemma SoundMeetsConstraints(t: AlertTables, next: nat)
    requires Sound(t, next)
    ensures Constraints(t) && ActiveKnown(t)
  {
    forall e, f | e in t.episodes && f in t.episodes && e != f && t.episodes[e].device == t.episodes[f].device
      ensures t.episodes[e].resolvedAt.Some? || t.episodes[f].resolvedAt.Some?
    {
      assert SoundEpisode(t, e) && SoundEpisode(t, f);
    }
    forall d, c | d in t.states && c in t.states && d != c && t.states[d].active.Some?
      ensures t.states[d].active != t.states[c].active
    {
      assert SoundState(t, d) && SoundState(t, c);
    }
    forall d | d in t.states && t.states[d].active.Some? ensures t.states[d].active.value in t.episodes {
      assert SoundState(t, d);
    }
  }

  lemma NothingIsSound()
    ensures Sound(NO_ALERTS, 0)
  {
  }

  /** Every evaluation keeps the tables sound; a new reading's telemetry id is newer than all before. */
  lemma EvaluateKeepsSound(t: AlertTables, device: string, s: Sample, next: nat)
    requires Sound(t, next) && s.telemetryId >= next
    ensures Sound(Evaluate(t, device, s), s.telemetryId + 1)
  {
    if !Skips(t, device, s) {
      var st := StateOf(t, device, s);
      if Opens(st, s) {
        OpeningIsSound(t, device, s, next);
      } else if Resolves(st, s) {
        ResolvingIsSound(t, device, s, next);
      } else {
        CountingIsSound(t, device, s, next);
      }
    }
  }

  lemma CountingIsSound(t: AlertTables, device: string, s: Sample, next: nat)
    requires Sound(t, next) && s.telemetryId >= next && !Skips(t, device, s)
    requires !Opens(StateOf(t, device, s), s) && !Resolves(StateOf(t, device, s), s)
    ensures Sound(Evaluate(t, device, s), s.telemetryId + 1)
  {
    var u := Evaluate(t, device, s);
    assert device in t.states ==> SoundState(t, device);
    forall e | e in u.episodes ensures SoundEpisode(u, e) {
      assert SoundEpisode(t, e);
    }
    forall d | d in u.states ensures SoundState(u, d) {
      assert d in t.states ==> SoundState(t, d);
    }
  }

  lemma OpeningIsSound(t: AlertTables, device: string, s: Sample, next: nat)
    requires Sound(t, next) && s.telemetryId >= next && !Skips(t, device, s)
    requires Opens(StateOf(t, device, s), s)
    ensures Sound(Evaluate(t, device, s), s.telemetryId + 1)
  {
    var u, new_ := Evaluate(t, device, s), t.nextEpisode;
    assert device in t.states ==> SoundState(t, device);
    assert new_ !in t.episodes by {
      assert forall e :: e in t.episodes ==> SoundEpisode(t, e);
    }
    forall e | e in u.episodes ensures SoundEpisode(u, e) {
      assert e != new_ ==> SoundEpisode(t, e);
    }
    forall d | d in u.states ensures SoundState(u, d) {
      assert d in t.states ==> SoundState(t, d);
    }
    forall e, f | e in u.episodes && f in u.episodes && e < f && u.episodes[e].device == u.episodes[f].device
      ensures u.episodes[e].resolvedAt.Some? && u.episodes[e].resolvedAt.value < u.episodes[f].openedAt
    {
      assert e != new_ ==> SoundEpisode(t, e);
      assert f != new_ ==> SoundEpisode(t, f);
    }
  }

  /** The tables after a resolution, spelled out. */
  lemma ResolvingEffect(t: AlertTables, device: string, s: Sample, next: nat)
    requires Sound(t, next) && !Skips(t, device, s) && Resolves(StateOf(t, device, s), s)
    ensures device in t.states && t.states[device].active.Some? && t.states[device].active.value in t.episodes
    ensures
      var st, id := t.states[device], t.states[device].active.value;
      && t.episodes[id].device == device && t.episodes[id].resolvedAt.None?
      && st.lastEventAt < s.eventAt
      && Evaluate(t, device, s) == AlertTables(
           t.states[device := State(s.eventAt, st.highStreak, 0, None)],
           t.episodes[id := t.episodes[id].(resolvedAt := Some(s.eventAt), resolvingId := Some(s.telemetryId))],
           t.nextEpisode)
  {
    hide OrderedEpisodes, SoundReferences;
    assert SoundState(t, device);
    assert SoundEpisode(t, t.states[device].active.value);
  }

  lemma ResolvingIsSound(t: AlertTables, device: string, s: Sample, next: nat)
    requires Sound(t, next) && s.telemetryId >= next && !Skips(t, device, s)
    requires Resolves(StateOf(t, device, s), s)
    ensures Sound(Evaluate(t, device, s), s.telemetryId + 1)
  {
    hide Evaluate, Skips, Resolves, StateOf, SoundEpisode, SoundState, OrderedEpisodes, SoundReferences;
    ResolvingEffect(t, device, s, next);
    var u := Evaluate(t, device, s);
    forall e | e in u.episodes ensures SoundEpisode(u, e) {
      ResolvingEpisode(t, device, s, next, e);
    }
    forall d | d in u.states ensures SoundState(u, d) {
      ResolvingState(t, device, s, next, d);
    }
    ResolvingOrder(t, device, s, next);
  }

  lemma ResolvingEpisode(t: AlertTables, device: string, s: Sample, next: nat, e: nat)
    requires Sound(t, next) && !Skips(t, device, s) && Resolves(StateOf(t, device, s), s)
    requires e in Evaluate(t, device, s).episodes
    ensures SoundEpisode(Evaluate(t, device, s), e)
  {
    hide Evaluate, Skips, Resolves, StateOf, OrderedEpisodes, SoundReferences;
    ResolvingEffect(t, device, s, next);
    assert SoundEpisode(t, e);
  }

  lemma ResolvingState(t: AlertTables, device: string, s: Sample, next: nat, d: string)
    requires Sound(t, next) && !Skips(t, device, s) && Resolves(StateOf(t, device, s), s)
    requires d in Evaluate(t, device, s).states
    ensures SoundState(Evaluate(t, device, s), d)
  {
    hide Evaluate, Skips, Resolves, StateOf, SoundEpisode, OrderedEpisodes, SoundReferences;
    ResolvingEffect(t, device, s, next);
    assert SoundState(t, device) && SoundState(t, d);
  }

  lemma ResolvingOrder(t: AlertTables, device: string, s: Sample, next: nat)
    requires Sound(t, next) && s.telemetryId >= next && !Skips(t, device, s)
    requires Resolves(StateOf(t, device, s), s)
    ensures
      var u := Evaluate(t, device, s);
      OrderedEpisodes(u) && SoundReferences(u, s.telemetryId + 1)
  {
    hide Evaluate, Skips, Resolves, StateOf, SoundEpisode, SoundState;
    ResolvingEffect(t, device, s, next);
  }

  // Each device's share of the tables

  /** The device's episodes among ids below `n`, oldest first. */
  function DeviceEpisodes(t: AlertTables, device: string, n: nat): seq<Episode> {
    if n == 0 then []
    else
      DeviceEpisodes(t, device, n - 1)
      + (if n - 1 in t.episodes && t.episodes[n - 1].device == device then [t.episodes[n - 1]] else [])
  }

  function Project(t: AlertTables, device: string): Watch {
    var eps := DeviceEpisodes(t, device, t.nextEpisode);
    if device in t.states then
      var st := t.states[device];
      Watch(Some(st.lastEventAt), st.highStreak, st.recoveryStreak, eps)
    else Watch(None, 0, 0, eps)
  }

  lemma {:induction false} SameEpisodes(t: AlertTables, u: AlertTables, device: string, n: nat)
    requires forall e :: e < n ==>
      ((e in t.episodes && t.episodes[e].device == device) <==> (e in u.episodes && u.episodes[e].device == device))
    requires forall e :: e < n && e in t.episodes && t.episodes[e].device == device ==>
      u.episodes[e] == t.episodes[e]
    ensures DeviceEpisodes(u, device, n) == DeviceEpisodes(t, device, n)
  {
    if n > 0 {
      SameEpisodes(t, u, device, n - 1);
    }
  }

  lemma {:induction false} NoLaterEpisodes(t: AlertTables, device: string, m: nat, n: nat)
    requires m <= n
    requires forall e :: m <= e < n && e in t.episodes ==> t.episodes[e].device != device
    ensures DeviceEpisodes(t, device, n) == DeviceEpisodes(t, device, m)
  {
    if m < n {
      NoLaterEpisodes(t, device, m, n - 1);
    }
  }

  /** Before its active episode a device has resolved ones only, and after it none. */
  lemma ActiveIsLast(t: AlertTables, device: string, next: nat)
    requires Sound(t, next) && device in t.states && t.states[device].active.Some?
    ensures
      var id := t.states[device].active.value;
      && id in t.episodes && id < t.nextEpisode
      && DeviceEpisodes(t, device, t.nextEpisode) == DeviceEpisodes(t, device, id) + [t.episodes[id]]
  {
    var id := t.states[device].active.value;
    assert SoundState(t, device) && SoundEpisode(t, id);
    NoLaterEpisodes(t, device, id + 1, t.nextEpisode);
  }

  lemma {:induction false} AllResolved(t: AlertTables, device: string, n: nat)
    requires forall e :: e < n && e in t.episodes && t.episodes[e].device == device ==> t.episodes[e].resolvedAt.Some?
    ensures forall ep :: ep in DeviceEpisodes(t, device, n) ==> ep.resolvedAt.Some?
  {
    if n > 0 {
      AllResolved(t, device, n - 1);
    }
  }

  lemma ActiveMatches(t: AlertTables, device: string, next: nat)
    requires Sound(t, next)
    ensures Active(Project(t, device)) <==> device in t.states && t.states[device].active.Some?
  {
    if device in t.states && t.states[device].active.Some? {
      ActiveIsLast(t, device, next);
      assert SoundEpisode(t, t.states[device].active.value);
    } else {
      forall e | e in t.episodes && t.episodes[e].device == device ensures t.episodes[e].resolvedAt.Some? {
        assert SoundEpisode(t, e);
      }
      AllResolved(t, device, t.nextEpisode);
    }
  }

  lemma EvaluateProjectsOpening(t: AlertTables, device: string, s: Sample, next: nat)
    requires Sound(t, next) && !Skips(t, device, s) && Opens(StateOf(t, device, s), s)
    ensures
      var u := Evaluate(t, device, s);
      DeviceEpisodes(u, device, u.nextEpisode)
        == DeviceEpisodes(t, device, t.nextEpisode) + [Episode(device, s.eventAt, s.telemetryId, None, None)]
  {
    SameEpisodes(t, Evaluate(t, device, s), device, t.nextEpisode);
  }

  lemma EvaluateProjectsResolving(t: AlertTables, device: string, s: Sample, next: nat)
    requires Sound(t, next) && !Skips(t, device, s) && Resolves(StateOf(t, device, s), s)
    ensures
      var u, eps := Evaluate(t, device, s), DeviceEpisodes(t, device, t.nextEpisode);
      && eps != []
      && DeviceEpisodes(u, device, u.nextEpisode) == eps[|eps| - 1 :=
           eps[|eps| - 1].(resolvedAt := Some(s.eventAt), resolvingId := Some(s.telemetryId))]
  {
    hide Evaluate, Skips, Resolves, StateOf, SoundEpisode, SoundState, OrderedEpisodes, SoundReferences;
    ResolvingEffect(t, device, s, next);
    var u, id := Evaluate(t, device, s), t.states[device].active.value;
    ActiveIsLast(t, device, next);
    SameEpisodes(t, u, device, id);
    NothingAfterActive(t, device, next);
    NoLaterEpisodes(u, device, id + 1, u.nextEpisode);
  }

  lemma NothingAfterActive(t: AlertTables, device: string, next: nat)
    requires Sound(t, next) && device in t.states && t.states[device].active.Some?
    ensures t.states[device].active.value in t.episodes
    ensures t.states[device].active.value < t.nextEpisode
    ensures forall e :: e in t.episodes && e > t.states[device].active.value ==> t.episodes[e].device != device
  {
    var id := t.states[device].active.value;
    assert SoundState(t, device) && SoundEpisode(t, id);
  }

  /** A reading moves its own device's machine by one observation and no other device's at all. */
  lemma EvaluateProjects(t: AlertTables, device: string, s: Sample, next: nat)
    requires Sound(t, next)
    ensures Project(Evaluate(t, device, s), device) == Observe(Project(t, device), device, s)
  {
    hide DeviceEpisodes;
    ActiveMatches(t, device, next);
    if !Skips(t, device, s) {
      assert device in t.states ==> SoundState(t, device);
      var u, st := Evaluate(t, device, s), StateOf(t, device, s);
      if Opens(st, s) {
        EvaluateProjectsOpening(t, device, s, next);
      } else if Resolves(st, s) {
        EvaluateProjectsResolving(t, device, s, next);
      } else {
        SameEpisodes(t, u, device, t.nextEpisode);
      }
    }
  }

  lemma EvaluateLeavesOthers(t: AlertTables, device: string, s: Sample, next: nat, other: string)
    requires Sound(t, next) && other != device
    ensures Project(Evaluate(t, device, s), other) == Project(t, other)
  {
    var u := Evaluate(t, device, s);
    assert device in t.states ==> SoundState(t, device);
    SameEpisodes(t, u, other, t.nextEpisode);
    if u.nextEpisode != t.nextEpisode {
      NoLaterEpisodes(u, other, t.nextEpisode, u.nextEpisode);
    }
  }

  // Whole histories

  /** One accepted reading of some device. */
  datatype Accepted = Accepted(device: string, sample: Sample)

  function EvaluateAll(h: seq<Accepted>): AlertTables {
    if h == [] then NO_ALERTS
    else Evaluate(EvaluateAll(h[..|h| - 1]), h[|h| - 1].device, h[|h| - 1].sample)
  }

  function Of(h: seq<Accepted>, device: string): seq<Sample> {
    if h == [] then []
    else
      Of(h[..|h| - 1], device) + (if h[|h| - 1].device == device then [h[|h| - 1].sample] else [])
  }

  /** Each accepted reading got a newer telemetry id than the one before. */
  predicate FreshIds(h: seq<Accepted>) {
    forall i, j :: 0 <= i < j < |h| ==> h[i].sample.telemetryId < h[j].sample.telemetryId
  }

  function NextId(h: seq<Accepted>): nat {
    if h == [] then 0 else h[|h| - 1].sample.telemetryId + 1
  }

  /**
   Over any interleaving of accepted readings of any number of devices: the tables are sound, so no
   constraint is violated, and every device's episodes are those its own history specifies.
   */
  lemma {:induction false} TablesMeetSpecification(h: seq<Accepted>, device: string)
    requires FreshIds(h)
    ensures Sound(EvaluateAll(h), NextId(h)) && Constraints(EvaluateAll(h))
    ensures Project(EvaluateAll(h), device) == ObserveAll(device, Of(h, device))
    ensures
      var t := EvaluateAll(h);
      DeviceEpisodes(t, device, t.nextEpisode) == Told(device, Kept(Of(h, device)), 0).episodes
  {
    hide Evaluate, Observe, Sound, Constraints, Told, Kept;
    if h == [] {
      NothingIsSound();
      assert Project(NO_ALERTS, device) == IDLE;
    } else {
      var n := |h| - 1;
      var before, last := EvaluateAll(h[..n]), h[n];
      TablesMeetSpecification(h[..n], device);
      EvaluateKeepsSound(before, last.device, last.sample, NextId(h[..n]));
      if last.device == device {
        EvaluateProjects(before, device, last.sample, NextId(h[..n]));
        var own := Of(h, device);
        assert own == Of(h[..n], device) + [last.sample];
        assert own[..|own| - 1] == Of(h[..n], device) && own[|own| - 1] == last.sample;
      } else {
        EvaluateLeavesOthers(before, last.device, last.sample, NextId(h[..n]), device);
        assert Of(h, device) == Of(h[..n], device);
      }
    }
    SoundMeetsConstraints(EvaluateAll(h), NextId(h));
    MachineMeetsSpecification(device, Of(h, device));
  }
}
