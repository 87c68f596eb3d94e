/**
 Temperature alerts (backend/app/alerts/service.py): a per-device cursor, two debounce counters and
 an episode table, advanced one accepted reading at a time.
 */
module Alerts {
  import opened Options
  import opened Telemetry

  const HIGH_THRESHOLD := 30.0
  const RECOVERY_THRESHOLD := 28.0
  const CONSECUTIVE_READINGS := 3
  const MAX_READING_AGE := 5 * MINUTE
  const MAX_FUTURE_SKEW := MINUTE

  /** What the evaluation sees of an accepted reading; `now` is the backend's receipt instant. */
  datatype Sample = Sample(eventAt: int, value: real, telemetryId: nat, now: int)

  predicate Fresh(s: Sample) {
    s.now - MAX_READING_AGE <= s.eventAt <= s.now + MAX_FUTURE_SKEW
  }

  predicate High(s: Sample) { s.value > HIGH_THRESHOLD }

  predicate Low(s: Sample) { s.value < RECOVERY_THRESHOLD }

  datatype State = State(lastEventAt: int, highStreak: nat, recoveryStreak: nat, active: Option<nat>)

  datatype Episode = Episode(
    device: string, openedAt: int, openingId: nat, resolvedAt: Option<int>, resolvingId: Option<nat>)

  datatype AlertTables = AlertTables(states: map<string, State>, episodes: map<nat, Episode>, nextEpisode: nat)

  const NO_ALERTS := AlertTables(map[], map[], 0)

  function Streak(streak: nat, hit: bool): nat {
    if hit then streak + 1 else 0
  }

  predicate Opens(st: State, s: Sample) {
    st.active.None? && Streak(st.highStreak, High(s)) == CONSECUTIVE_READINGS
  }

  predicate Resolves(st: State, s: Sample) {
    st.active.Some? && Streak(st.recoveryStreak, Low(s)) == CONSECUTIVE_READINGS
  }

  /** The state row after a reading it takes; `next` is the id a new episode would get. */
  function NextState(st: State, s: Sample, next: nat): State {
    if Opens(st, s) then State(s.eventAt, 0, st.recoveryStreak, Some(next))
    else if Resolves(st, s) then State(s.eventAt, st.highStreak, 0, None)
    else if st.active.None? then State(s.eventAt, Streak(st.highStreak, High(s)), st.recoveryStreak, None)
    else State(s.eventAt, st.highStreak, Streak(st.recoveryStreak, Low(s)), st.active)
  }

  function NextEpisodes(episodes: map<nat, Episode>, device: string, st: State, s: Sample, next: nat)
    : map<nat, Episode>
  {
    if Opens(st, s) then episodes[next := Episode(device, s.eventAt, s.telemetryId, None, None)]
    else if Resolves(st, s) && st.active.value in episodes then
      var e := episodes[st.active.value];
      episodes[st.active.value := e.(resolvedAt := Some(s.eventAt), resolvingId := Some(s.telemetryId))]
    else episodes
  }

  /** A device without a row gets one at its first fresh reading. */
  function StateOf(t: AlertTables, device: string, s: Sample): State {
    if device in t.states then t.states[device] else State(s.eventAt, 0, 0, None)
  }

  predicate Skips(t: AlertTables, device: string, s: Sample) {
    !Fresh(s) || (device in t.states && s.eventAt <= t.states[device].lastEventAt)
  }

  /** The effect of one accepted reading on the two tables. */
  function Evaluate(t: AlertTables, device: string, s: Sample): AlertTables {
    if Skips(t, device, s) then t
    else
      var st := StateOf(t, device, s);
      AlertTables(
        t.states[device := NextState(st, s, t.nextEpisode)],
        NextEpisodes(t.episodes, device, st, s, t.nextEpisode),
        if Opens(st, s) then t.nextEpisode + 1 else t.nextEpisode)
  }

  // The program's form: rows are objects, shared between the session and the batch's cache

  class StateRow {
    var lastEventAt: int
    var highStreak: nat
    var recoveryStreak: nat
    var active: Option<nat>

    constructor (s: State)
      ensures Value() == s
    {
      lastEventAt, highStreak, recoveryStreak, active := s.lastEventAt, s.highStreak, s.recoveryStreak, s.active;
    }

    ghost function Value(): State
      reads this
    {
      State(lastEventAt, highStreak, recoveryStreak, active)
    }
  }

  /** Every active episode named by a state exists. */
  predicate ActiveKnown(t: AlertTables) {
    forall d :: d in t.states && t.states[d].active.Some? ==> t.states[d].active.value in t.episodes
  }

  /** One ingestion transaction's view of the alert tables. */
  class AlertSession {
    const stored: map<string, State>
    var loaded: map<string, StateRow>
    var cached: map<string, StateRow>
    var episodes: map<nat, Episode>
    var nextEpisode: nat
    ghost var states: map<string, State>  // the state table as this transaction sees it
    ghost var rows: set<StateRow>

    constructor (t: AlertTables)
      ensures Valid() && View() == t && rows == {} && cached == map[]
    {
      stored, states := t.states, t.states;
      loaded, cached, rows := map[], map[], {};
      episodes, nextEpisode := t.episodes, t.nextEpisode;
    }

    /** Loaded rows carry the current values, rows are not shared, and the cache holds session rows only. */
    ghost predicate Valid()
      reads this, rows
    {
      && (forall d :: d in loaded ==> loaded[d] in rows && d in states && states[d] == loaded[d].Value())
      && (forall d :: d in states && d !in loaded ==> d in stored && stored[d] == states[d])
      && (forall d :: d in stored ==> d in states)
      && (forall d, e :: d in loaded && e in loaded && d != e ==> loaded[d] != loaded[e])
      && (forall d :: d in cached ==> d in loaded && cached[d] == loaded[d])
    }

    ghost function View(): AlertTables
      reads this
    {
      AlertTables(states, episodes, nextEpisode)
    }

    /** `session.get(AlertState, device)`: the identity map first, then the database. */
    method Load(device: string) returns (row: StateRow?)
      requires Valid()
      modifies this`loaded, this`rows
      ensures Valid() && old(rows) <= rows && fresh(rows - old(rows))
      ensures row == null <==> device !in states
      ensures row != null ==> device in loaded && loaded[device] == row
    {
      if device in loaded {
        return loaded[device];
      }
      if device !in stored {
        return null;
      }
      var found := new StateRow(stored[device]);
      loaded := loaded[device := found];
      rows := rows + {found};
      return found;
    }

    /** `session.add(AlertState(...))`. */
    method Add(device: string, s: State) returns (row: StateRow)
      requires Valid() && device !in states
      modifies this`loaded, this`rows, this`states
      ensures Valid() && old(rows) <= rows && fresh(rows - old(rows))
      ensures states == old(states)[device := s]
      ensures device in loaded && loaded[device] == row
    {
      row := new StateRow(s);
      loaded := loaded[device := row];
      rows := rows + {row};
      states := states[device := s];
    }

    /** `evaluate_accepted_reading`. */
    method EvaluateReading(device: string, s: Sample)
      requires Valid() && ActiveKnown(View())
      modifies this, rows
      ensures Valid() && old(rows) <= rows && fresh(rows - old(rows))
      ensures View() == Evaluate(old(View()), device, s)
    {
      hide NextState, NextEpisodes, Opens, Fresh;
      if !Fresh(s) {
        return;
      }
      var state := FindOrAdd(device, s);
      if state == null {
        return;
      }
      AdvanceRow(device, state, s);
    }

    /** The row to advance, or null when the reading is not newer than the device's cursor. */
    method FindOrAdd(device: string, s: Sample) returns (state: StateRow?)
      requires Valid()
      modifies this`loaded, this`cached, this`rows, this`states
      ensures Valid() && old(rows) <= rows && fresh(rows - old(rows))
      ensures
        var t := old(View());
        if device in t.states && s.eventAt <= t.states[device].lastEventAt then state == null && states == t.states
        else
          && state != null && device in loaded && loaded[device] == state
          && states == t.states[device := StateOf(t, device, s)]
    {
      if device in cached {
        state := cached[device];
        return if s.eventAt <= state.lastEventAt then null else state;
      }
      state := Load(device);
      if state == null {
        state := Add(device, State(s.eventAt, 0, 0, None));
      } else if s.eventAt <= state.lastEventAt {
        return null;
      }
      cached := cached[device := state];
    }

    method AdvanceRow(device: string, state: StateRow, s: Sample)
      requires Valid() && device in loaded && loaded[device] == state
      requires states[device].active.Some? ==> states[device].active.value in episodes
      modifies this`episodes, this`nextEpisode, this`states, state
      ensures Valid()
      ensures
        var t, st := old(View()), old(states[device]);
        View() == AlertTables(
          t.states[device := NextState(st, s, t.nextEpisode)],
          NextEpisodes(t.episodes, device, st, s, t.nextEpisode),
          if Opens(st, s) then t.nextEpisode + 1 else t.nextEpisode)
    {
      hide NextState, NextEpisodes, Opens, StateRow.Value;
      Advance(device, state, s);
      assert forall d :: d in loaded && d != device ==> loaded[d].Value() == old(loaded[d].Value());
      states := states[device := state.Value()];
    }

    /** The part after the cursor check, on the row the session and the cache share. */
    method Advance(device: string, state: StateRow, s: Sample)
      requires state.Value().active.Some? ==> state.Value().active.value in episodes
      modifies this`episodes, this`nextEpisode, state
      ensures
        var st, next := old(state.Value()), old(nextEpisode);
        && state.Value() == NextState(st, s, next)
        && episodes == NextEpisodes(old(episodes), device, st, s, next)
        && nextEpisode == if Opens(st, s) then next + 1 else next
    {
      state.lastEventAt := s.eventAt;
      if state.active.None? {
        state.highStreak := if s.value > HIGH_THRESHOLD then state.highStreak + 1 else 0;
        if state.highStreak == CONSECUTIVE_READINGS {
          state.highStreak := 0;
          episodes := episodes[nextEpisode := Episode(device, s.eventAt, s.telemetryId, None, None)];
          state.active := Some(nextEpisode);
          nextEpisode := nextEpisode + 1;
        }
      } else {
        state.recoveryStreak := if s.value < RECOVERY_THRESHOLD then state.recoveryStreak + 1 else 0;
        if state.recoveryStreak == CONSECUTIVE_READINGS {
          state.recoveryStreak := 0;
          var episode := episodes[state.active.value];
          episodes := episodes[state.active.value :=
            episode.(resolvedAt := Some(s.eventAt), resolvingId := Some(s.telemetryId))];
          state.active := None;
        }
      }
    }
  }
}
