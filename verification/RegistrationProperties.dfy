/**
 What registering and removing keep between the registry and the broker, over every serial run, and exactly
 when they fail to.
 */
module RegistrationProperties {
  import opened Options
  import opened Registration

  // Registry and broker agree

  predicate Live(a: Accounts, id: string) {
    id in a && a[id].managed && !a[id].disabled
  }

  predicate Marked(rows: map<string, Row>, id: string) {
    id in rows && rows[id].managed
  }

  /** Exactly the rows marked managed have an enabled managed account. */
  ghost predicate Agree(w: World) {
    forall id :: Marked(w.rows, id) <==> Live(w.accounts, id)
  }

  /** The registration gets as far as creating the account. */
  predicate Creates(world: World, legacy: map<string, string>, r: DeviceRegistration, w: Weather) {
    && w.gatewayEnabled && !Blank(r.name) && r.id !in world.rows
    && w.lookup && (r.id in world.accounts ==> Leftover(world.accounts, r.id) && w.cleanup.Confirmed?)
    && w.legacyReadable && r.id !in legacy && w.role
  }

  /** The compensation does the opposite of what the failed COMMIT needs. */
  predicate Misjudges(commit: Reply, undo: Reply) {
    (commit.NotDone? && undo.NotDone?) || (commit.Unheard? && !undo.NotDone?)
  }

  /**
   How a registration parts registry and broker: the account was created unheard; or it was created, the
   COMMIT failed and the account stayed; or the COMMIT took effect unheard and the account was deleted.
   */
  predicate Strays(world: World, legacy: map<string, string>, r: DeviceRegistration, w: Weather) {
    Creates(world, legacy, r, w) &&
    (w.create.Unheard? || (w.create.Confirmed? && Misjudges(w.commit, w.undo)))
  }

  /** Registry and broker still agree after a registration unless, and only unless, it strays. */
  lemma RegisterAgrees(world: World, legacy: map<string, string>, r: DeviceRegistration, w: Weather)
    requires Agree(world)
    ensures Agree(Register(world, legacy, r, w).0) <==> !Strays(world, legacy, r, w)
  {
    hide Register, Strays;
    RegisterElsewhere(world, legacy, r, w);
    RegisterHere(world, legacy, r, w);
    var after := Register(world, legacy, r, w).0;
    assert Marked(world.rows, r.id) <==> Live(world.accounts, r.id);
    if !Strays(world, legacy, r, w) {
      forall id ensures Marked(after.rows, id) <==> Live(after.accounts, id) {
        assert Marked(world.rows, id) <==> Live(world.accounts, id);
      }
    }
  }

  lemma RegisterElsewhere(world: World, legacy: map<string, string>, r: DeviceRegistration, w: Weather)
    ensures
      var after := Register(world, legacy, r, w).0;
      forall id :: id != r.id ==>
        (Marked(after.rows, id) <==> Marked(world.rows, id)) && (Live(after.accounts, id) <==> Live(world.accounts, id))
  {
    hide Blank;
  }

  lemma RegisterHere(world: World, legacy: map<string, string>, r: DeviceRegistration, w: Weather)
    requires Marked(world.rows, r.id) <==> Live(world.accounts, r.id)
    ensures
      var after := Register(world, legacy, r, w).0;
      (Marked(after.rows, r.id) <==> Live(after.accounts, r.id)) <==> !Strays(world, legacy, r, w)
  {
    hide Blank;
    if Creates(world, legacy, r, w) {
      CreationHere(world, legacy, r, w);
    }
  }

  lemma CreationHere(world: World, legacy: map<string, string>, r: DeviceRegistration, w: Weather)
    requires Creates(world, legacy, r, w)
    ensures
      var (a, made) := CreateDevice(world.accounts, legacy, r, w);
      && (made.Ok? <==> w.create.Confirmed?) && (made.Ok? ==> made.value)
      && (r.id in a <==> !w.create.NotDone?)
      && (r.id in a ==> a[r.id] == Account(false, true, r.password))
  {
    hide Blank;
  }

  /** The removal gets as far as disabling the account. */
  predicate Disables(world: World, id: string, s: Storm) {
    id in world.rows && !world.rows[id].inUse && world.rows[id].managed && s.lookup
  }

  /**
   How a removal parts registry and broker: the account was disabled unheard; or it was disabled, the
   COMMIT failed and it stayed disabled; or the COMMIT took effect unheard and it was enabled again.
   */
  predicate Strands(world: World, id: string, s: Storm) {
    Disables(world, id, s) && (s.disable.Unheard? || (s.disable.Confirmed? && Misjudges(s.commit, s.undo)))
  }

  lemma RemoveAgrees(world: World, id: string, s: Storm)
    requires Agree(world)
    ensures Agree(Remove(world, id, s).0) <==> !Strands(world, id, s)
  {
    var after := Remove(world, id, s).0;
    assert forall x :: x != id ==>
      (Marked(after.rows, x) <==> Marked(world.rows, x)) && (Live(after.accounts, x) <==> Live(world.accounts, x));
    assert Marked(world.rows, id) <==> Live(world.accounts, id);
    assert (Marked(after.rows, id) <==> Live(after.accounts, id)) <==> !Strands(world, id, s);
  }

  // Runs

  datatype Op =
    | Registering(r: DeviceRegistration, w: Weather)
    | Removing(id: string, s: Storm)
    | Recording(id: string)   // telemetry arrives, and history refers to the device from now on

  function Step(world: World, legacy: map<string, string>, op: Op): World {
    match op
    case Registering(r, w) => Register(world, legacy, r, w).0
    case Removing(id, s) => Remove(world, id, s).0
    case Recording(id) =>
      if id in world.rows then world.(rows := world.rows[id := world.rows[id].(inUse := true)]) else world
  }

  function Run(world: World, legacy: map<string, string>, ops: seq<Op>): World
    decreases |ops|
  {
    if ops == [] then world else Run(Step(world, legacy, ops[0]), legacy, ops[1..])
  }

  /** The operation parts registry and broker. */
  predicate Parts(world: World, legacy: map<string, string>, op: Op) {
    match op
    case Registering(r, w) => Strays(world, legacy, r, w)
    case Removing(id, s) => Strands(world, id, s)
    case Recording(_) => false
  }

  lemma StepAgrees(world: World, legacy: map<string, string>, op: Op)
    requires Agree(world)
    ensures Agree(Step(world, legacy, op)) <==> !Parts(world, legacy, op)
  {
    hide Register, Remove, Agree, Strays, Strands;
    match op
    case Registering(r, w) => RegisterAgrees(world, legacy, r, w);
    case Removing(id, s) => RemoveAgrees(world, id, s);
    case Recording(id) => RecordingAgrees(world, legacy, id);
  }

  lemma RecordingAgrees(world: World, legacy: map<string, string>, id: string)
    requires Agree(world)
    ensures Agree(Step(world, legacy, Recording(id)))
  {
    var after := Step(world, legacy, Recording(id));
    assert forall x :: Marked(after.rows, x) <==> Marked(world.rows, x);
  }

  /** Registry and broker agree at every point of the run. */
  ghost predicate AgreeThroughout(world: World, legacy: map<string, string>, ops: seq<Op>)
    decreases |ops|
  {
    Agree(world) && (ops == [] || AgreeThroughout(Step(world, legacy, ops[0]), legacy, ops[1..]))
  }

  /** No operation of the run parts them, each judged in the state it meets. */
  predicate NonePart(world: World, legacy: map<string, string>, ops: seq<Op>)
    decreases |ops|
  {
    ops == [] || (!Parts(world, legacy, ops[0]) && NonePart(Step(world, legacy, ops[0]), legacy, ops[1..]))
  }

  /** Over every serial run the agreement lasts if and only if no operation is one of those that part them. */
  lemma {:induction false} RunAgreesExactly(world: World, legacy: map<string, string>, ops: seq<Op>)
    requires Agree(world)
    ensures AgreeThroughout(world, legacy, ops) <==> NonePart(world, legacy, ops)
    decreases |ops|
  {
    hide Agree, Step, Parts;
    if ops != [] {
      StepAgrees(world, legacy, ops[0]);
      if !Parts(world, legacy, ops[0]) {
        RunAgreesExactly(Step(world, legacy, ops[0]), legacy, ops[1..]);
      }
    }
  }

  /**
   Every broker command and every COMMIT is confirmed or not done, and a compensation is done; only the
   last cleanup may fail in any way.
   */
  predicate Benign(op: Op) {
    match op
    case Registering(_, w) => !w.create.Unheard? && !w.commit.Unheard? && !w.undo.NotDone?
    case Removing(_, s) => !s.disable.Unheard? && !s.commit.Unheard? && !s.undo.NotDone?
    case Recording(_) => true
  }

  /** Over every benign run a managed row has an enabled managed account, and an id without one has none. */
  lemma {:induction false} RunAgrees(world: World, legacy: map<string, string>, ops: seq<Op>)
    requires Agree(world) && forall op :: op in ops ==> Benign(op)
    ensures Agree(Run(world, legacy, ops))
    decreases |ops|
  {
    hide Agree, Step;
    if ops != [] {
      assert ops[0] in ops;
      StepAgrees(world, legacy, ops[0]);
      RunAgrees(Step(world, legacy, ops[0]), legacy, ops[1..]);
    }
  }

  // What callers see

  /** The broker lets the device in with this password. */
  predicate Admits(w: World, legacy: map<string, string>, id: string, password: string) {
    if id in w.accounts then !w.accounts[id].disabled && w.accounts[id].password == password
    else id in legacy && legacy[id] == password
  }

  /**
   A registration that succeeds lets the device in with its password; one that reports a fault leaves
   the registry as it was, unless its COMMIT took effect unheard; and either way no account outside the
   device role and no other id changes.
   */
  lemma RegisterMeans(world: World, legacy: map<string, string>, r: DeviceRegistration, w: Weather)
    ensures
      var (after, fault) := Register(world, legacy, r, w);
      && (fault.None? ==> r.id in after.rows && Admits(after, legacy, r.id, r.password))
      && (fault.Some? ==>
            after.rows == if fault == Some(CommitFailed) && w.commit.Unheard?
                          then world.rows[r.id := Row(r.id !in legacy, false)] else world.rows)
      && (forall id :: id in world.accounts && (id != r.id || !world.accounts[id].managed) ==>
            id in after.accounts && after.accounts[id] == world.accounts[id])
      && (forall id :: id != r.id && id !in world.accounts ==> id !in after.accounts)
      && (forall id :: id in world.rows ==> id in after.rows && after.rows[id] == world.rows[id])
  {
    hide Blank;
  }

  /**
   A removal that succeeds shuts a managed device out and forgets it; one that reports a fault forgets it
   only if its COMMIT took effect unheard; recorded history prevents it.
   */
  lemma RemoveMeans(world: World, legacy: map<string, string>, id: string, s: Storm)
    ensures
      var (after, fault) := Remove(world, id, s);
      && (fault.None? ==> id in world.rows)
      && after.rows == (if fault.None? || (fault == Some(CommitFailed) && s.commit.Unheard?)
                        then world.rows - {id} else world.rows)
      && (fault.None? && world.rows[id].managed ==>
            id in after.accounts ==> after.accounts[id].disabled)
      && (id in world.rows && world.rows[id].inUse ==> fault == Some(DeviceInUse) && after == world)
      && (forall x :: x != id ==> (x in after.accounts <==> x in world.accounts))
      && (forall x :: x != id && x in world.accounts ==> after.accounts[x] == world.accounts[x])
      && (id in world.accounts && !world.accounts[id].managed ==>
            id in after.accounts && after.accounts[id] == world.accounts[id])
  {
  }

  /** Nothing stands in the way of the id: it is free at the broker, or a disabled leftover is cleared away. */
  predicate FreeAtBroker(world: World, id: string, w: Weather) {
    w.lookup &&
    (id in world.accounts ==>
       world.accounts[id].disabled && world.accounts[id].managed && w.cleanup.Confirmed?)
  }

  /** The broker knows the id with the right password already, or makes an account with it. */
  predicate Credentialed(legacy: map<string, string>, r: DeviceRegistration, w: Weather) {
    && w.legacyReadable
    && (if r.id in legacy then w.login && legacy[r.id] == r.password else w.role && w.create.Confirmed?)
  }

  /** The request itself is in order. */
  predicate InOrder(world: World, r: DeviceRegistration, w: Weather) {
    w.gatewayEnabled && (exists i :: 0 <= i < |r.name| && !Whitespace(r.name[i])) && r.id !in world.rows
  }

  /** A registration's outcome, exactly, by what the caller sent and how registry and broker answered. */
  lemma RegisterExactly(world: World, legacy: map<string, string>, r: DeviceRegistration, w: Weather)
    ensures
      var (after, fault) := Register(world, legacy, r, w);
      var accepted := InOrder(world, r, w) && FreeAtBroker(world, r.id, w) && Credentialed(legacy, r, w);
      var taken := r.id in world.accounts && !(world.accounts[r.id].disabled && world.accounts[r.id].managed);
      var wrong := w.legacyReadable && r.id in legacy && w.login && legacy[r.id] != r.password;
      && (fault == None <==> accepted && w.commit.Confirmed?)
      && (fault == Some(CommitFailed) <==> accepted && !w.commit.Confirmed?)
      && (fault == Some(GatewayNotFound) <==> !w.gatewayEnabled)
      && (fault == Some(NameRequired) <==>
            w.gatewayEnabled && forall i :: 0 <= i < |r.name| ==> Whitespace(r.name[i]))
      && (fault == Some(DeviceExists) <==>
            w.gatewayEnabled && r.id in world.rows && exists i :: 0 <= i < |r.name| && !Whitespace(r.name[i]))
      && (fault == Some(BrokerConflict) <==>
            InOrder(world, r, w) && w.lookup && (taken || (FreeAtBroker(world, r.id, w) && wrong)))
      && (fault == None ==> after.rows == world.rows[r.id := Row(r.id !in legacy, false)])
  {
    hide Whitespace;
    assert Blank(r.name) <==> !exists i :: 0 <= i < |r.name| && !Whitespace(r.name[i]);
  }

  /** A removal's outcome, exactly: an unmanaged device needs nothing of the broker. */
  lemma RemoveExactly(world: World, id: string, s: Storm)
    ensures
      var fault := Remove(world, id, s).1;
      var unused := id in world.rows && !world.rows[id].inUse;
      var shutOut :=
        s.lookup && (id in world.accounts ==> world.accounts[id].managed && s.disable.Confirmed?);
      var accepted := unused && (world.rows[id].managed ==> shutOut);
      && (fault == None <==> accepted && s.commit.Confirmed?)
      && (fault == Some(CommitFailed) <==> accepted && !s.commit.Confirmed?)
      && (fault == Some(DeviceNotFound) <==> id !in world.rows)
      && (fault == Some(DeviceInUse) <==> id in world.rows && world.rows[id].inUse)
      && (fault == Some(BrokerConflict) <==>
            unused && world.rows[id].managed && s.lookup && id in world.accounts && !world.accounts[id].managed)
  {
  }

  /** Registering an id again changes nothing at all, whatever the broker does. */
  lemma RepeatedRegistrationChangesNothing(world: World, legacy: map<string, string>, r: DeviceRegistration, w: Weather)
    requires r.id in world.rows
    ensures Register(world, legacy, r, w).0 == world && Register(world, legacy, r, w).1.Some?
  {
  }

  const CALM := Weather(true, true, Confirmed, true, true, true, Confirmed, Confirmed, Confirmed)

  /**
   Removing and registering again succeeds, even if the removal's cleanup failed and left the disabled
   account behind: it does not block the new registration, and its password is gone.
   */
  lemma RemovedIdCanComeBack(world: World, legacy: map<string, string>, s: Storm, r: DeviceRegistration)
    requires Agree(world) && Remove(world, r.id, s).1.None? && Marked(world.rows, r.id)
    requires !Blank(r.name) && r.id !in legacy
    ensures
      var removed := Remove(world, r.id, s).0;
      && !Live(removed.accounts, r.id)
      && (s.cleanup.NotDone? ==> Leftover(removed.accounts, r.id))
      && Register(removed, legacy, r, CALM)
         == (World(world.rows[r.id := Row(true, false)],
                   world.accounts[r.id := Account(false, true, r.password)]), None)
  {
    hide Blank;
    assert Live(world.accounts, r.id);
    var removed := Remove(world, r.id, s).0;
    var (after, fault) := Register(removed, legacy, r, CALM);
    assert removed.rows == world.rows - {r.id};
    assert r.id in removed.accounts ==> Leftover(removed.accounts, r.id);
    assert fault.None?;
    assert after.rows == world.rows[r.id := Row(true, false)];
    assert after.accounts == world.accounts[r.id := Account(false, true, r.password)];
  }

  /** Registering and removing an unknown id is a round trip. */
  lemma RegisterThenRemove(world: World, legacy: map<string, string>, r: DeviceRegistration, s: Storm)
    requires Register(world, legacy, r, CALM).1.None? && r.id !in world.accounts
    requires s.lookup && s.disable.Confirmed? && s.commit.Confirmed? && s.cleanup.Confirmed?
    ensures Remove(Register(world, legacy, r, CALM).0, r.id, s) == (world, None)
  {
    hide Blank;
    var after := Register(world, legacy, r, CALM).0;
    var (back, fault) := Remove(after, r.id, s);
    assert fault.None?;
    assert back.rows == world.rows;
    assert back.accounts == world.accounts;
  }
}
