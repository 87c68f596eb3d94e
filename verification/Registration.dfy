/**
 Registering and removing devices: one database transaction around commands to the MQTT broker, undone by
 a compensating command when the transaction fails (backend/app/devices/service.py and
 backend/app/integrations/mqtt.py).

 The functions say what each operation does to the registry and the broker; the classes are the program's
 form.  Operations do not overlap.
 */
module Registration {
  import opened Options

  /** A device row; `inUse` when recorded history refers to it. */
  datatype Row = Row(managed: bool, inUse: bool)

  /** A broker account; managed when it carries the device role. */
  datatype Account = Account(disabled: bool, managed: bool, password: string)

  type Accounts = map<string, Account>

  datatype World = World(rows: map<string, Row>, accounts: Accounts)

  /** What becomes of a broker command or a COMMIT: done and confirmed, not done, or done without a confirmation. */
  datatype Reply = Confirmed | NotDone | Unheard

  datatype Fault =
    | GatewayNotFound
    | NameRequired
    | DeviceExists
    | DeviceNotFound
    | DeviceInUse
    | BrokerUnavailable
    | BrokerConflict
    | CommitFailed

  datatype DeviceRegistration = DeviceRegistration(id: string, name: string, password: string)

  /** What happens around one registration. */
  datatype Weather = Weather(
    gatewayEnabled: bool,   // gateway and site, as locked
    lookup: bool,           // getClient answers
    cleanup: Reply,         // deleteClient of a disabled leftover
    legacyReadable: bool,
    login: bool,            // the trial login gets an answer
    role: bool,             // the device role exists or is created
    create: Reply,
    commit: Reply,          // the database's COMMIT
    undo: Reply)

  /** What happens around one removal. */
  datatype Storm = Storm(lookup: bool, disable: Reply, commit: Reply, undo: Reply, cleanup: Reply)

  /** What Python's `str.strip` removes. */
  predicate Whitespace(c: char) {
    || '\U{9}' <= c <= '\U{d}' || '\U{1c}' <= c <= ' ' || c == '\U{85}' || c == '\U{a0}' || c == '\U{1680}'
    || '\U{2000}' <= c <= '\U{200a}' || c == '\U{2028}' || c == '\U{2029}' || c == '\U{202f}'
    || c == '\U{205f}' || c == '\U{3000}'
  }

  predicate Blank(s: string) {
    forall i :: 0 <= i < |s| ==> Whitespace(s[i])
  }

  // Broker commands

  function Deleted(a: Accounts, id: string, reply: Reply): (Accounts, bool) {
    (if reply.NotDone? then a else a - {id}, reply.Confirmed?)
  }

  function SetDisabled(a: Accounts, id: string, disabled: bool, reply: Reply): (Accounts, bool) {
    (if reply.NotDone? || id !in a then a else a[id := a[id].(disabled := disabled)],
     reply.Confirmed? && id in a)
  }

  function Created(a: Accounts, id: string, password: string, reply: Reply): (Accounts, bool) {
    (if reply.NotDone? then a else a[id := Account(false, true, password)], reply.Confirmed?)
  }

  predicate Leftover(a: Accounts, id: string) {
    id in a && a[id].disabled && a[id].managed
  }

  /** The accounts once a disabled leftover is cleared, or why the id cannot be used. */
  function Cleared(a: Accounts, id: string, w: Weather): (Accounts, Option<Fault>) {
    if !w.lookup then (a, Some(BrokerUnavailable))
    else if id !in a then (a, None)
    else if !Leftover(a, id) then (a, Some(BrokerConflict))
    else
      var (b, ok) := Deleted(a, id, w.cleanup);
      (b, if ok then None else Some(BrokerUnavailable))
  }

  /** `create_device`: whether a new managed account was created. */
  function CreateDevice(a: Accounts, legacy: map<string, string>, r: DeviceRegistration, w: Weather)
    : (Accounts, Result<bool, Fault>)
  {
    var (b, fault) := Cleared(a, r.id, w);
    if fault.Some? then (b, Err(fault.value))
    else if !w.legacyReadable then (b, Err(BrokerUnavailable))
    else if r.id in legacy then
      (b, if !w.login then Err(BrokerUnavailable)
          else if legacy[r.id] == r.password then Ok(false)
          else Err(BrokerConflict))
    else if !w.role then (b, Err(BrokerUnavailable))
    else
      var (c, ok) := Created(b, r.id, r.password, w.create);
      (c, if ok then Ok(true) else Err(BrokerUnavailable))
  }

  /** `disable_device`: whether there was an account to disable. */
  function DisableDevice(a: Accounts, id: string, s: Storm): (Accounts, Result<bool, Fault>) {
    if !s.lookup then (a, Err(BrokerUnavailable))
    else if id !in a then (a, Ok(false))
    else if !a[id].managed then (a, Err(BrokerConflict))
    else
      var (b, ok) := SetDisabled(a, id, true, s.disable);
      (b, if ok then Ok(true) else Err(BrokerUnavailable))
  }

  // The two operations

  function Register(world: World, legacy: map<string, string>, r: DeviceRegistration, w: Weather)
    : (World, Option<Fault>)
  {
    if !w.gatewayEnabled then (world, Some(GatewayNotFound))
    else if Blank(r.name) then (world, Some(NameRequired))
    else if r.id in world.rows then (world, Some(DeviceExists))
    else
      var (a, made) := CreateDevice(world.accounts, legacy, r, w);
      if made.Err? then (world.(accounts := a), Some(made.error))
      else
        var rows := if w.commit.NotDone? then world.rows else world.rows[r.id := Row(made.value, false)];
        if w.commit.Confirmed? then (World(rows, a), None)
        else (World(rows, if made.value then Deleted(a, r.id, w.undo).0 else a), Some(CommitFailed))
  }

  function Remove(world: World, id: string, s: Storm): (World, Option<Fault>) {
    if id !in world.rows then (world, Some(DeviceNotFound))
    else if world.rows[id].inUse then (world, Some(DeviceInUse))
    else
      var (a, disabled) :=
        if world.rows[id].managed then DisableDevice(world.accounts, id, s) else (world.accounts, Ok(false));
      if disabled.Err? then (world.(accounts := a), Some(disabled.error))
      else
        var rows := if s.commit.NotDone? then world.rows else world.rows - {id};
        if s.commit.Confirmed? then (World(rows, if disabled.value then Deleted(a, id, s.cleanup).0 else a), None)
        else (World(rows, if disabled.value then SetDisabled(a, id, false, s.undo).0 else a), Some(CommitFailed))
  }

  // The program's form

  class BrokerAdmin {
    const legacy: map<string, string>
    var accounts: Accounts

    constructor (legacy: map<string, string>, accounts: Accounts)
      ensures this.legacy == legacy && this.accounts == accounts
    {
      this.legacy, this.accounts := legacy, accounts;
    }

    method GetClient(id: string, answered: bool) returns (r: Result<Option<Account>, Fault>)
      ensures r == if !answered then Err(BrokerUnavailable)
                   else if id in accounts then Ok(Some(accounts[id])) else Ok(None)
    {
      if !answered {
        return Err(BrokerUnavailable);
      }
      return Ok(if id in accounts then Some(accounts[id]) else None);
    }

    method Delete(id: string, reply: Reply) returns (ok: bool)
      modifies this
      ensures (accounts, ok) == Deleted(old(accounts), id, reply)
    {
      if !reply.NotDone? {
        accounts := accounts - {id};
      }
      ok := reply.Confirmed?;
    }

    method Enable(id: string, reply: Reply) returns (ok: bool)
      modifies this
      ensures (accounts, ok) == SetDisabled(old(accounts), id, false, reply)
    {
      if !reply.NotDone? && id in accounts {
        accounts := accounts[id := accounts[id].(disabled := false)];
      }
      ok := reply.Confirmed? && id in accounts;
    }

    method Disable(id: string, s: Storm) returns (r: Result<bool, Fault>)
      modifies this
      ensures (accounts, r) == DisableDevice(old(accounts), id, s)
    {
      var existing := GetClient(id, s.lookup);
      if existing.Err? {
        return Err(existing.error);
      }
      if existing.value.None? {
        return Ok(false);
      }
      if !existing.value.value.managed {
        return Err(BrokerConflict);
      }
      if !s.disable.NotDone? {
        accounts := accounts[id := accounts[id].(disabled := true)];
      }
      return if s.disable.Confirmed? then Ok(true) else Err(BrokerUnavailable);
    }

    method Create(r: DeviceRegistration, w: Weather) returns (made: Result<bool, Fault>)
      modifies this
      ensures (accounts, made) == CreateDevice(old(accounts), legacy, r, w)
    {
      var existing := GetClient(r.id, w.lookup);
      if existing.Err? {
        return Err(existing.error);
      }
      if existing.value.Some? {
        var account := existing.value.value;
        if !(account.disabled && account.managed) {
          return Err(BrokerConflict);
        }
        var cleared := Delete(r.id, w.cleanup);
        if !cleared {
          return Err(BrokerUnavailable);
        }
      }
      if !w.legacyReadable {
        return Err(BrokerUnavailable);
      }
      if r.id in legacy {
        if !w.login {
          return Err(BrokerUnavailable);
        }
        return if legacy[r.id] == r.password then Ok(false) else Err(BrokerConflict);
      }
      if !w.role {
        return Err(BrokerUnavailable);
      }
      if !w.create.NotDone? {
        accounts := accounts[r.id := Account(false, true, r.password)];
      }
      return if w.create.Confirmed? then Ok(true) else Err(BrokerUnavailable);
    }
  }

  class DeviceService {
    const broker: BrokerAdmin
    var rows: map<string, Row>

    ghost function View(): World
      reads this, broker
    {
      World(rows, broker.accounts)
    }

    constructor (broker: BrokerAdmin, rows: map<string, Row>)
      ensures this.broker == broker && View() == World(rows, broker.accounts)
    {
      this.broker, this.rows := broker, rows;
    }

    method RegisterDevice(r: DeviceRegistration, w: Weather) returns (fault: Option<Fault>)
      modifies this, broker
      ensures (View(), fault) == Register(old(View()), broker.legacy, r, w)
    {
      if !w.gatewayEnabled {
        return Some(GatewayNotFound);
      }
      if Blank(r.name) {
        return Some(NameRequired);
      }
      if r.id in rows {
        return Some(DeviceExists);
      }
      var made := broker.Create(r, w);
      if made.Err? {
        return Some(made.error);
      }
      if !w.commit.NotDone? {
        rows := rows[r.id := Row(made.value, false)];
      }
      if !w.commit.Confirmed? {
        if made.value {
          var _ := broker.Delete(r.id, w.undo);
        }
        return Some(CommitFailed);
      }
      return None;
    }

    method RemoveDevice(id: string, s: Storm) returns (fault: Option<Fault>)
      modifies this, broker
      ensures (View(), fault) == Remove(old(View()), id, s)
    {
      if id !in rows {
        return Some(DeviceNotFound);
      }
      if rows[id].inUse {
        return Some(DeviceInUse);
      }
      var disabled := false;
      if rows[id].managed {
        var r := broker.Disable(id, s);
        if r.Err? {
          return Some(r.error);
        }
        disabled := r.value;
      }
      if !s.commit.NotDone? {
        rows := rows - {id};
      }
      if !s.commit.Confirmed? {
        if disabled {
          var _ := broker.Enable(id, s.undo);
        }
        return Some(CommitFailed);
      }
      if disabled {
        var _ := broker.Delete(id, s.cleanup);
      }
      return None;
    }
  }
}
