/**
 The daemon's registry as a value: the maps that registering, unregistering, watching and
 unwatching units must keep in agreement.
 */
module Registry {

  import opened Units
  import SM = StateManager
  import R = Restarter

  /** `contexts[n]` is the live context of unit n (the source's cancel function): the
      configuration its watcher and checker goroutines were started with.
      `socketMonitors[n]` likewise holds the checks of a watched socket backend. */
  datatype Registry = Registry(
    registered: set<string>,
    critical: set<string>,
    contexts: map<string, UnitConfig>,
    socketMonitors: map<string, seq<HealthCheck>>,
    statuses: SM.Statuses,
    restarter: R.Fields)

  /** The state systemd reports for a unit, or an error. */
  type Reported = Option<(string, string)>

  function InitialStatus(name: string, st: SM.Statuses, reported: Reported, now: int): SM.Statuses {
    var m := st[name := SM.FRESH];
    if reported.None? then m else SM.UpdateStateSpec(m, name, reported.value.0, reported.value.1, now).0
  }

  function RegisterSpec(d: Registry, name: string, unit: UnitConfig, reported: Reported, now: int): Registry {
    if name in d.registered then d
    else d.(
      registered := d.registered + {name},
      critical := if unit.critical then d.critical + {name} else d.critical,
      contexts := d.contexts[name := unit],
      statuses := InitialStatus(name, d.statuses, reported, now),
      restarter := if unit.restart.Some? then R.RegisterSpec(d.restarter, name, unit.restart.value) else d.restarter)
  }

  function UnregisterSpec(d: Registry, name: string): Registry {
    if name !in d.contexts then d
    else d.(
      registered := d.registered - {name},
      critical := d.critical - {name},
      contexts := d.contexts - {name},
      statuses := d.statuses - {name},
      restarter := R.UnregisterSpec(d.restarter, name))
  }

  function UpdateSpec(d: Registry, name: string, unit: UnitConfig, reported: Reported, now: int): Registry {
    RegisterSpec(UnregisterSpec(d, name), name, unit, reported, now)
  }

  function WatchSpec(d: Registry, unit: string, checks: seq<HealthCheck>, policy: RestartPolicy): Registry {
    if checks == [] then d
    else d.(
      socketMonitors := d.socketMonitors[unit := checks],
      statuses := d.statuses[unit := SM.FRESH],
      restarter := R.RegisterSpec(d.restarter, unit, policy))
  }

  function UnwatchSpec(d: Registry, unit: string): Registry {
    if unit !in d.socketMonitors then d
    else d.(
      socketMonitors := d.socketMonitors - {unit},
      statuses := d.statuses - {unit},
      restarter := R.UnregisterSpec(d.restarter, unit))
  }

  // ---- agreement of the maps

  /** What the daemon's own maps keep among themselves, unconditionally. */
  ghost predicate Valid(d: Registry) {
    && d.registered == d.contexts.Keys
    && d.critical == (set n | n in d.contexts && d.contexts[n].critical)
    && d.restarter.Valid()
  }

  /** The state manager and the restarter know exactly the registered and watched units. */
  ghost predicate Agreement(d: Registry) {
    && Valid(d)
    && d.statuses.Keys == d.registered + d.socketMonitors.Keys
    && d.restarter.trackers.Keys == d.registered + d.socketMonitors.Keys
  }

  lemma RegisterKeepsValid(d: Registry, name: string, unit: UnitConfig, reported: Reported, now: int)
    requires Valid(d)
    ensures Valid(RegisterSpec(d, name, unit, reported, now))
  {
    var r := RegisterSpec(d, name, unit, reported, now);
    assert r.registered == r.contexts.Keys;
    forall n ensures n in r.critical <==> n in r.contexts && r.contexts[n].critical {}
  }

  lemma UnregisterKeepsValid(d: Registry, name: string)
    requires Valid(d)
    ensures Valid(UnregisterSpec(d, name))
  {
    var r := UnregisterSpec(d, name);
    forall n ensures n in r.critical <==> n in r.contexts && r.contexts[n].critical {}
  }

  /** The announcement of the state systemd reports for a unit just registered, if it is any. */
  function InitialEvents(name: string, reported: Reported, now: int): seq<SM.Event> {
    if reported.None? || reported == Some(("", "")) then []
    else [SM.StateChanged(name, reported.value.0, reported.value.1, now)]
  }

  /** A unit just registered has the state systemd reports, if it does, no known health, and
      no restarts; the status of every other unit is as it was. */
  lemma InitialStatusIs(name: string, st: SM.Statuses, reported: Reported, now: int)
    ensures var r := InitialStatus(name, st, reported, now);
      && r.Keys == st.Keys + {name} && (forall n <- st :: n != name ==> r[n] == st[n])
      && (r[name].activeState, r[name].subState) == (if reported.Some? then reported.value else ("", ""))
      && r[name].healthy == None && r[name].restartCount == 0
  {
  }

  lemma InitialStatusAgain(name: string, st: SM.Statuses, reported: Reported, now: int)
    ensures InitialStatus(name, st[name := SM.FRESH], reported, now) == InitialStatus(name, st, reported, now)
  {
    assert st[name := SM.FRESH][name := SM.FRESH] == st[name := SM.FRESH];
  }

  lemma InitialStatusKeys(name: string, st: SM.Statuses, reported: Reported, now: int)
    ensures InitialStatus(name, st, reported, now).Keys == st.Keys + {name}
  {
  }

  /** Registering keeps the agreement exactly when the unit has a restart policy, or is
      known already. */
  lemma RegisterAgreement(d: Registry, name: string, unit: UnitConfig, reported: Reported, now: int)
    requires Agreement(d)
    ensures Agreement(RegisterSpec(d, name, unit, reported, now)) <==>
              (unit.restart.Some? || name in d.registered || name in d.socketMonitors)
  {
    RegisterKeepsValid(d, name, unit, reported, now);
    InitialStatusKeys(name, d.statuses, reported, now);
    var r := RegisterSpec(d, name, unit, reported, now);
    if name !in d.registered {
      assert r.statuses.Keys == r.registered + r.socketMonitors.Keys;
      if unit.restart.Some? {
        assert r.restarter.trackers.Keys == d.restarter.trackers.Keys + {name};
      } else if name in d.socketMonitors {
        assert r.restarter.trackers.Keys == r.registered + r.socketMonitors.Keys;
      } else {
        assert name in r.registered && name !in r.restarter.trackers;
      }
    }
  }

  /** Unregistering keeps the agreement exactly when the unit is not also a watched socket
      backend, whose status and tracker it would take away. */
  lemma UnregisterAgreement(d: Registry, name: string)
    requires Agreement(d)
    ensures Agreement(UnregisterSpec(d, name)) <==> !(name in d.registered && name in d.socketMonitors)
  {
    UnregisterKeepsValid(d, name);
    var r := UnregisterSpec(d, name);
    if name in d.contexts {
      assert name in r.socketMonitors ==> name in r.registered + r.socketMonitors.Keys && name !in r.statuses;
      if name !in d.socketMonitors {
        assert r.statuses.Keys == r.registered + r.socketMonitors.Keys;
        assert r.restarter.trackers.Keys == r.registered + r.socketMonitors.Keys;
      }
    }
  }

  lemma WatchAgreement(d: Registry, unit: string, checks: seq<HealthCheck>, policy: RestartPolicy)
    requires Agreement(d)
    ensures Agreement(WatchSpec(d, unit, checks, policy))
  {
    var r := WatchSpec(d, unit, checks, policy);
    if checks != [] {
      assert r.statuses.Keys == r.registered + r.socketMonitors.Keys;
      assert r.restarter.trackers.Keys == r.registered + r.socketMonitors.Keys;
    }
  }

  /** Unwatching keeps the agreement exactly when the backend is not also a registered unit. */
  lemma UnwatchAgreement(d: Registry, unit: string)
    requires Agreement(d)
    ensures Agreement(UnwatchSpec(d, unit)) <==> !(unit in d.registered && unit in d.socketMonitors)
  {
    var r := UnwatchSpec(d, unit);
    if unit in d.socketMonitors {
      assert unit in r.registered ==> unit in r.registered + r.socketMonitors.Keys && unit !in r.statuses;
      if unit !in d.registered {
        assert r.statuses.Keys == r.registered + r.socketMonitors.Keys;
        assert r.restarter.trackers.Keys == r.registered + r.socketMonitors.Keys;
      }
    }
  }

  /** Each registered unit's tracker carries the policy of the configuration it is bound to. */
  ghost predicate PoliciesBound(d: Registry)
    requires d.restarter.Valid()
  {
    forall n | n in d.contexts && d.contexts[n].restart.Some? ::
      n in d.restarter.trackers && d.restarter.heap[d.restarter.trackers[n]].policy == d.contexts[n].restart.value
  }

  lemma RegisterPolicies(d: Registry, name: string, unit: UnitConfig, reported: Reported, now: int)
    requires Valid(d) && PoliciesBound(d)
    ensures Valid(RegisterSpec(d, name, unit, reported, now)) && PoliciesBound(RegisterSpec(d, name, unit, reported, now))
  {
    RegisterKeepsValid(d, name, unit, reported, now);
  }

  lemma UnregisterPolicies(d: Registry, name: string)
    requires Valid(d) && PoliciesBound(d)
    ensures Valid(UnregisterSpec(d, name)) && PoliciesBound(UnregisterSpec(d, name))
  {
    UnregisterKeepsValid(d, name);
  }

  // ---- sequences of operations

  datatype Op =
    | Register(name: string, unit: UnitConfig, reported: Reported, at: int)
    | Unregister(name: string)
    | Update(name: string, unit: UnitConfig, reported: Reported, at: int)
    | Watch(name: string, checks: seq<HealthCheck>, policy: RestartPolicy)
    | Unwatch(name: string)

  function Apply(d: Registry, op: Op): Registry {
    match op
    case Register(n, u, s, t) => RegisterSpec(d, n, u, s, t)
    case Unregister(n) => UnregisterSpec(d, n)
    case Update(n, u, s, t) => UpdateSpec(d, n, u, s, t)
    case Watch(n, c, p) => WatchSpec(d, n, c, p)
    case Unwatch(n) => UnwatchSpec(d, n)
  }

  lemma OperationKeepsValid(d: Registry, op: Op)
    requires Valid(d)
    ensures Valid(Apply(d, op))
  {
    match op
    case Register(n, u, s, t) => RegisterKeepsValid(d, n, u, s, t);
    case Unregister(n) => UnregisterKeepsValid(d, n);
    case Update(n, u, s, t) =>
      UnregisterKeepsValid(d, n);
      RegisterKeepsValid(UnregisterSpec(d, n), n, u, s, t);
    case Watch(_, _, _) =>
    case Unwatch(_) =>
  }

  function ApplyAll(d: Registry, ops: seq<Op>): Registry {
    if |ops| == 0 then d else Apply(ApplyAll(d, ops[..|ops| - 1]), ops[|ops| - 1])
  }

  /** The unit has a new tracker with this policy, no attempts and no cooldown. */
  predicate Freshly(d: Registry, e: Registry, name: string, policy: RestartPolicy) {
    && name in e.restarter.trackers && e.restarter.trackers[name] == |d.restarter.heap|
    && e.restarter.heap == d.restarter.heap + [R.Tracker(policy, 0, 0)]
  }

  /** What each operation does to the unit it names. */
  lemma OperationsDo(d: Registry, name: string, unit: UnitConfig, reported: Reported, now: int, checks: seq<HealthCheck>, policy: RestartPolicy)
    requires Valid(d)
    ensures var e := RegisterSpec(d, name, unit, reported, now);
      if name in d.registered then e == d
      else
        && e.contexts == d.contexts[name := unit] && (name in e.critical <==> unit.critical)
        && name in e.statuses && e.statuses[name].healthy == None && e.statuses[name].restartCount == 0
        && (unit.restart.Some? ==> Freshly(d, e, name, unit.restart.value))
    ensures var e := UnregisterSpec(d, name);
      if name !in d.registered then e == d
      else name !in e.registered && name !in e.contexts && name !in e.critical && name !in e.statuses && name !in e.restarter.trackers
    ensures var e := WatchSpec(d, name, checks, policy);
      if checks == [] then e == d
      else
        && e.socketMonitors == d.socketMonitors[name := checks] && e.statuses == d.statuses[name := SM.FRESH]
        && Freshly(d, e, name, policy)
    ensures var e := UnwatchSpec(d, name);
      if name !in d.socketMonitors then e == d
      else e.socketMonitors == d.socketMonitors - {name} && name !in e.statuses && name !in e.restarter.trackers
  {
    RegisterKeepsValid(d, name, unit, reported, now);
    if name !in d.registered { InitialStatusIs(name, d.statuses, reported, now); }
  }

  /** Socket backends are watched, other units are registered, and every registered unit
      carries a restart policy, as the configuration defaults ensure. */
  predicate Separated(op: Op, sockets: set<string>) {
    match op
    case Register(n, u, _, _) => n !in sockets && u.restart.Some?
    case Unregister(n) => n !in sockets
    case Update(n, u, _, _) => n !in sockets && u.restart.Some?
    case Watch(n, _, _) => n in sockets
    case Unwatch(n) => n in sockets
  }

  ghost predicate Agreed(d: Registry, sockets: set<string>) {
    Agreement(d) && PoliciesBound(d) && d.registered !! sockets && d.socketMonitors.Keys <= sockets
  }

  lemma OperationAgrees(d: Registry, op: Op, sockets: set<string>)
    requires Agreed(d, sockets) && Separated(op, sockets)
    ensures Agreed(Apply(d, op), sockets)
  {
    match op
    case Register(n, u, s, t) =>
      RegisterAgreement(d, n, u, s, t);
      RegisterPolicies(d, n, u, s, t);
    case Unregister(n) =>
      UnregisterAgreement(d, n);
      UnregisterPolicies(d, n);
    case Update(n, u, s, t) =>
      UnregisterAgreement(d, n);
      UnregisterPolicies(d, n);
      RegisterAgreement(UnregisterSpec(d, n), n, u, s, t);
      RegisterPolicies(UnregisterSpec(d, n), n, u, s, t);
    case Watch(n, c, p) => WatchAgreement(d, n, c, p);
    case Unwatch(n) => UnwatchAgreement(d, n);
  }

  /** Over any sequence of operations on disjoint regular and socket unit names, the maps
      agree: cancel functions and registered names coincide, the critical names are those of
      critical units, the state manager and the restarter hold the registered names plus the
      socket monitors, and each unit's tracker has its own policy. */
  lemma {:induction false} OperationsAgree(d: Registry, ops: seq<Op>, sockets: set<string>)
    requires Agreed(d, sockets) && forall op <- ops :: Separated(op, sockets)
    ensures Agreed(ApplyAll(d, ops), sockets)
    decreases |ops|
  {
    if |ops| > 0 {
      assert ops[|ops| - 1] in ops;
      OperationsAgree(d, ops[..|ops| - 1], sockets);
      OperationAgrees(ApplyAll(d, ops[..|ops| - 1]), ops[|ops| - 1], sockets);
    }
  }
}
