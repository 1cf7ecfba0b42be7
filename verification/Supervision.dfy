/**
 The chain from the activator to the restarter, composed: the activator's Watch and Unwatch
 calls are the daemon's, which register the backend with the state manager and the
 restarter, while restart attempts, operations on other units, and every thread of the
 activator interleave. Each side keeps its own clock; nothing here compares them.
 */
module Supervision {

  import opened Units
  import opened Registry
  import A = ActivatorProtocol
  import AF = ActivatorFields
  import AI = ActivatorInvariant
  import AH = ActivatorHistory
  import R = Restarter
  import RP = RestarterProtocol

  /** One socket-activated backend. A monitor exists only if there are health checks. */
  datatype Backend = Backend(unit: string, cfg: AF.Config, checks: seq<HealthCheck>, policy: RestartPolicy) {
    predicate Valid() {
      cfg.hasMonitor ==> checks != []
    }
  }

  /** `reg.restarter` is the restarter's own fields, `r.f`. */
  datatype State = State(act: A.State, reg: Registry, r: RP.State)

  datatype Action =
    | Activate(a: A.Action)          // a step of the backend's activator
    | Operate(op: Op)                // a daemon operation on another unit
    | Restart(ra: RP.Action)         // an event, an attempt's section, or time at the restarter

  predicate Enabled(b: Backend, s: State, a: Action) {
    match a
    case Activate(a) => A.Enabled(b.cfg, s.act, a)
    case Operate(op) => op.name != b.unit
    case Restart(ra) => RP.Sized(s.r) && RP.Enabled(s.r, ra) && !ra.Register? && !ra.Unregister?
  }

  /** The restarter registrations a daemon operation makes. */
  function Calls(d: Registry, op: Op): seq<RP.Action>
    decreases op.Update?
  {
    match op
    case Register(n, u, _, _) =>
      if n in d.registered || u.restart.None? then [] else [RP.Register(n, u.restart.value)]
    case Unregister(n) => if n in d.contexts then [RP.Unregister(n)] else []
    case Update(n, u, s, t) => Calls(d, Unregister(n)) + Calls(UnregisterSpec(d, n), Register(n, u, s, t))
    case Watch(n, checks, policy) => if checks == [] then [] else [RP.Register(n, policy)]
    case Unwatch(n) => if n in d.socketMonitors then [RP.Unregister(n)] else []
  }

  predicate Registers(ras: seq<RP.Action>) {
    forall ra <- ras :: ra.Register? || ra.Unregister?
  }

  function DoAll(r: RP.State, ras: seq<RP.Action>): RP.State
    requires RP.Sized(r) && Registers(ras)
    ensures RP.Sized(DoAll(r, ras))
    decreases |ras|
  {
    if ras == [] then r
    else
      RP.StepSized(r, ras[0]);
      DoAll(RP.Do(r, ras[0]), ras[1..])
  }

  lemma CallsRegister(d: Registry, op: Op)
    ensures Registers(Calls(d, op))
  {
  }

  /** A daemon operation, with what it does to the restarter. */
  function Operation(s: State, op: Op): State
    requires RP.Sized(s.r)
  {
    CallsRegister(s.reg, op);
    s.(reg := Apply(s.reg, op), r := DoAll(s.r, Calls(s.reg, op)))
  }

  /** The supervisor call among the events a step of the activator appends. */
  function MonitorCall(b: Backend, before: seq<A.Event>, after: seq<A.Event>): Option<Op> {
    if |after| <= |before| then None
    else
      match after[|after| - 1]
      case Watch => Some(Op.Watch(b.unit, b.checks, b.policy))
      case Unwatch => Some(Op.Unwatch(b.unit))
      case _ => None
  }

  /** The activator has moved on to `act`; its supervisor call is carried out. */
  function Activated(b: Backend, s: State, act: A.State): State
    requires RP.Sized(s.r)
  {
    var call := MonitorCall(b, s.act.g.log, act.g.log);
    (if call.Some? then Operation(s, call.value) else s).(act := act)
  }

  function Do(b: Backend, s: State, a: Action): State
    requires Enabled(b, s, a) && RP.Sized(s.r)
  {
    match a
    case Activate(a) => Activated(b, s, A.Do(b.cfg, s.act, a))
    case Operate(op) => Operation(s, op)
    case Restart(ra) =>
      var r := RP.Do(s.r, ra);
      s.(reg := s.reg.(restarter := r.f), r := r)
  }

  const INIT := State(A.INIT, Registry({}, {}, map[], map[], map[], RP.INIT.f), RP.INIT)

  ghost predicate IsStep(b: Backend, ss: seq<State>, acts: seq<Action>, i: nat)
    requires |ss| == |acts| + 1 && i < |acts|
  {
    RP.Sized(ss[i].r) && Enabled(b, ss[i], acts[i]) && ss[i + 1] == Do(b, ss[i], acts[i])
  }

  ghost predicate IsRun(b: Backend, ss: seq<State>, acts: seq<Action>) {
    && b.Valid()
    && |ss| == |acts| + 1 && ss[0] == INIT
    && forall i | 0 <= i < |acts| :: IsStep(b, ss, acts, i)
  }

  // ---- the invariant

  /** The activator's watch, the daemon's monitor, the status and the tracker of the backend
      exist together. */
  ghost predicate Linked(b: Backend, s: State) {
    var watched := s.act.g.fields.watched;
    && s.reg.restarter == s.r.f
    && (b.unit in s.reg.socketMonitors <==> watched)
    && (b.unit in s.reg.statuses <==> watched)
    && (b.unit in s.r.f.trackers <==> watched)
  }

  ghost predicate Inv(b: Backend, s: State) {
    AI.Inv(s.act) && AH.History(b.cfg, s.act.g) && RP.Inv(s.r) && Linked(b, s)
  }

  lemma {:induction false} DoAllKeepsInv(r: RP.State, ras: seq<RP.Action>)
    requires RP.Inv(r) && Registers(ras)
    ensures RP.Inv(DoAll(r, ras))
    decreases |ras|
  {
    if ras != [] {
      RP.StepKeepsInv(r, ras[0]);
      DoAllKeepsInv(RP.Do(r, ras[0]), ras[1..]);
    }
  }

  lemma DoOne(r: RP.State, x: RP.Action)
    requires RP.Sized(r) && Registers([x])
    ensures RP.Sized(RP.Do(r, x)) && DoAll(r, [x]) == RP.Do(r, x)
  {
    RP.StepSized(r, x);
    assert [x][1..] == [];
  }

  /** The restarter calls compute what the registry says of the restarter. */
  lemma CallsCompute(d: Registry, r: RP.State, op: Op)
    requires RP.Sized(r) && d.restarter == r.f
    ensures Registers(Calls(d, op)) && DoAll(r, Calls(d, op)).f == Apply(d, op).restarter
    decreases op.Update?, 1
  {
    CallsRegister(d, op);
    if op.Update? {
      UpdateComputes(d, r, op);
    } else if Calls(d, op) != [] {
      DoOne(r, Calls(d, op)[0]);
      assert Calls(d, op) == [Calls(d, op)[0]];
    }
  }

  lemma {:induction false} DoAppend(r: RP.State, xs: seq<RP.Action>, ys: seq<RP.Action>)
    requires RP.Sized(r) && Registers(xs) && Registers(ys)
    ensures Registers(xs + ys) && DoAll(r, xs + ys) == DoAll(DoAll(r, xs), ys)
    decreases |xs|
  {
    if xs == [] {
      assert xs + ys == ys;
    } else {
      RP.StepSized(r, xs[0]);
      assert (xs + ys)[0] == xs[0] && (xs + ys)[1..] == xs[1..] + ys;
      DoAppend(RP.Do(r, xs[0]), xs[1..], ys);
    }
  }

  lemma UpdateComputes(d: Registry, r: RP.State, op: Op)
    requires RP.Sized(r) && d.restarter == r.f && op.Update?
    ensures Registers(Calls(d, op)) && DoAll(r, Calls(d, op)).f == Apply(d, op).restarter
    decreases op.Update?, 0
  {
    var gone, back := Op.Unregister(op.name), Op.Register(op.name, op.unit, op.reported, op.at);
    var mid := UnregisterSpec(d, op.name);
    CallsCompute(d, r, gone);
    CallsRegister(mid, back);
    var r1 := DoAll(r, Calls(d, gone));
    CallsCompute(mid, r1, back);
    DoAppend(r, Calls(d, gone), Calls(mid, back));
  }

  /** Operations touch nothing of other units. */
  lemma OthersUntouched(d: Registry, op: Op, n: string)
    requires n != op.name
    ensures var e := Apply(d, op);
      && (n in e.socketMonitors <==> n in d.socketMonitors)
      && (n in e.statuses <==> n in d.statuses)
      && (n in e.restarter.trackers <==> n in d.restarter.trackers)
  {
  }

  /** The watch flag moves exactly as the supervisor call between `g` and `h` says. */
  ghost predicate WatchFollows(b: Backend, g: A.Globals, h: A.Globals) {
    var call := MonitorCall(b, g.log, h.log);
    && (call.None? ==> h.fields.watched == g.fields.watched)
    && (call.Some? ==> b.cfg.hasMonitor && h.fields.watched == call.value.Watch?)
  }

  lemma IdleFollows(b: Backend, g: A.Globals, pc: A.Pc, choice: A.Choice)
    requires A.IsIdle(pc) && A.CanStep(b.cfg, g, pc, choice)
    ensures WatchFollows(b, g, A.IdleStep(b.cfg, g, pc, choice).g)
  {
  }

  lemma StarterFollows(b: Backend, g: A.Globals, pc: A.Pc, choice: A.Choice)
    requires pc.Starter? && A.CanStep(b.cfg, g, pc, choice) && (g.fields.watched ==> b.cfg.hasMonitor)
    ensures WatchFollows(b, g, A.StarterStep(b.cfg, g, pc.role, pc.ch, pc.phase, choice).g)
  {
  }

  lemma QuietFollows(b: Backend, g: A.Globals, h: A.Globals)
    requires AH.QuietChange(g, h)
    ensures WatchFollows(b, g, h)
  {
  }

  lemma StepFollows(b: Backend, s: A.State, a: A.Action)
    requires AI.Inv(s) && AH.History(b.cfg, s.g) && A.Enabled(b.cfg, s, a)
    ensures WatchFollows(b, s.g, A.Do(b.cfg, s, a).g)
  {
    if a.Run? {
      var pc := s.threads[a.t];
      if !AI.Loud(pc) {
        AH.QuietShape(b.cfg, s.g, pc, a.choice);
        QuietFollows(b, s.g, A.Local(b.cfg, s.g, pc, a.choice).g);
      } else if A.IsIdle(pc) {
        IdleFollows(b, s.g, pc, a.choice);
      } else if pc.Starter? {
        StarterFollows(b, s.g, pc, a.choice);
      } else {
        assert WatchFollows(b, s.g, A.EnterStep(s.g, pc.role).g);
      }
    }
  }

  /** The supervisor calls make and remove monitor, status and tracker together. */
  lemma CallLinks(b: Backend, s: State, act: A.State, op: Op)
    requires RP.Sized(s.r) && Linked(b, s) && op.name == b.unit
    requires (op.Watch? && op.checks != []) || op.Unwatch?
    requires act.g.fields.watched == op.Watch?
    ensures Linked(b, Operation(s, op).(act := act))
  {
    CallsCompute(s.reg, s.r, op);
    var d := Apply(s.reg, op);
    assert d.restarter == Operation(s, op).r.f;
  }

  lemma ActivateKeepsInv(b: Backend, s: State, a: A.Action)
    requires b.Valid() && Inv(b, s) && A.Enabled(b.cfg, s.act, a)
    ensures Inv(b, Do(b, s, Activate(a)))
  {
    var act := A.Do(b.cfg, s.act, a);
    AI.StepKeepsInv(b.cfg, s.act, a);
    AH.StepKeepsHistory(b.cfg, s.act, a);
    StepFollows(b, s.act, a);
    ActivatedLinks(b, s, act);
  }

  lemma ActivatedLinks(b: Backend, s: State, act: A.State)
    requires b.Valid() && RP.Inv(s.r) && Linked(b, s) && WatchFollows(b, s.act.g, act.g)
    ensures RP.Inv(Activated(b, s, act).r) && Linked(b, Activated(b, s, act)) && Activated(b, s, act).act == act
  {
    var call := MonitorCall(b, s.act.g.log, act.g.log);
    if call.Some? {
      CallLinks(b, s, act, call.value);
      CallsRegister(s.reg, call.value);
      DoAllKeepsInv(s.r, Calls(s.reg, call.value));
    }
  }

  lemma StepKeepsInv(b: Backend, s: State, a: Action)
    requires b.Valid() && Inv(b, s) && Enabled(b, s, a)
    ensures Inv(b, Do(b, s, a))
  {
    match a
    case Activate(a) => ActivateKeepsInv(b, s, a);
    case Operate(op) =>
      CallsCompute(s.reg, s.r, op);
      DoAllKeepsInv(s.r, Calls(s.reg, op));
      OthersUntouched(s.reg, op, b.unit);
    case Restart(ra) =>
      RP.StepKeepsInv(s.r, ra);
  }

  lemma InitInv(b: Backend)
    ensures Inv(b, INIT)
  {
    AI.InitInv();
    AH.InitHistory(b.cfg);
    RP.InitInv();
  }

  lemma {:induction false} RunInv(b: Backend, ss: seq<State>, acts: seq<Action>, i: nat)
    requires IsRun(b, ss, acts) && i < |ss|
    ensures Inv(b, ss[i])
  {
    if i == 0 {
      InitInv(b);
    } else {
      RunInv(b, ss, acts, i - 1);
      assert IsStep(b, ss, acts, i - 1);
      StepKeepsInv(b, ss[i - 1], acts[i - 1]);
    }
  }

  // ---- what every run guarantees

  /** In every run the backend has a daemon monitor, a status and a tracker exactly while the
      activator watches it, and only while it is up. */
  lemma TrackedWhileWatched(b: Backend, ss: seq<State>, acts: seq<Action>, i: nat)
    requires IsRun(b, ss, acts) && i < |ss|
    ensures var s := ss[i];
      && (b.unit in s.r.f.trackers <==> s.act.g.fields.watched)
      && (b.unit in s.reg.socketMonitors <==> s.act.g.fields.watched)
      && (b.unit in s.reg.statuses <==> s.act.g.fields.watched)
      && (b.unit in s.r.f.trackers ==> AI.Up(s.act.g.fields))
  {
    RunInv(b, ss, acts, i);
  }

  lemma {:induction false} DoAllLog(r: RP.State, ras: seq<RP.Action>)
    requires RP.Sized(r) && Registers(ras)
    ensures r.log <= DoAll(r, ras).log
    ensures forall k | |r.log| <= k < |DoAll(r, ras).log| :: !DoAll(r, ras).log[k].LookedUp?
    decreases |ras|
  {
    if ras != [] {
      RP.StepSized(r, ras[0]);
      DoAllLog(RP.Do(r, ras[0]), ras[1..]);
    }
  }

  /** A step's lookups of the backend: one, and only while it is tracked. */
  lemma StepLookup(b: Backend, s: State, a: Action, k: nat)
    requires RP.Sized(s.r) && Enabled(b, s, a)
    ensures s.r.log <= Do(b, s, a).r.log
    ensures |s.r.log| <= k < |Do(b, s, a).r.log| && Do(b, s, a).r.log[k].LookedUp? ==>
              a.Restart? && k == |s.r.log| && Do(b, s, a).r.log[k].unit in s.r.f.trackers
  {
    match a
    case Activate(a) =>
      var call := MonitorCall(b, s.act.g.log, A.Do(b.cfg, s.act, a).g.log);
      if call.Some? {
        CallsRegister(s.reg, call.value);
        DoAllLog(s.r, Calls(s.reg, call.value));
      }
    case Operate(op) =>
      CallsRegister(s.reg, op);
      DoAllLog(s.r, Calls(s.reg, op));
    case Restart(ra) =>
      RP.StepLog(s.r, ra);
  }

  /** The step that made the lookup at position `k` of the restarter's log. */
  lemma {:induction false} LookupStep(b: Backend, ss: seq<State>, acts: seq<Action>, n: nat, k: nat) returns (l: nat)
    requires IsRun(b, ss, acts) && n < |ss| && k < |ss[n].r.log| && ss[n].r.log[k].LookedUp?
    ensures l < n && acts[l].Restart? && k == |ss[l].r.log| < |ss[l + 1].r.log| && ss[n].r.log[k].unit in ss[l].r.f.trackers
    decreases n
  {
    assert n > 0 && IsStep(b, ss, acts, n - 1);
    StepLookup(b, ss[n - 1], acts[n - 1], k);
    if k < |ss[n - 1].r.log| {
      assert ss[n].r.log[k] == ss[n - 1].r.log[k];
      l := LookupStep(b, ss, acts, n - 1, k);
    } else {
      l := n - 1;
    }
  }

  /** Every Restart of the backend itself goes back to a lookup its attempt made while the
      activator was watching it and the backend was up. */
  lemma RestartsGoBackToAWatch(b: Backend, ss: seq<State>, acts: seq<Action>, n: nat, j: nat) returns (l: nat)
    requires IsRun(b, ss, acts) && n < |ss| && j < |ss[n].r.log|
    requires ss[n].r.log[j].RestartCall? && ss[n].r.log[j].unit == b.unit
    ensures l < n && acts[l].Restart? && |ss[l].r.log| == ss[n].r.log[j].lookup < |ss[l + 1].r.log|
    ensures ss[n].r.log[j].lookup < j
    ensures ss[l].act.g.fields.watched && AI.Up(ss[l].act.g.fields)
  {
    RunInv(b, ss, acts, n);
    l := LookupStep(b, ss, acts, n, ss[n].r.log[j].lookup);
    RunInv(b, ss, acts, l);
  }

  lemma {:induction false} LogsGrow(b: Backend, ss: seq<State>, acts: seq<Action>, i: nat, n: nat)
    requires IsRun(b, ss, acts) && i <= n < |ss|
    ensures ss[i].r.log <= ss[n].r.log
    decreases n
  {
    if i < n {
      LogsGrow(b, ss, acts, i, n - 1);
      assert IsStep(b, ss, acts, n - 1);
      StepLookup(b, ss[n - 1], acts[n - 1], 0);
    }
  }

  /** So one that happens after an Unwatch and before the next Watch, wherever these are in
      the activator's run, comes from an attempt that made its lookup before the Unwatch. */
  lemma RestartAfterUnwatch(b: Backend, ss: seq<State>, acts: seq<Action>, w: nat, n: nat, j: nat)
    requires IsRun(b, ss, acts) && w < n < |ss|
    requires acts[w].Activate? && forall i | w < i <= n :: !ss[i].act.g.fields.watched
    requires |ss[w + 1].r.log| <= j < |ss[n].r.log|
    requires ss[n].r.log[j].RestartCall? && ss[n].r.log[j].unit == b.unit
    ensures ss[n].r.log[j].lookup < |ss[w].r.log|
  {
    var l := RestartsGoBackToAWatch(b, ss, acts, n, j);
    assert l < w;
    LogsGrow(b, ss, acts, l + 1, w);
  }
}
