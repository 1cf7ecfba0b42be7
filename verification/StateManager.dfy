/**
 The state manager: the status of each registered unit, and the events it emits when a
 status changes. Updates that change nothing emit nothing.
 */
module StateManager {

  import opened Units

  datatype UnitStatus = UnitStatus(
    activeState: string, subState: string,
    healthy: Option<bool>,
    restartCount: nat,
    lastTransition: int)

  const FRESH := UnitStatus("", "", None, 0, 0)

  datatype Event =
    | StateChanged(unit: string, activeState: string, subState: string, at: int)
    | HealthChanged(unit: string, healthy: bool, at: int)

  type Statuses = map<string, UnitStatus>

  function UpdateStateSpec(m: Statuses, unit: string, active: string, sub: string, now: int): (Statuses, seq<Event>) {
    if unit !in m || (m[unit].activeState == active && m[unit].subState == sub) then (m, [])
    else (m[unit := m[unit].(activeState := active, subState := sub, lastTransition := now)],
          [StateChanged(unit, active, sub, now)])
  }

  function UpdateHealthSpec(m: Statuses, unit: string, healthy: bool, now: int): (Statuses, seq<Event>) {
    if unit !in m || m[unit].healthy == Some(healthy) then (m, [])
    else (m[unit := m[unit].(healthy := Some(healthy))], [HealthChanged(unit, healthy, now)])
  }

  function IncrementSpec(m: Statuses, unit: string): Statuses {
    if unit in m then m[unit := m[unit].(restartCount := m[unit].restartCount + 1)] else m
  }

  function ResetSpec(m: Statuses, unit: string): Statuses {
    if unit in m then m[unit := m[unit].(restartCount := 0)] else m
  }

  /** `emitted` is the sequence of events handed to the handlers. */
  class StateManager {
    var units: Statuses
    var emitted: seq<Event>

    constructor ()
      ensures units == map[] && emitted == []
    {
      units, emitted := map[], [];
    }

    method Register(unit: string)
      modifies this`units
      ensures units == old(units)[unit := FRESH]
    {
      units := units[unit := FRESH];
    }

    method Unregister(unit: string)
      modifies this`units
      ensures units == old(units) - {unit}
    {
      units := units - {unit};
    }

    method UpdateState(unit: string, active: string, sub: string, now: int)
      modifies this
      ensures var (m, es) := UpdateStateSpec(old(units), unit, active, sub, now);
              units == m && emitted == old(emitted) + es
    {
      if unit !in units {
        return;
      }
      var status := units[unit];
      if status.activeState == active && status.subState == sub {
        return;
      }
      units := units[unit := status.(activeState := active, subState := sub, lastTransition := now)];
      Emit(StateChanged(unit, active, sub, now));
    }

    method UpdateHealth(unit: string, healthy: bool, now: int)
      modifies this
      ensures var (m, es) := UpdateHealthSpec(old(units), unit, healthy, now);
              units == m && emitted == old(emitted) + es
    {
      if unit !in units {
        return;
      }
      var status := units[unit];
      if status.healthy == Some(healthy) {
        return;
      }
      units := units[unit := status.(healthy := Some(healthy))];
      Emit(HealthChanged(unit, healthy, now));
    }

    method IncrementRestartCount(unit: string)
      modifies this`units
      ensures units == IncrementSpec(old(units), unit)
    {
      if unit in units {
        units := units[unit := units[unit].(restartCount := units[unit].restartCount + 1)];
      }
    }

    method ResetRestartCount(unit: string)
      modifies this`units
      ensures units == ResetSpec(old(units), unit)
    {
      if unit in units {
        units := units[unit := units[unit].(restartCount := 0)];
      }
    }

    method Emit(ev: Event)
      modifies this`emitted
      ensures emitted == old(emitted) + [ev]
    {
      emitted := emitted + [ev];
    }
  }

  // ---- sequences of updates

  datatype Op =
    | Register(unit: string) | Unregister(unit: string)
    | State(unit: string, active: string, sub: string, at: int)
    | Health(unit: string, healthy: bool, at: int)
    | Increment(unit: string) | Reset(unit: string)

  function Apply(m: Statuses, op: Op): (Statuses, seq<Event>) {
    match op
    case Register(u) => (m[u := FRESH], [])
    case Unregister(u) => (m - {u}, [])
    case State(u, a, s, t) => UpdateStateSpec(m, u, a, s, t)
    case Health(u, h, t) => UpdateHealthSpec(m, u, h, t)
    case Increment(u) => (IncrementSpec(m, u), [])
    case Reset(u) => (ResetSpec(m, u), [])
  }

  /** The statuses and the emitted events after a sequence of updates. */
  function ApplyAll(m: Statuses, ops: seq<Op>): (Statuses, seq<Event>) {
    if |ops| == 0 then (m, [])
    else
      var (m1, es1) := ApplyAll(m, ops[..|ops| - 1]);
      var (m2, es2) := Apply(m1, ops[|ops| - 1]);
      (m2, es1 + es2)
  }

  /** The health values emitted for `unit`, in order. */
  function HealthEvents(unit: string, es: seq<Event>): seq<bool> {
    if |es| == 0 then []
    else
      var e := es[|es| - 1];
      HealthEvents(unit, es[..|es| - 1]) + if e.HealthChanged? && e.unit == unit then [e.healthy] else []
  }

  /** The health results delivered for `unit`, in order. */
  function HealthResults(unit: string, ops: seq<Op>): seq<bool> {
    if |ops| == 0 then []
    else
      var o := ops[|ops| - 1];
      HealthResults(unit, ops[..|ops| - 1]) + if o.Health? && o.unit == unit then [o.healthy] else []
  }

  predicate KeepsRegistration(unit: string, ops: seq<Op>) {
    forall o <- ops :: !((o.Register? || o.Unregister?) && o.unit == unit)
  }

  ghost predicate Alternates<T>(hs: seq<T>) {
    forall i | 0 <= i < |hs| - 1 :: hs[i] != hs[i + 1]
  }

  function Last<T>(hs: seq<T>): Option<T> {
    if |hs| == 0 then None else Some(hs[|hs| - 1])
  }

  lemma HealthEventsAppend(unit: string, es: seq<Event>, more: seq<Event>)
    requires |more| <= 1
    ensures HealthEvents(unit, es + more) == HealthEvents(unit, es) + HealthEvents(unit, more)
  {
    if |more| == 0 {
      assert es + more == es;
    } else {
      assert (es + more)[..|es + more| - 1] == es;
      assert more[..0] == [];
    }
  }

  /** The sequence with consecutive repetitions removed. */
  function Dedupe<T(==)>(rs: seq<T>): seq<T> {
    if |rs| == 0 then []
    else
      var front, h := rs[..|rs| - 1], rs[|rs| - 1];
      Dedupe(front) + if Last(front) == Some(h) then [] else [h]
  }

  /** Over one registration, whatever else happens, the health events of a unit are its
      health results with consecutive repetitions removed, and its status holds the last. */
  lemma {:induction false} HealthEventsOfRegistration(m: Statuses, unit: string, ops: seq<Op>)
    requires unit in m && m[unit].healthy.None? && KeepsRegistration(unit, ops)
    ensures var (m', es) := ApplyAll(m, ops);
      && unit in m' && m'[unit].healthy == Last(HealthResults(unit, ops))
      && HealthEvents(unit, es) == Dedupe(HealthResults(unit, ops))
    decreases |ops|
  {
    if |ops| > 0 {
      var front, op := ops[..|ops| - 1], ops[|ops| - 1];
      assert op in ops;
      HealthEventsOfRegistration(m, unit, front);
      var (m1, es1) := ApplyAll(m, front);
      var (m2, es2) := Apply(m1, op);
      HealthEventsAppend(unit, es1, es2);
      OneHealth(m1, unit, op);
      var rs := HealthResults(unit, front);
      if IfHealth(unit, op) == [] {
        assert rs + [] == rs;
      } else {
        assert (rs + [op.healthy])[..|rs|] == rs;
      }
    }
  }

  function IfHealth(unit: string, op: Op): seq<bool> {
    if op.Health? && op.unit == unit then [op.healthy] else []
  }

  /** One update emits a health event of `unit` exactly when it is a health result that
      differs from the stored one. */
  lemma OneHealth(m: Statuses, unit: string, op: Op)
    requires unit in m && !((op.Register? || op.Unregister?) && op.unit == unit)
    ensures var (m', es) := Apply(m, op);
      && |es| <= 1 && unit in m'
      && (if IfHealth(unit, op) == [] || m[unit].healthy == Some(op.healthy)
          then HealthEvents(unit, es) == [] && m'[unit].healthy == m[unit].healthy
          else HealthEvents(unit, es) == [op.healthy] && m'[unit].healthy == Some(op.healthy))
  {
    var (m', es) := Apply(m, op);
    if |es| == 1 { assert es[..0] == []; }
  }

  lemma AlternatesSnoc<T>(hs: seq<T>, h: T)
    ensures Alternates(hs + [h]) <==> Alternates(hs) && Last(hs) != Some(h)
  {
    var r := hs + [h];
    if Alternates(r) {
      forall i | 0 <= i < |hs| - 1 ensures hs[i] != hs[i + 1] { assert r[i] != r[i + 1]; }
      if |hs| > 0 { assert r[|hs| - 1] != r[|hs|]; }
    }
  }

  /** So events alternate always, and alternating results are all emitted. */
  lemma {:induction false} DedupeAlternates<T>(rs: seq<T>)
    ensures Alternates(Dedupe(rs)) && Last(Dedupe(rs)) == Last(rs)
    ensures Alternates(rs) ==> Dedupe(rs) == rs
    decreases |rs|
  {
    if |rs| > 0 {
      var front, h := rs[..|rs| - 1], rs[|rs| - 1];
      assert rs == front + [h];
      DedupeAlternates(front);
      AlternatesSnoc(front, h);
      AlternatesSnoc(Dedupe(front), h);
    }
  }

  lemma DedupeSnoc<T>(rs: seq<T>, r: T)
    ensures Dedupe(rs + [r]) == Dedupe(rs) + if Last(rs) == Some(r) then [] else [r]
    ensures Last(rs + [r]) == Some(r)
  {
    assert (rs + [r])[..|rs|] == rs;
  }

  // ---- states

  /** An active state and its sub state. */
  type UnitState = (string, string)

  /** The states emitted for `unit`, in order. */
  function StateEvents(unit: string, es: seq<Event>): seq<UnitState> {
    if |es| == 0 then []
    else
      var e := es[|es| - 1];
      StateEvents(unit, es[..|es| - 1]) + if e.StateChanged? && e.unit == unit then [(e.activeState, e.subState)] else []
  }

  /** The states systemd reported for `unit`, in order. */
  function StateReports(unit: string, ops: seq<Op>): seq<UnitState> {
    if |ops| == 0 then []
    else
      var o := ops[|ops| - 1];
      StateReports(unit, ops[..|ops| - 1]) + if o.State? && o.unit == unit then [(o.active, o.sub)] else []
  }

  lemma StateEventsAppend(unit: string, es: seq<Event>, more: seq<Event>)
    requires |more| <= 1
    ensures StateEvents(unit, es + more) == StateEvents(unit, es) + StateEvents(unit, more)
  {
    if |more| == 0 {
      assert es + more == es;
    } else {
      assert (es + more)[..|es + more| - 1] == es;
      assert more[..0] == [];
    }
  }

  /** One update emits a state event of `unit` exactly when it is a report that differs from
      the stored state. */
  lemma OneState(m: Statuses, unit: string, op: Op)
    requires unit in m && !((op.Register? || op.Unregister?) && op.unit == unit)
    ensures var (m', es) := Apply(m, op);
      && |es| <= 1 && unit in m'
      && (if op.State? && op.unit == unit && (m[unit].activeState, m[unit].subState) != (op.active, op.sub)
          then StateEvents(unit, es) == [(op.active, op.sub)]
          else StateEvents(unit, es) == [])
      && (m'[unit].activeState, m'[unit].subState) ==
           (if op.State? && op.unit == unit then (op.active, op.sub) else (m[unit].activeState, m[unit].subState))
      && (if StateEvents(unit, es) == [] then m'[unit].lastTransition == m[unit].lastTransition
          else es[0].at == m'[unit].lastTransition == op.at)
  {
    var (m', es) := Apply(m, op);
    if |es| == 1 { assert es[..0] == []; }
  }

  /** The status and the events so far agree with the reports so far. */
  ghost predicate Told(st: UnitStatus, events: seq<UnitState>, reports: seq<UnitState>) {
    var none: seq<UnitState> := [("", "")];
    && Last(none + reports) == Some((st.activeState, st.subState))
    && none + events == Dedupe(none + reports)
  }

  lemma ToldStep(st: UnitStatus, events: seq<UnitState>, reports: seq<UnitState>, r: UnitState, st': UnitStatus)
    requires Told(st, events, reports) && (st'.activeState, st'.subState) == r
    ensures Told(st', events + if (st.activeState, st.subState) == r then [] else [r], reports + [r])
  {
    var none: seq<UnitState> := [("", "")];
    DedupeSnoc(none + reports, r);
    assert none + (reports + [r]) == none + reports + [r];
    assert none + (events + [r]) == none + events + [r] && events + [] == events;
  }

  /** Over one registration, whatever else happens, the state events of a unit are the states
      reported for it with consecutive repetitions removed, the state before the first being
      empty; and its status holds the last. */
  lemma {:induction false} StateEventsOfRegistration(m: Statuses, unit: string, ops: seq<Op>)
    requires unit in m && m[unit].activeState == m[unit].subState == "" && KeepsRegistration(unit, ops)
    ensures var (m', es) := ApplyAll(m, ops);
      unit in m' && Told(m'[unit], StateEvents(unit, es), StateReports(unit, ops))
    decreases |ops|
  {
    if |ops| == 0 {
      var none: seq<UnitState> := [("", "")];
      assert none + [] == none && none[..0] == [];
    } else {
      var front, op := ops[..|ops| - 1], ops[|ops| - 1];
      assert op in ops;
      StateEventsOfRegistration(m, unit, front);
      var (m1, es1) := ApplyAll(m, front);
      var (m2, es2) := Apply(m1, op);
      StateEventsAppend(unit, es1, es2);
      OneState(m1, unit, op);
      if op.State? && op.unit == unit {
        ToldStep(m1[unit], StateEvents(unit, es1), StateReports(unit, front), (op.active, op.sub), m2[unit]);
      } else {
        assert StateEvents(unit, es1) + [] == StateEvents(unit, es1);
        assert StateReports(unit, front) + [] == StateReports(unit, front);
      }
    }
  }
}
