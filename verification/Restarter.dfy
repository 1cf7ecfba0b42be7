/**
 The restarter: per-unit trackers with exponential backoff and cooldown, and the cascade
 to dependents. Trackers are pointed to by the map and by attempts in flight; a tracker
 is its index in `heap`.
 */
module Restarter {

  import opened Units
  import SM = StateManager

  const MAX_BACKOFF_SHIFT: nat := 6
  const INT64_MAX: int := 0x7fff_ffff_ffff_ffff

  /** Two's-complement wrap-around of Go's int64. */
  function Wrap64(x: int): int {
    (x + 0x8000_0000_0000_0000) % 0x1_0000_0000_0000_0000 - 0x8000_0000_0000_0000
  }

  function Pow2(n: nat): nat {
    if n == 0 then 1 else 2 * Pow2(n - 1)
  }

  function Shift(attempts: nat): nat {
    if attempts > MAX_BACKOFF_SHIFT then MAX_BACKOFF_SHIFT else attempts
  }

  /** The backoff computed after `attempts` earlier attempts, and the sleep it causes. */
  function Backoff(policy: RestartPolicy, attempts: nat): int {
    Wrap64(policy.backoff * Pow2(Shift(attempts)))
  }

  function Wait(policy: RestartPolicy, attempts: nat): int {
    if Backoff(policy, attempts) > 0 then Backoff(policy, attempts) else 0
  }

  datatype Tracker = Tracker(policy: RestartPolicy, attempts: nat, cooldownUntil: int)

  datatype Fields = Fields(trackers: map<string, nat>, heap: seq<Tracker>, dependents: map<string, seq<string>>) {
    predicate Valid() {
      forall u <- trackers :: trackers[u] < |heap|
    }
  }

  function RegisterSpec(f: Fields, unit: string, policy: RestartPolicy): Fields {
    f.(trackers := f.trackers[unit := |f.heap|], heap := f.heap + [Tracker(policy, 0, 0)])
  }

  function UnregisterSpec(f: Fields, unit: string): Fields {
    f.(trackers := f.trackers - {unit})
  }

  /** An active state or a healthy check: the unit has recovered. */
  predicate Recovered(ev: SM.Event) {
    (ev.StateChanged? && ev.activeState == "active") || (ev.HealthChanged? && ev.healthy)
  }

  /** A failed state or an unhealthy check: the unit needs a restart. */
  predicate NeedsRestart(ev: SM.Event) {
    (ev.StateChanged? && ev.activeState == "failed") || (ev.HealthChanged? && !ev.healthy)
  }

  predicate Tracked(f: Fields, unit: string)
    requires f.Valid()
  {
    unit in f.trackers && f.heap[f.trackers[unit]].policy.enabled
  }

  predicate Resets(f: Fields, ev: SM.Event)
    requires f.Valid()
  {
    Tracked(f, ev.unit) && Recovered(ev)
  }

  predicate Approves(f: Fields, ev: SM.Event, now: int)
    requires f.Valid()
  {
    Tracked(f, ev.unit) && NeedsRestart(ev) && now >= f.heap[f.trackers[ev.unit]].cooldownUntil
  }

  function ResetSpec(f: Fields, id: nat): Fields
    requires id < |f.heap|
  {
    f.(heap := f.heap[id := f.heap[id].(attempts := 0, cooldownUntil := 0)])
  }

  function HandleSpec(f: Fields, ev: SM.Event): Fields
    requires f.Valid()
  {
    if Resets(f, ev) then ResetSpec(f, f.trackers[ev.unit]) else f
  }

  function BeginSpec(f: Fields, id: nat): Fields
    requires id < |f.heap|
  {
    f.(heap := f.heap[id := f.heap[id].(attempts := f.heap[id].attempts + 1)])
  }

  function FailSpec(f: Fields, id: nat, now: int): Fields
    requires id < |f.heap|
  {
    f.(heap := f.heap[id := f.heap[id].(cooldownUntil := now + f.heap[id].policy.cooldown)])
  }

  function Get(m: map<string, seq<string>>, k: string): seq<string> {
    if k in m then m[k] else []
  }

  /** The systemd manager: an arbitrary outcome for each call, and a log of the calls. */
  class Manager {
    const outcome: nat -> bool
    var calls: seq<string>

    constructor (outcome: nat -> bool)
      ensures this.outcome == outcome && calls == []
    {
      this.outcome := outcome;
      calls := [];
    }

    method Restart(unit: string) returns (ok: bool)
      modifies this
      ensures calls == old(calls) + [unit] && ok == outcome(|old(calls)|)
    {
      ok := outcome(|calls|);
      calls := calls + [unit];
    }
  }

  class Restarter {
    const mgr: Manager
    const sm: SM.StateManager
    var trackers: map<string, nat>
    var heap: seq<Tracker>
    var dependents: map<string, seq<string>>

    ghost function View(): Fields
      reads this
    {
      Fields(trackers, heap, dependents)
    }

    constructor (mgr: Manager, sm: SM.StateManager)
      ensures this.mgr == mgr && this.sm == sm
      ensures View() == Fields(map[], [], map[])
    {
      this.mgr, this.sm := mgr, sm;
      trackers, heap, dependents := map[], [], map[];
    }

    method SetDependents(dependents: map<string, seq<string>>)
      modifies this
      ensures View() == old(View()).(dependents := dependents)
      ensures old(View().Valid()) ==> View().Valid()
    {
      this.dependents := dependents;
    }

    method Register(unit: string, policy: RestartPolicy)
      modifies this
      ensures View() == RegisterSpec(old(View()), unit, policy)
      ensures old(View().Valid()) ==> View().Valid()
    {
      trackers := trackers[unit := |heap|];
      heap := heap + [Tracker(policy, 0, 0)];
    }

    method Unregister(unit: string)
      modifies this
      ensures View() == UnregisterSpec(old(View()), unit)
      ensures old(View().Valid()) ==> View().Valid()
    {
      trackers := trackers - {unit};
    }

    method ShouldRestart(ev: SM.Event, now: int) returns (approved: bool)
      requires View().Valid()
      modifies this, sm`units
      ensures approved == Approves(old(View()), ev, now)
      ensures approved <==>
                && ev.unit in old(trackers) && old(heap)[old(trackers)[ev.unit]].policy.enabled
                && (if ev.StateChanged? then ev.activeState == "failed" else !ev.healthy)
                && now >= old(heap)[old(trackers)[ev.unit]].cooldownUntil
      ensures ev.unit !in old(trackers) || !old(heap)[old(trackers)[ev.unit]].policy.enabled ==>
                View() == old(View()) && sm.units == old(sm.units)
      ensures View() == HandleSpec(old(View()), ev)
      ensures View().Valid()
      ensures sm.units == if Resets(old(View()), ev) then SM.ResetSpec(old(sm.units), ev.unit) else old(sm.units)
    {
      if ev.unit !in trackers || !heap[trackers[ev.unit]].policy.enabled {
        return false;
      }
      var id := trackers[ev.unit];
      match ev {
        case StateChanged(_, activeState, _, _) =>
          if activeState != "failed" {
            if activeState == "active" {
              heap := heap[id := heap[id].(attempts := 0, cooldownUntil := 0)];
              sm.ResetRestartCount(ev.unit);
            }
            return false;
          }
        case HealthChanged(_, healthy, _) =>
          if healthy {
            heap := heap[id := heap[id].(attempts := 0, cooldownUntil := 0)];
            sm.ResetRestartCount(ev.unit);
            return false;
          }
      }
      if now < heap[id].cooldownUntil {
        return false;
      }
      return true;
    }

    /** The lookup section at the start of an attempt. */
    method BeginAttempt(unit: string) returns (id: Option<nat>, backoff: int)
      requires View().Valid()
      modifies this
      ensures id == if unit in old(trackers) then Some(old(trackers)[unit]) else None
      ensures id.None? ==> View() == old(View())
      ensures id.Some? ==> View() == BeginSpec(old(View()), id.value)
                           && backoff == Backoff(old(heap)[id.value].policy, old(heap)[id.value].attempts)
      ensures View().Valid()
    {
      if unit !in trackers {
        return None, 0;
      }
      var t := trackers[unit];
      var tracker := heap[t];
      var shift := tracker.attempts;
      if shift > MAX_BACKOFF_SHIFT {
        shift := MAX_BACKOFF_SHIFT;
      }
      heap := heap[t := tracker.(attempts := tracker.attempts + 1)];
      return Some(t), Wrap64(tracker.policy.backoff * Pow2(shift));
    }

    method RecordFailure(id: nat, now: int)
      requires id < |heap|
      modifies this
      ensures View() == FailSpec(old(View()), id, now)
      ensures old(View().Valid()) ==> View().Valid()
    {
      heap := heap[id := heap[id].(cooldownUntil := now + heap[id].policy.cooldown)];
    }

    /** Restarts every dependent in order, going on past failures. */
    method CascadeRestart(unit: string)
      modifies mgr
      ensures mgr.calls == old(mgr.calls) + (if unit in dependents then dependents[unit] else [])
    {
      var deps := if unit in dependents then dependents[unit] else [];
      for i := 0 to |deps|
        invariant mgr.calls == old(mgr.calls) + deps[..i]
      {
        var ok := mgr.Restart(deps[i]);
        assert deps[..i + 1] == deps[..i] + [deps[i]];
      }
      assert deps[..|deps|] == deps;
    }

    /** A whole attempt, uninterrupted: a successful restart issues one Restart for the unit
        and then one for each dependent, in order and with multiplicity; a failed one issues
        none for the dependents and puts the tracker in cooldown. */
    method AttemptRestart(unit: string, now: int)
      requires View().Valid()
      modifies this, mgr, sm`units
      ensures View().Valid()
      ensures unit !in old(trackers) ==> View() == old(View()) && mgr.calls == old(mgr.calls) && sm.units == old(sm.units)
      ensures unit in old(trackers) ==>
                var id, begun := old(trackers)[unit], BeginSpec(old(View()), old(trackers)[unit]);
                && sm.units == SM.IncrementSpec(old(sm.units), unit)
                && if mgr.outcome(|old(mgr.calls)|)
                   then View() == begun && mgr.calls == old(mgr.calls) + [unit] + Get(dependents, unit)
                   else View() == FailSpec(begun, id, now) && mgr.calls == old(mgr.calls) + [unit]
    {
      var id, backoff := BeginAttempt(unit);
      if id.None? {
        return;
      }
      sm.IncrementRestartCount(unit);
      var ok := mgr.Restart(unit);
      if !ok {
        RecordFailure(id.value, now);
        return;
      }
      CascadeRestart(unit);
    }
  }

  // ---- backoff arithmetic

  /** Go's int64 arithmetic: the result is in range and differs by a multiple of 2^64. */
  lemma WrapsAround(x: int)
    ensures -0x8000_0000_0000_0000 <= Wrap64(x) <= INT64_MAX
    ensures (x - Wrap64(x)) % 0x1_0000_0000_0000_0000 == 0
    ensures -0x8000_0000_0000_0000 <= x <= INT64_MAX ==> Wrap64(x) == x
  {
    var m := 0x1_0000_0000_0000_0000;
    var y := x + 0x8000_0000_0000_0000;
    assert y == m * (y / m) + y % m;
    assert x - Wrap64(x) == m * (y / m);
  }

  lemma {:induction false} Pow2Values()
    ensures Pow2(0) == 1 && Pow2(1) == 2 && Pow2(2) == 4 && Pow2(3) == 8
    ensures Pow2(4) == 16 && Pow2(5) == 32 && Pow2(6) == 64
  {
    assert Pow2(3) == 2 * Pow2(2);
    assert Pow2(5) == 2 * Pow2(4);
  }

  lemma ShiftFactor(attempts: nat)
    ensures 1 <= Pow2(Shift(attempts)) <= 64
    ensures attempts >= MAX_BACKOFF_SHIFT ==> Pow2(Shift(attempts)) == 64
  {
    Pow2Values();
    var s := Shift(attempts);
    if s == 0 {} else if s == 1 {} else if s == 2 {} else if s == 3 {} else if s == 4 {} else if s == 5 {} else {}
  }

  lemma ScaleBounds(b: nat, k: nat)
    requires 1 <= k <= 64
    ensures b <= b * k <= 64 * b
  {
  }

  /** Every backoff is exact and at most 64 times the base as long as the largest fits in
      int64; and the largest fits exactly under that bound. */
  lemma BackoffExact(policy: RestartPolicy, attempts: nat)
    requires policy.backoff >= 0
    ensures policy.backoff <= INT64_MAX / 64 ==>
              Backoff(policy, attempts) == policy.backoff * Pow2(Shift(attempts)) <= 64 * policy.backoff
    ensures attempts >= MAX_BACKOFF_SHIFT ==>
              (Backoff(policy, attempts) == 64 * policy.backoff <==> policy.backoff <= INT64_MAX / 64)
  {
    ShiftFactor(attempts);
    ScaleBounds(policy.backoff, Pow2(Shift(attempts)));
    var x := policy.backoff * Pow2(Shift(attempts));
    assert x <= INT64_MAX ==> Wrap64(x) == x;
    assert Wrap64(x) <= INT64_MAX;
  }

  /** The total sleep of the first `n` attempts after a reset. */
  function TotalWait(policy: RestartPolicy, n: nat): int {
    if n == 0 then 0 else TotalWait(policy, n - 1) + Wait(policy, n - 1)
  }

  /** The multiple of the base that `n` attempts wait in total. */
  function TotalFactor(n: nat): int {
    if n <= 7 then Pow2(n) - 1 else 127 + 64 * (n - 7)
  }

  lemma FactorStep(n: nat)
    requires n > 0
    ensures TotalFactor(n) == TotalFactor(n - 1) + Pow2(Shift(n - 1))
  {
    Pow2Values();
    ShiftFactor(n - 1);
    if n == 7 { assert Pow2(7) == 2 * Pow2(6); }
  }

  lemma Distribute(b: int, x: int, y: int)
    ensures b * x + b * y == b * (x + y)
  {
  }

  /** It doubles up to the seventh attempt and grows linearly from there. */
  lemma {:induction false} TotalWaitClosedForm(policy: RestartPolicy, n: nat)
    requires 0 <= policy.backoff <= INT64_MAX / 64
    ensures TotalWait(policy, n) == policy.backoff * TotalFactor(n)
    decreases n
  {
    if n > 0 {
      TotalWaitClosedForm(policy, n - 1);
      BackoffExact(policy, n - 1);
      FactorStep(n);
      Distribute(policy.backoff, TotalFactor(n - 1), Pow2(Shift(n - 1)));
    }
  }

  /** The documentation caps the delay by the cooldown; the code does so exactly when the
      first seven delays fit in it, which is, unless 64 backoffs overflow, when 64 backoffs
      do. Those of the default policy do not. */
  lemma CooldownCapsBackoff(policy: RestartPolicy)
    ensures (forall k: nat :: Wait(policy, k) <= policy.cooldown) <==> forall k: nat | k <= MAX_BACKOFF_SHIFT :: Wait(policy, k) <= policy.cooldown
    ensures 0 <= policy.backoff <= INT64_MAX / 64 ==>
              ((forall k: nat :: Wait(policy, k) <= policy.cooldown) <==> 64 * policy.backoff <= policy.cooldown)
    ensures var d := RestartPolicy(true, 5_000_000_000, 60_000_000_000); Wait(d, 6) > d.cooldown
  {
    forall k: nat ensures Wait(policy, k) == Wait(policy, Shift(k)) {}
    if 0 <= policy.backoff <= INT64_MAX / 64 {
      forall k: nat ensures Wait(policy, k) <= 64 * policy.backoff { BackoffExact(policy, k); }
      BackoffExact(policy, 6);
      assert Wait(policy, 6) == 64 * policy.backoff;
    }
    BackoffExact(RestartPolicy(true, 5_000_000_000, 60_000_000_000), 6);
  }
}
