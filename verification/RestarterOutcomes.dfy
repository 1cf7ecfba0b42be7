/**
 The restarter's runs in terms of the steps taken, not of the history they log: what an
 event leads to, how long an attempt sleeps, what a failed call leaves behind.
 */
module RestarterOutcomes {

  import opened Units
  import opened Restarter
  import opened RestarterProtocol
  import SM = StateManager

  // ---- events

  /** What the step at `n` makes of event `ev`: it resets the tracker of a unit whose restarts
      are enabled when the unit is active or healthy; it approves one restart attempt when
      such a unit has failed or is unhealthy and its cooldown is over; and otherwise nothing. */
  lemma EventOutcome(ss: seq<State>, acts: seq<Action>, n: nat, ev: SM.Event)
    requires IsRun(ss, acts) && n < |acts| && acts[n] == Handle(ev)
    ensures ev.unit in ss[n].f.trackers ==> ss[n].f.trackers[ev.unit] < |ss[n].f.heap|
    ensures var s, t := ss[n], ss[n + 1];
      var enabled := ev.unit in s.f.trackers && s.f.heap[s.f.trackers[ev.unit]].policy.enabled;
      var well := if ev.StateChanged? then ev.activeState == "active" else ev.healthy;
      var ill := if ev.StateChanged? then ev.activeState == "failed" else !ev.healthy;
      if enabled && well then
        var id := s.f.trackers[ev.unit];
        && t.log == s.log + [ResetBy(ev.unit, id, ev.HealthChanged?)] && t.threads == s.threads
        && t.f == s.f.(heap := s.f.heap[id := s.f.heap[id].(attempts := 0, cooldownUntil := 0)])
      else if enabled && ill && s.f.heap[s.f.trackers[ev.unit]].cooldownUntil <= s.now then
        && t.log == s.log + [Approved(ev.unit, s.now, ev.HealthChanged?)]
        && t.threads == s.threads + [Spawned(ev.unit)] && t.f == s.f
      else
        t == s
  {
    RunInv(ss, acts, n);
    assert IsStep(ss, acts, n);
  }

  /** Every approval in the log was given to an event of a unit with restarts enabled and out
      of cooldown, that had failed or was unhealthy. */
  lemma {:induction false} ApprovalHasCause(ss: seq<State>, acts: seq<Action>, n: nat, j: nat) returns (k: nat)
    requires IsRun(ss, acts) && n < |ss| && j < |ss[n].log| && ss[n].log[j].Approved?
    ensures k < n && acts[k].Handle? && |ss[k].log| == j
    ensures var s, ev := ss[k], acts[k].ev;
      && ss[n].log[j] == Approved(ev.unit, s.now, ev.HealthChanged?)
      && (if ev.StateChanged? then ev.activeState == "failed" else !ev.healthy)
      && ev.unit in s.f.trackers && s.f.trackers[ev.unit] < |s.f.heap|
      && s.f.heap[s.f.trackers[ev.unit]].policy.enabled && s.f.heap[s.f.trackers[ev.unit]].cooldownUntil <= s.now
    decreases n
  {
    assert n > 0 && IsStep(ss, acts, n - 1);
    StepLog(ss[n - 1], acts[n - 1]);
    if j < |ss[n - 1].log| {
      assert ss[n - 1].log[j] == ss[n].log[j];
      k := ApprovalHasCause(ss, acts, n - 1, j);
    } else {
      k := n - 1;
      if !acts[k].Handle? { NoOtherApproval(ss[k], acts[k]); }
      EventOutcome(ss, acts, k, acts[k].ev);
    }
  }

  lemma NoOtherApproval(s: State, a: Action)
    requires Sized(s) && Enabled(s, a) && !a.Handle?
    ensures |Do(s, a).log| > |s.log| ==> !Do(s, a).log[|s.log|].Approved?
  {
  }

  // ---- attempts

  /** A sleeping attempt, and the lookup at `l` it comes from. */
  predicate SleepsSince(ss: seq<State>, acts: seq<Action>, n: nat, t: nat, l: nat)
    requires n < |ss| && t < |ss[n].threads| && ss[n].threads[t].Sleeping?
  {
    var pc := ss[n].threads[t];
    && l < n && l < |acts| && acts[l].Run? && acts[l].t == t
    && t < |ss[l].threads| && ss[l].threads[t] == Spawned(pc.unit)
    && pc.unit in ss[l].f.trackers && ss[l].f.trackers[pc.unit] == pc.id
    && pc.lookup == |ss[l].log| < |ss[n].log|
    && ss[n].log[pc.lookup].LookedUp? && ss[n].log[pc.lookup].unit == pc.unit && ss[n].log[pc.lookup].id == pc.id
    && pc.until == ss[l].now + ss[n].log[pc.lookup].wait
  }

  lemma SleepBegins(s: State, a: Action, t: nat)
    requires Sized(s) && Enabled(s, a) && t < |Do(s, a).threads| && Do(s, a).threads[t].Sleeping?
    ensures var r := Do(s, a); var pc := r.threads[t];
      || (t < |s.threads| && s.threads[t] == pc && s.log <= r.log)
      || (a.Run? && a.t == t && s.threads[t] == Spawned(pc.unit)
          && pc.unit in s.f.trackers && s.f.trackers[pc.unit] == pc.id && pc.lookup == |s.log|
          && r.log == s.log + [LookedUp(pc.unit, pc.id, pc.until - s.now)])
  {
    StepLog(s, a);
  }

  lemma {:induction false} SleepHasCause(ss: seq<State>, acts: seq<Action>, n: nat, t: nat) returns (l: nat)
    requires IsRun(ss, acts) && n < |ss| && t < |ss[n].threads| && ss[n].threads[t].Sleeping?
    ensures SleepsSince(ss, acts, n, t, l)
    decreases n
  {
    assert n > 0 && IsStep(ss, acts, n - 1);
    SleepBegins(ss[n - 1], acts[n - 1], t);
    if t < |ss[n - 1].threads| && ss[n - 1].threads[t] == ss[n].threads[t] {
      l := SleepHasCause(ss, acts, n - 1, t);
      assert ss[n - 1].log <= ss[n].log;
    } else {
      l := n - 1;
    }
  }

  /** An attempt calls Restart for the unit it looked up, once the backoff has passed since the
      lookup and not before; the outcome of the call decides what it does next. */
  lemma RestartAfterBackoff(ss: seq<State>, acts: seq<Action>, n: nat, t: nat, ok: bool) returns (l: nat)
    requires IsRun(ss, acts) && n < |acts| && acts[n] == Run(t, ok) && t < |ss[n].threads| && ss[n].threads[t].Sleeping?
    ensures SleepsSince(ss, acts, n, t, l)
    ensures ss[n].now >= ss[l].now + ss[n].log[ss[n].threads[t].lookup].wait
    ensures var pc := ss[n].threads[t];
      && ss[n + 1].log == ss[n].log + [RestartCall(t, pc.unit, pc.lookup, ok)]
      && ss[n + 1].threads == ss[n].threads[t := if ok then Succeeded(pc.unit) else Failing(pc.unit, pc.id)]
  {
    l := SleepHasCause(ss, acts, n, t);
    assert IsStep(ss, acts, n);
  }

  // ---- failures

  /** After the failed call at `k` its attempt records the failure for the tracker it looked up. */
  ghost predicate FailureKept(s: State, k: nat)
    requires k < |s.log| && s.log[k].RestartCall?
  {
    var e := s.log[k];
    && e.t < |s.threads| && e.lookup < |s.log| && s.log[e.lookup].LookedUp?
    && (s.threads[e.t] == Failing(e.unit, s.log[e.lookup].id) ||
        (s.threads[e.t].Ended? && exists m :: k < m < |s.log| && RecordsFailure(s.log[m], e.unit, s.log[e.lookup].id)))
  }

  predicate RecordsFailure(e: Entry, unit: string, id: nat) {
    e.FailedAt? && e.unit == unit && e.id == id
  }

  lemma FailureStays(s: State, a: Action, k: nat)
    requires Sized(s) && Enabled(s, a) && k < |s.log| && s.log[k].RestartCall? && FailureKept(s, k)
    ensures |Do(s, a).log| > k && Do(s, a).log[k] == s.log[k] && FailureKept(Do(s, a), k)
  {
    var r := Do(s, a);
    StepLog(s, a);
    var e := s.log[k];
    assert r.log[k] == e && r.log[e.lookup] == s.log[e.lookup];
    if s.threads[e.t].Ended? {
      var m :| k < m < |s.log| && RecordsFailure(s.log[m], e.unit, s.log[e.lookup].id);
      assert r.log[m] == s.log[m];
    } else if a.Run? && a.t == e.t {
      assert RecordsFailure(r.log[|s.log|], e.unit, s.log[e.lookup].id);
    }
  }

  /** Every failed Restart is followed by the record of the failure, which starts the cooldown
      of the tracker the attempt had looked up; at the latest when the attempt has ended. */
  lemma {:induction false} FailureIsRecorded(ss: seq<State>, acts: seq<Action>, n: nat, k: nat)
    requires IsRun(ss, acts) && n < |ss| && k < |ss[n].log| && ss[n].log[k].RestartCall? && !ss[n].log[k].ok
    ensures FailureKept(ss[n], k)
    decreases n
  {
    assert n > 0 && IsStep(ss, acts, n - 1);
    StepLog(ss[n - 1], acts[n - 1]);
    if k < |ss[n - 1].log| {
      assert ss[n - 1].log[k] == ss[n].log[k];
      FailureIsRecorded(ss, acts, n - 1, k);
      FailureStays(ss[n - 1], acts[n - 1], k);
    } else {
      var t := acts[n - 1].t;
      var l := SleepHasCause(ss, acts, n - 1, t);
    }
  }

  /** What the record of a failure says: when it was made, until when the cooldown then lasts,
      and whether the tracker was still the unit's. */
  lemma {:induction false} FailureRecordSays(ss: seq<State>, acts: seq<Action>, n: nat, m: nat) returns (l: nat)
    requires IsRun(ss, acts) && n < |ss| && m < |ss[n].log| && ss[n].log[m].FailedAt?
    ensures l < n && |ss[l].log| == m
    ensures var e := ss[n].log[m];
      && acts[l].Run? && acts[l].t < |ss[l].threads| && ss[l].threads[acts[l].t] == Failing(e.unit, e.id)
      && e.id < |ss[l].f.heap| && e.at == ss[l].now && e.until == ss[l].now + ss[l].f.heap[e.id].policy.cooldown
      && (e.live <==> e.unit in ss[l].f.trackers && ss[l].f.trackers[e.unit] == e.id)
    decreases n
  {
    assert n > 0 && IsStep(ss, acts, n - 1);
    StepLog(ss[n - 1], acts[n - 1]);
    if m < |ss[n - 1].log| {
      assert ss[n - 1].log[m] == ss[n].log[m];
      l := FailureRecordSays(ss, acts, n - 1, m);
    } else {
      l := n - 1;
      FailureRecordStep(ss[l], acts[l]);
    }
  }

  lemma FailureRecordStep(s: State, a: Action)
    requires Sized(s) && Enabled(s, a) && |Do(s, a).log| > |s.log| && Do(s, a).log[|s.log|].FailedAt?
    ensures var e := Do(s, a).log[|s.log|];
      && a.Run? && s.threads[a.t] == Failing(e.unit, e.id)
      && e.at == s.now && e.until == s.now + s.f.heap[e.id].policy.cooldown
      && (e.live <==> e.unit in s.f.trackers && s.f.trackers[e.unit] == e.id)
  {
  }

  /** The failure just recorded at `p` still keeps the unit from being restarted. */
  predicate Cooling(s: State, u: string, id: nat, until: int) {
    && s.f.Valid() && id < |s.f.heap|
    && (u in s.f.trackers ==> s.f.trackers[u] == id && s.f.heap[id].cooldownUntil >= until)
  }

  /** The event reports the unit recovered. */
  predicate ReportsWell(a: Action, u: string) {
    a.Handle? && a.ev.unit == u && if a.ev.StateChanged? then a.ev.activeState == "active" else a.ev.healthy
  }

  lemma CoolingStays(s: State, a: Action, u: string, id: nat, until: int)
    requires Inv(s) && Enabled(s, a) && Cooling(s, u, id, until) && id < |s.owner| && s.owner[id] == u
    requires until <= s.now + s.f.heap[id].policy.cooldown
    requires !(a.Register? && a.unit == u) && !ReportsWell(a, u)
    ensures var r := Do(s, a);
      && Cooling(r, u, id, until) && id < |r.owner| && r.owner[id] == u && until <= r.now + r.f.heap[id].policy.cooldown
  {
    StepSized(s, a);
    if a.Handle? && Resets(s.f, a.ev) {
      assert s.owner[s.f.trackers[a.ev.unit]] == a.ev.unit;
    }
  }

  lemma {:induction false} CoolingAlong(ss: seq<State>, acts: seq<Action>, p: nat, t: nat, n: nat, u: string, id: nat)
    requires IsRun(ss, acts) && p < n < |ss| && acts[p].Run? && acts[p].t == t && t < |ss[p].threads|
    requires ss[p].threads[t] == Failing(u, id) && u in ss[p].f.trackers && ss[p].f.trackers[u] == id < |ss[p].f.heap|
    requires forall k | p < k < n :: !(acts[k].Register? && acts[k].unit == u) && !ReportsWell(acts[k], u)
    ensures var until := ss[p].now + ss[p].f.heap[id].policy.cooldown; var s := ss[n];
      Cooling(s, u, id, until) && id < |s.owner| && s.owner[id] == u && until <= s.now + s.f.heap[id].policy.cooldown
    decreases n
  {
    assert IsStep(ss, acts, n - 1);
    RunInv(ss, acts, n - 1);
    if n > p + 1 {
      CoolingAlong(ss, acts, p, t, n - 1, u, id);
      CoolingStays(ss[n - 1], acts[n - 1], u, id, ss[p].now + ss[p].f.heap[id].policy.cooldown);
    }
  }

  /** After an attempt has recorded its failure at `p` on the tracker the unit still has, no
      event of the unit is approved at a `q` before the cooldown is over, unless in between
      the unit was registered anew or an event reported it active or healthy. */
  lemma NoRestartInCooldown(ss: seq<State>, acts: seq<Action>, p: nat, t: nat, q: nat, u: string, id: nat)
    requires IsRun(ss, acts) && p < q < |acts| && acts[p].Run? && acts[p].t == t && t < |ss[p].threads|
    requires ss[p].threads[t] == Failing(u, id) && u in ss[p].f.trackers && ss[p].f.trackers[u] == id
    requires forall k | p < k < q :: !(acts[k].Register? && acts[k].unit == u) && !ReportsWell(acts[k], u)
    requires acts[q].Handle? && acts[q].ev.unit == u && |ss[q + 1].threads| > |ss[q].threads|
    ensures id < |ss[p].f.heap| && ss[q].now >= ss[p].now + ss[p].f.heap[id].policy.cooldown
  {
    RunInv(ss, acts, p);
    CoolingAlong(ss, acts, p, t, q, u, id);
    EventOutcome(ss, acts, q, acts[q].ev);
  }

  // ---- cascades

  lemma CascadeBegins(s: State, a: Action)
    requires Sized(s) && Enabled(s, a) && |Do(s, a).log| > |s.log| && Do(s, a).log[|s.log|].CascadeFor?
    ensures var e := Do(s, a).log[|s.log|];
      && a.Run? && a.t == e.t && s.threads[e.t] == Succeeded(e.unit)
      && e.deps == (if e.unit in s.f.dependents then s.f.dependents[e.unit] else [])
  {
  }

  /** The list an attempt cascades to is what the index has for the unit it restarted when it
      looks. */
  lemma {:induction false} CascadeListIsIndexed(ss: seq<State>, acts: seq<Action>, n: nat, m: nat) returns (l: nat)
    requires IsRun(ss, acts) && n < |ss| && m < |ss[n].log| && ss[n].log[m].CascadeFor?
    ensures l < n && |ss[l].log| == m
    ensures var e := ss[n].log[m];
      e.deps == if e.unit in ss[l].f.dependents then ss[l].f.dependents[e.unit] else []
    decreases n
  {
    assert n > 0 && IsStep(ss, acts, n - 1);
    StepLog(ss[n - 1], acts[n - 1]);
    if m < |ss[n - 1].log| {
      assert ss[n - 1].log[m] == ss[n].log[m];
      l := CascadeListIsIndexed(ss, acts, n - 1, m);
    } else {
      l := n - 1;
      CascadeBegins(ss[l], acts[l]);
    }
  }

  /** The index set last among the first `n` steps. */
  function LastSet(acts: seq<Action>, n: nat): map<string, seq<string>>
    requires n <= |acts|
  {
    if n == 0 then map[]
    else if acts[n - 1].SetDependents? then acts[n - 1].dependents
    else LastSet(acts, n - 1)
  }

  /** The index is the one the daemon set last. */
  lemma {:induction false} IndexIsLastSet(ss: seq<State>, acts: seq<Action>, n: nat)
    requires IsRun(ss, acts) && n < |ss|
    ensures ss[n].f.dependents == LastSet(acts, n)
  {
    if n > 0 {
      IndexIsLastSet(ss, acts, n - 1);
      assert IsStep(ss, acts, n - 1);
      IndexStep(ss[n - 1], acts[n - 1]);
    }
  }

  lemma IndexStep(s: State, a: Action)
    requires Sized(s) && Enabled(s, a)
    ensures Do(s, a).f.dependents == if a.SetDependents? then a.dependents else s.f.dependents
  {
  }
}
