/**
 The restarter under concurrency: events, registrations and any number of overlapping
 restart attempts interleave; each lock-protected section is one step. The log is the
 history of the run.
 */
module RestarterProtocol {

  import opened Units
  import opened Restarter
  import SM = StateManager

  /** A restart attempt between two of its sections. `lookup` is the position in the log of
      the lookup at which the attempt obtained tracker `id`. */
  datatype Pc =
    | Spawned(unit: string)
    | Sleeping(unit: string, id: nat, until: int, lookup: nat)
    | Failing(unit: string, id: nat)                    // Restart failed, cooldown not yet recorded
    | Succeeded(unit: string)                           // dependents not yet looked up
    | Cascading(unit: string, deps: seq<string>, next: nat)
    | Ended(deps: seq<string>)                          // what a finished attempt cascaded to

  datatype Entry =
    | Registered(unit: string, id: nat)
    | Unregistered(unit: string)
    | ResetBy(unit: string, id: nat, byHealth: bool)
    | Approved(unit: string, at: int, byHealth: bool)
    | LookedUp(unit: string, id: nat, wait: int)
    | RestartCall(t: nat, unit: string, lookup: nat, ok: bool)
    | FailedAt(unit: string, id: nat, at: int, until: int, live: bool)
    | CascadeFor(t: nat, unit: string, deps: seq<string>)
    | CascadeCall(t: nat, dep: string)

  /** `owner[id]` is the unit tracker `id` was made for. */
  datatype State = State(f: Fields, owner: seq<string>, threads: seq<Pc>, now: int, log: seq<Entry>)

  const INIT := State(Fields(map[], [], map[]), [], [], 0, [])

  datatype Action =
    | Register(unit: string, policy: RestartPolicy)
    | Unregister(unit: string)
    | SetDependents(dependents: map<string, seq<string>>)
    | Handle(ev: SM.Event)
    | Run(t: nat, ok: bool)
    | Advance(d: nat)

  predicate Enabled(s: State, a: Action) {
    match a
    case Run(t, _) =>
      t < |s.threads| && !s.threads[t].Ended? && (s.threads[t].Sleeping? ==> s.now >= s.threads[t].until)
    case _ => true
  }

  /** Ids in the map and in the threads point into the heap. */
  predicate Sized(s: State) {
    && s.f.Valid() && |s.owner| == |s.f.heap|
    && forall t | 0 <= t < |s.threads| && (s.threads[t].Sleeping? || s.threads[t].Failing?) ::
         s.threads[t].id < |s.f.heap|
  }

  function Log(s: State, e: Entry): State {
    s.(log := s.log + [e])
  }

  function At(s: State, t: nat, pc: Pc): State
    requires t < |s.threads|
  {
    s.(threads := s.threads[t := pc])
  }

  function RunSpec(s: State, t: nat, ok: bool): State
    requires Sized(s) && Enabled(s, Run(t, ok))
  {
    match s.threads[t]
    case Spawned(u) =>
      if u !in s.f.trackers then At(s, t, Ended([]))
      else
        var id := s.f.trackers[u];
        var wait := Wait(s.f.heap[id].policy, s.f.heap[id].attempts);
        Log(At(s.(f := BeginSpec(s.f, id)), t, Sleeping(u, id, s.now + wait, |s.log|)), LookedUp(u, id, wait))
    case Sleeping(u, id, _, lookup) =>
      Log(At(s, t, if ok then Succeeded(u) else Failing(u, id)), RestartCall(t, u, lookup, ok))
    case Failing(u, id) =>
      Log(At(s.(f := FailSpec(s.f, id, s.now)), t, Ended([])),
          FailedAt(u, id, s.now, s.now + s.f.heap[id].policy.cooldown, u in s.f.trackers && s.f.trackers[u] == id))
    case Succeeded(u) =>
      Log(At(s, t, Cascading(u, Get(s.f.dependents, u), 0)), CascadeFor(t, u, Get(s.f.dependents, u)))
    case Cascading(u, deps, next) =>
      if next < |deps| then Log(At(s, t, Cascading(u, deps, next + 1)), CascadeCall(t, deps[next]))
      else At(s, t, Ended(deps))
  }

  function HandleStep(s: State, ev: SM.Event): State
    requires Sized(s)
  {
    if Resets(s.f, ev) then
      Log(s.(f := HandleSpec(s.f, ev)), ResetBy(ev.unit, s.f.trackers[ev.unit], ev.HealthChanged?))
    else if Approves(s.f, ev, s.now) then
      Log(s.(threads := s.threads + [Spawned(ev.unit)]), Approved(ev.unit, s.now, ev.HealthChanged?))
    else s
  }

  function Do(s: State, a: Action): State
    requires Sized(s) && Enabled(s, a)
  {
    match a
    case Register(u, policy) =>
      Log(s.(f := RegisterSpec(s.f, u, policy), owner := s.owner + [u]), Registered(u, |s.f.heap|))
    case Unregister(u) => Log(s.(f := UnregisterSpec(s.f, u)), Unregistered(u))
    case SetDependents(d) => s.(f := s.f.(dependents := d))
    case Handle(ev) => HandleStep(s, ev)
    case Run(t, ok) => RunSpec(s, t, ok)
    case Advance(d) => s.(now := s.now + d)
  }

  // ---- readings of the log

  /** Nothing in the log from `i` up to `j` resets or re-registers `u`. */
  ghost predicate Untouched(log: seq<Entry>, i: nat, j: nat, u: string)
    requires j <= |log|
  {
    forall k | i <= k < j :: !((log[k].ResetBy? || log[k].Registered?) && log[k].unit == u)
  }

  ghost predicate NotRegistered(log: seq<Entry>, i: nat, j: nat, u: string)
    requires j <= |log|
  {
    forall k | i <= k < j :: !(log[k].Registered? && log[k].unit == u)
  }

  /** After a failure recorded on the live tracker, nothing is approved before the cooldown
      is over unless the unit recovered or was registered again in between. */
  ghost predicate CooldownRespected(log: seq<Entry>) {
    forall i, j | 0 <= i < j < |log| && log[i].FailedAt? && log[i].live && log[j].Approved? &&
                  log[j].unit == log[i].unit && Untouched(log, i + 1, j, log[i].unit) ::
      log[j].at >= log[i].until
  }

  /** No lookup succeeds between an unregistration and the next registration. */
  ghost predicate LookupsTracked(log: seq<Entry>) {
    forall i, k | 0 <= i < k < |log| && log[i].Unregistered? && log[k].LookedUp? && log[k].unit == log[i].unit ::
      !NotRegistered(log, i + 1, k, log[i].unit)
  }

  /** Every Restart of a unit itself carries the lookup it came from. */
  ghost predicate RestartsLookedUp(log: seq<Entry>) {
    forall j | 0 <= j < |log| && log[j].RestartCall? ::
      log[j].lookup < j && log[log[j].lookup].LookedUp? && log[log[j].lookup].unit == log[j].unit
  }

  /** Lookups of tracker `id` since its last reset. */
  function AttemptsSince(log: seq<Entry>, id: nat): nat {
    if |log| == 0 then 0
    else
      var e := log[|log| - 1];
      if (e.ResetBy? || e.Registered?) && e.id == id then 0
      else AttemptsSince(log[..|log| - 1], id) + if e.LookedUp? && e.id == id then 1 else 0
  }

  /** The sleep of those lookups in total. */
  function WaitedSince(log: seq<Entry>, id: nat): int {
    if |log| == 0 then 0
    else
      var e := log[|log| - 1];
      if (e.ResetBy? || e.Registered?) && e.id == id then 0
      else WaitedSince(log[..|log| - 1], id) + if e.LookedUp? && e.id == id then e.wait else 0
  }

  /** What attempt thread `t` cascaded to so far. */
  function Cascaded(log: seq<Entry>, t: nat): seq<string> {
    if |log| == 0 then []
    else
      var e := log[|log| - 1];
      Cascaded(log[..|log| - 1], t) + if e.CascadeCall? && e.t == t then [e.dep] else []
  }

  // ---- the invariant

  predicate Live(s: State, u: string, id: nat) {
    u in s.f.trackers && s.f.trackers[u] == id
  }

  ghost predicate OwnersOk(s: State) {
    && (forall u <- s.f.trackers :: s.f.trackers[u] < |s.owner| && s.owner[s.f.trackers[u]] == u)
    && (forall t | 0 <= t < |s.threads| && (s.threads[t].Sleeping? || s.threads[t].Failing?) ::
         s.threads[t].id < |s.owner| && s.owner[s.threads[t].id] == s.threads[t].unit)
  }

  /** The last live failure of an untouched unit still holds its tracker in cooldown. */
  ghost predicate CooldownLive(s: State) {
    forall i | 0 <= i < |s.log| && s.log[i].FailedAt? && s.log[i].live && Untouched(s.log, i + 1, |s.log|, s.log[i].unit) ::
      s.log[i].unit in s.f.trackers ==>
        s.f.trackers[s.log[i].unit] == s.log[i].id < |s.f.heap| && s.f.heap[s.log[i].id].cooldownUntil >= s.log[i].until
  }

  ghost predicate FailuresOk(s: State) {
    && (forall i | 0 <= i < |s.log| && s.log[i].FailedAt? ::
          s.log[i].id < |s.f.heap| && s.log[i].at <= s.now &&
          s.log[i].until == s.log[i].at + s.f.heap[s.log[i].id].policy.cooldown)
    && (forall id | 0 <= id < |s.f.heap| && s.f.heap[id].cooldownUntil != 0 ::
          exists i :: 0 <= i < |s.log| && s.log[i].FailedAt? && s.log[i].id == id && s.log[i].until == s.f.heap[id].cooldownUntil)
  }

  ghost predicate TrackingOk(s: State) {
    && (forall i | 0 <= i < |s.log| && s.log[i].Unregistered? && NotRegistered(s.log, i + 1, |s.log|, s.log[i].unit) ::
          s.log[i].unit !in s.f.trackers)
    && (forall t | 0 <= t < |s.threads| && s.threads[t].Sleeping? ::
          s.threads[t].lookup < |s.log| && s.log[s.threads[t].lookup].LookedUp? &&
          s.log[s.threads[t].lookup].unit == s.threads[t].unit)
  }

  ghost predicate WaitsOk(s: State) {
    && (forall id | 0 <= id < |s.f.heap| :: s.f.heap[id].attempts == AttemptsSince(s.log, id))
    && (forall k | 0 <= k < |s.log| && s.log[k].LookedUp? ::
          s.log[k].id < |s.f.heap| &&
          s.log[k].wait == Wait(s.f.heap[s.log[k].id].policy, AttemptsSince(s.log[..k], s.log[k].id)))
  }

  /** The part of its list an attempt has cascaded to. */
  function CascadeDone(pc: Pc): seq<string> {
    match pc
    case Cascading(_, deps, next) => if next <= |deps| then deps[..next] else []
    case Ended(deps) => deps
    case _ => []
  }

  function DoneAt(threads: seq<Pc>, t: nat): seq<string> {
    if t < |threads| then CascadeDone(threads[t]) else []
  }

  ghost predicate CascadesOk(s: State) {
    && (forall t: nat :: Cascaded(s.log, t) == DoneAt(s.threads, t))
    && (forall t | 0 <= t < |s.threads| && s.threads[t].Cascading? :: s.threads[t].next <= |s.threads[t].deps|)
  }

  /** What a successful attempt looked up is what it cascades to. */
  ghost predicate CascadeListsOk(s: State) {
    forall k | 0 <= k < |s.log| && s.log[k].CascadeFor? ::
      s.log[k].t < |s.threads| &&
      match s.threads[s.log[k].t]
      case Cascading(_, deps, _) => deps == s.log[k].deps
      case Ended(deps) => deps == s.log[k].deps
      case _ => false
  }

  /** An attempt whose Restart failed cascades to nothing. */
  ghost predicate FailedCallsOk(s: State) {
    forall k | 0 <= k < |s.log| && s.log[k].RestartCall? && !s.log[k].ok ::
      s.log[k].t < |s.threads| && (s.threads[s.log[k].t].Failing? || s.threads[s.log[k].t] == Ended([]))
  }

  /** After the successful Restart at `k` its attempt looks up that unit's dependents. */
  ghost predicate OkCall(s: State, k: nat)
    requires k < |s.log| && s.log[k].RestartCall?
  {
    s.log[k].t < |s.threads| &&
    match s.threads[s.log[k].t]
    case Succeeded(u) => u == s.log[k].unit
    case Cascading(_, deps, _) => LookedUpAfter(s.log, k, deps)
    case Ended(deps) => LookedUpAfter(s.log, k, deps)
    case _ => false
  }

  ghost predicate OkCallsOk(s: State) {
    forall k | 0 <= k < |s.log| && s.log[k].RestartCall? && s.log[k].ok :: OkCall(s, k)
  }

  ghost predicate LookedUpAfter(log: seq<Entry>, k: nat, deps: seq<string>)
    requires k < |log| && log[k].RestartCall?
  {
    exists m :: k < m < |log| && log[m] == CascadeFor(log[k].t, log[k].unit, deps)
  }

  ghost predicate Inv(s: State) {
    && Sized(s) && OwnersOk(s) && CooldownLive(s) && CooldownRespected(s.log) && FailuresOk(s)
    && TrackingOk(s) && LookupsTracked(s.log) && RestartsLookedUp(s.log) && WaitsOk(s) && CascadesOk(s) && CascadeListsOk(s)
    && FailedCallsOk(s) && OkCallsOk(s)
  }

  // ---- every step keeps it

  /** A step appends at most one entry. */
  lemma StepLog(s: State, a: Action)
    requires Sized(s) && Enabled(s, a)
    ensures var l := Do(s, a).log; l == s.log || (|l| == |s.log| + 1 && l[..|s.log|] == s.log)
  {
  }

  lemma StepSized(s: State, a: Action)
    requires Sized(s) && Enabled(s, a)
    ensures Sized(Do(s, a)) && |s.f.heap| <= |Do(s, a).f.heap|
    ensures forall id | 0 <= id < |s.f.heap| :: Do(s, a).f.heap[id].policy == s.f.heap[id].policy
  {
  }

  lemma StepOwners(s: State, a: Action)
    requires Sized(s) && OwnersOk(s) && Enabled(s, a)
    ensures OwnersOk(Do(s, a))
  {
  }

  lemma StepFailures(s: State, a: Action)
    requires Sized(s) && FailuresOk(s) && Enabled(s, a)
    ensures FailuresOk(Do(s, a))
  {
    var r := Do(s, a);
    StepLog(s, a);
    StepSized(s, a);
    forall id | 0 <= id < |r.f.heap| && r.f.heap[id].cooldownUntil != 0
      ensures exists i :: 0 <= i < |r.log| && r.log[i].FailedAt? && r.log[i].id == id && r.log[i].until == r.f.heap[id].cooldownUntil
    {
      if id < |s.f.heap| && r.f.heap[id].cooldownUntil == s.f.heap[id].cooldownUntil {
        var i :| 0 <= i < |s.log| && s.log[i].FailedAt? && s.log[i].id == id && s.log[i].until == s.f.heap[id].cooldownUntil;
        assert r.log[i] == s.log[i];
      } else {
        assert r.log[|s.log|].FailedAt?;
      }
    }
  }

  lemma StepCooldown(s: State, a: Action)
    requires Sized(s) && OwnersOk(s) && FailuresOk(s) && CooldownLive(s) && Enabled(s, a)
    ensures CooldownLive(Do(s, a))
  {
    var r := Do(s, a);
    StepLog(s, a);
    forall i | 0 <= i < |r.log| && r.log[i].FailedAt? && r.log[i].live && Untouched(r.log, i + 1, |r.log|, r.log[i].unit)
             && r.log[i].unit in r.f.trackers
      ensures r.f.trackers[r.log[i].unit] == r.log[i].id < |r.f.heap|
              && r.f.heap[r.log[i].id].cooldownUntil >= r.log[i].until
    {
      if i < |s.log| {
        assert r.log[i] == s.log[i];
        assert forall k | i + 1 <= k < |s.log| :: r.log[k] == s.log[k];
        assert Untouched(s.log, i + 1, |s.log|, s.log[i].unit);
        StillCooling(s, a, i);
      }
    }
  }

  lemma StillCooling(s: State, a: Action, i: nat)
    requires Sized(s) && OwnersOk(s) && FailuresOk(s) && CooldownLive(s) && Enabled(s, a)
    requires i < |s.log| && s.log[i].FailedAt? && s.log[i].live && Untouched(s.log, i + 1, |s.log|, s.log[i].unit)
    requires var r := Do(s, a); |r.log| >= |s.log| && Untouched(r.log, |s.log|, |r.log|, s.log[i].unit)
    requires s.log[i].unit in Do(s, a).f.trackers
    ensures var r := Do(s, a);
            r.f.trackers[s.log[i].unit] == s.log[i].id < |r.f.heap| && r.f.heap[s.log[i].id].cooldownUntil >= s.log[i].until
  {
    var r := Do(s, a);
    match a
    case Register(u, _) => assert r.log[|s.log|] == Registered(u, |s.f.heap|);
    case Handle(ev) => if Resets(s.f, ev) { assert r.log[|s.log|] == ResetBy(ev.unit, s.f.trackers[ev.unit], ev.HealthChanged?); }
    case _ =>
  }

  lemma StepRespected(s: State, a: Action)
    requires Sized(s) && CooldownLive(s) && CooldownRespected(s.log) && Enabled(s, a)
    ensures CooldownRespected(Do(s, a).log)
  {
    var r := Do(s, a);
    StepLog(s, a);
    forall i, j | 0 <= i < j < |r.log| && r.log[i].FailedAt? && r.log[i].live && r.log[j].Approved? &&
                  r.log[j].unit == r.log[i].unit && Untouched(r.log, i + 1, j, r.log[i].unit)
      ensures r.log[j].at >= r.log[i].until
    {
      assert r.log[i] == s.log[i];
      forall k | i + 1 <= k < j ensures r.log[k] == s.log[k] {}
      assert Untouched(s.log, i + 1, j, s.log[i].unit);
      if j < |s.log| {
        assert r.log[j] == s.log[j];
      } else {
        assert a.Handle?;
      }
    }
  }

  lemma StepTracking(s: State, a: Action)
    requires Sized(s) && OwnersOk(s) && TrackingOk(s) && Enabled(s, a)
    ensures TrackingOk(Do(s, a))
  {
    var r := Do(s, a);
    StepLog(s, a);
    forall i | 0 <= i < |r.log| && r.log[i].Unregistered? && NotRegistered(r.log, i + 1, |r.log|, r.log[i].unit)
      ensures r.log[i].unit !in r.f.trackers
    {
      if i < |s.log| {
        assert r.log[i] == s.log[i];
        forall k | i + 1 <= k < |s.log| ensures r.log[k] == s.log[k] {}
        assert NotRegistered(s.log, i + 1, |s.log|, s.log[i].unit);
        if a.Register? { assert r.log[|s.log|] == Registered(a.unit, |s.f.heap|); }
      }
    }
    forall t | 0 <= t < |r.threads| && r.threads[t].Sleeping?
      ensures r.threads[t].lookup < |r.log| && r.log[r.threads[t].lookup].LookedUp?
              && r.log[r.threads[t].lookup].unit == r.threads[t].unit
    {
      if t < |s.threads| && r.threads[t] == s.threads[t] {
        assert r.log[s.threads[t].lookup] == s.log[s.threads[t].lookup];
      }
    }
  }

  lemma StepLookups(s: State, a: Action)
    requires Sized(s) && TrackingOk(s) && LookupsTracked(s.log) && Enabled(s, a)
    ensures LookupsTracked(Do(s, a).log)
  {
    var r := Do(s, a);
    StepLog(s, a);
    forall i, k | 0 <= i < k < |r.log| && r.log[i].Unregistered? && r.log[k].LookedUp? && r.log[k].unit == r.log[i].unit
      ensures !NotRegistered(r.log, i + 1, k, r.log[i].unit)
    {
      if NotRegistered(r.log, i + 1, k, r.log[i].unit) {
        assert r.log[i] == s.log[i];
        forall m | i + 1 <= m < k ensures r.log[m] == s.log[m] {}
        assert NotRegistered(s.log, i + 1, k, s.log[i].unit);
      }
    }
  }

  lemma StepRestarts(s: State, a: Action)
    requires Sized(s) && TrackingOk(s) && RestartsLookedUp(s.log) && Enabled(s, a)
    ensures RestartsLookedUp(Do(s, a).log)
  {
    var r := Do(s, a);
    StepLog(s, a);
    forall j | 0 <= j < |r.log| && r.log[j].RestartCall?
      ensures r.log[j].lookup < j && r.log[r.log[j].lookup].LookedUp? && r.log[r.log[j].lookup].unit == r.log[j].unit
    {
      if j < |s.log| {
        assert r.log[j] == s.log[j];
        assert r.log[s.log[j].lookup] == s.log[s.log[j].lookup];
      } else {
        var lk := s.threads[a.t].lookup;
        assert r.log[lk] == s.log[lk];
      }
    }
  }

  lemma AttemptsSnoc(log: seq<Entry>, e: Entry, id: nat)
    ensures AttemptsSince(log + [e], id) ==
              if (e.ResetBy? || e.Registered?) && e.id == id then 0
              else AttemptsSince(log, id) + if e.LookedUp? && e.id == id then 1 else 0
  {
    assert (log + [e])[..|log|] == log;
  }

  lemma StepAttempts(s: State, a: Action)
    requires Sized(s) && WaitsOk(s) && Enabled(s, a)
    ensures var r := Do(s, a); forall id | 0 <= id < |r.f.heap| :: r.f.heap[id].attempts == AttemptsSince(r.log, id)
  {
    var r := Do(s, a);
    StepLog(s, a);
    forall id | 0 <= id < |r.f.heap| ensures r.f.heap[id].attempts == AttemptsSince(r.log, id) {
      if |r.log| > |s.log| {
        assert r.log == s.log + [r.log[|s.log|]];
        AttemptsSnoc(s.log, r.log[|s.log|], id);
      }
    }
  }

  lemma StepWaits(s: State, a: Action)
    requires Sized(s) && WaitsOk(s) && Enabled(s, a)
    ensures WaitsOk(Do(s, a))
  {
    var r := Do(s, a);
    StepLog(s, a);
    StepSized(s, a);
    StepAttempts(s, a);
    forall k | 0 <= k < |r.log| && r.log[k].LookedUp?
      ensures r.log[k].id < |r.f.heap|
      ensures r.log[k].wait == Wait(r.f.heap[r.log[k].id].policy, AttemptsSince(r.log[..k], r.log[k].id))
    {
      if k < |s.log| {
        assert r.log[k] == s.log[k] && r.log[..k] == s.log[..k];
      } else {
        assert r.log[..k] == s.log;
      }
    }
  }

  lemma CascadedSnoc(log: seq<Entry>, e: Entry, t: nat)
    ensures Cascaded(log + [e], t) == Cascaded(log, t) + if e.CascadeCall? && e.t == t then [e.dep] else []
  {
    assert (log + [e])[..|log|] == log;
  }

  function NewCascade(s: State, r: State, t: nat): seq<string> {
    if |r.log| > |s.log| && r.log[|s.log|].CascadeCall? && r.log[|s.log|].t == t then [r.log[|s.log|].dep] else []
  }

  lemma StepCascades(s: State, a: Action)
    requires Sized(s) && CascadesOk(s) && Enabled(s, a)
    ensures CascadesOk(Do(s, a))
  {
    CascadeBounds(s, a);
    forall t: nat { ThreadCascades(s, a, t); }
  }

  lemma ThreadCascades(s: State, a: Action, t: nat)
    requires Sized(s) && CascadesOk(s) && Enabled(s, a)
    ensures Cascaded(Do(s, a).log, t) == DoneAt(Do(s, a).threads, t)
  {
    var r := Do(s, a);
    StepLog(s, a);
    if a.Run? && a.t == t { OwnCascade(s, t, a.ok); } else { OtherCascade(s, a, t); }
    LogCascades(s, r, t);
  }

  lemma LogCascades(s: State, r: State, t: nat)
    requires CascadesOk(s)
    requires r.log == s.log || (|r.log| == |s.log| + 1 && r.log[..|s.log|] == s.log)
    requires DoneAt(r.threads, t) == DoneAt(s.threads, t) + NewCascade(s, r, t)
    ensures Cascaded(r.log, t) == DoneAt(r.threads, t)
  {
    assert Cascaded(s.log, t) == DoneAt(s.threads, t);
    if r.log != s.log {
      assert r.log == s.log + [r.log[|s.log|]];
      CascadedSnoc(s.log, r.log[|s.log|], t);
    }
  }

  lemma CascadeBounds(s: State, a: Action)
    requires Sized(s) && CascadesOk(s) && Enabled(s, a)
    ensures var r := Do(s, a); forall t | 0 <= t < |r.threads| && r.threads[t].Cascading? :: r.threads[t].next <= |r.threads[t].deps|
  {
  }

  lemma OtherCascade(s: State, a: Action, t: nat)
    requires Sized(s) && Enabled(s, a) && !(a.Run? && a.t == t)
    ensures var r := Do(s, a); DoneAt(r.threads, t) == DoneAt(s.threads, t) && NewCascade(s, r, t) == []
  {
  }

  lemma OwnCascade(s: State, t: nat, ok: bool)
    requires Sized(s) && CascadesOk(s) && Enabled(s, Run(t, ok))
    ensures var r := RunSpec(s, t, ok);
      |r.threads| == |s.threads| && CascadeDone(r.threads[t]) == CascadeDone(s.threads[t]) + NewCascade(s, r, t)
  {
  }

  lemma StepCascadeLists(s: State, a: Action)
    requires Sized(s) && CascadeListsOk(s) && Enabled(s, a)
    ensures CascadeListsOk(Do(s, a))
  {
    var r := Do(s, a);
    StepLog(s, a);
    forall k | 0 <= k < |r.log| && r.log[k].CascadeFor?
      ensures r.log[k].t < |r.threads| &&
        match r.threads[r.log[k].t]
        case Cascading(_, deps, _) => deps == r.log[k].deps
        case Ended(deps) => deps == r.log[k].deps
        case _ => false
    {
      if k < |s.log| { assert r.log[k] == s.log[k]; }
    }
  }

  lemma StepFailedCalls(s: State, a: Action)
    requires Sized(s) && FailedCallsOk(s) && Enabled(s, a)
    ensures FailedCallsOk(Do(s, a))
  {
    var r := Do(s, a);
    StepLog(s, a);
    forall k | 0 <= k < |r.log| && r.log[k].RestartCall? && !r.log[k].ok
      ensures r.log[k].t < |r.threads| && (r.threads[r.log[k].t].Failing? || r.threads[r.log[k].t] == Ended([]))
    {
      if k < |s.log| { assert r.log[k] == s.log[k]; }
    }
  }

  lemma StepOkCalls(s: State, a: Action)
    requires Sized(s) && OkCallsOk(s) && Enabled(s, a)
    ensures OkCallsOk(Do(s, a))
  {
    var r := Do(s, a);
    StepLog(s, a);
    forall k | 0 <= k < |r.log| && r.log[k].RestartCall? && r.log[k].ok ensures OkCall(r, k) {
      if k < |s.log| {
        assert r.log[k] == s.log[k];
        OneOkCall(s, a, k);
      }
    }
  }

  lemma OneOkCall(s: State, a: Action, k: nat)
    requires Sized(s) && OkCallsOk(s) && Enabled(s, a) && k < |s.log| && s.log[k].RestartCall? && s.log[k].ok
    ensures |Do(s, a).log| >= |s.log| && Do(s, a).log[k] == s.log[k] && OkCall(Do(s, a), k)
  {
    var r := Do(s, a);
    StepLog(s, a);
    assert r.log[k] == s.log[k];
    var t := s.log[k].t;
    if a.Run? && a.t == t && s.threads[t].Succeeded? {
      assert r.log[|s.log|] == CascadeFor(t, s.log[k].unit, r.threads[t].deps);
    } else if !s.threads[t].Succeeded? {
      var m :| k < m < |s.log| && s.log[m] == CascadeFor(t, s.log[k].unit, s.threads[t].deps);
      assert r.log[m] == s.log[m] && r.threads[t].deps == s.threads[t].deps;
    }
  }

  lemma StepKeepsInv(s: State, a: Action)
    requires Inv(s) && Enabled(s, a)
    ensures Inv(Do(s, a))
  {
    StepSized(s, a);
    StepOwners(s, a);
    StepFailures(s, a);
    StepCooldown(s, a);
    StepRespected(s, a);
    StepTracking(s, a);
    StepLookups(s, a);
    StepRestarts(s, a);
    StepWaits(s, a);
    StepCascades(s, a);
    StepCascadeLists(s, a);
    StepFailedCalls(s, a);
    StepOkCalls(s, a);
  }

  // ---- runs

  ghost predicate IsStep(ss: seq<State>, acts: seq<Action>, i: nat)
    requires |ss| == |acts| + 1 && i < |acts|
  {
    Sized(ss[i]) && Enabled(ss[i], acts[i]) && ss[i + 1] == Do(ss[i], acts[i])
  }

  ghost predicate IsRun(ss: seq<State>, acts: seq<Action>) {
    && |ss| == |acts| + 1
    && ss[0] == INIT
    && forall i | 0 <= i < |acts| :: IsStep(ss, acts, i)
  }

  lemma {:induction false} RunInv(ss: seq<State>, acts: seq<Action>, i: nat)
    requires IsRun(ss, acts) && i < |ss|
    ensures Inv(ss[i])
  {
    if i == 0 {
      InitInv();
    } else {
      RunInv(ss, acts, i - 1);
      assert IsStep(ss, acts, i - 1);
      StepKeepsInv(ss[i - 1], acts[i - 1]);
    }
  }

  lemma InitInv()
    ensures Inv(INIT)
  {
    assert CascadesOk(INIT);
  }

  // ---- what every run guarantees

  /** After a failed restart at time t recorded on the unit's live tracker, no event for the
      unit is approved before t plus the tracker's cooldown, unless in between the unit
      recovered or was registered again; overlapping attempts do not shorten it. */
  lemma CooldownHistory(ss: seq<State>, acts: seq<Action>, n: nat, i: nat, j: nat)
    requires IsRun(ss, acts) && n < |ss|
    requires i < j < |ss[n].log| && ss[n].log[i].FailedAt? && ss[n].log[i].live
    requires ss[n].log[j].Approved? && ss[n].log[j].unit == ss[n].log[i].unit
    requires Untouched(ss[n].log, i + 1, j, ss[n].log[i].unit)
    ensures ss[n].log[i].id < |ss[n].f.heap|
    ensures ss[n].log[j].at >= ss[n].log[i].at + ss[n].f.heap[ss[n].log[i].id].policy.cooldown
  {
    RunInv(ss, acts, n);
  }

  /** A failure recorded on a replaced or removed tracker changes no tracker in use. */
  lemma StaleFailureIsHarmless(ss: seq<State>, acts: seq<Action>, n: nat, t: nat, ok: bool)
    requires IsRun(ss, acts) && n < |ss| && t < |ss[n].threads| && ss[n].threads[t].Failing?
    requires !Live(ss[n], ss[n].threads[t].unit, ss[n].threads[t].id)
    ensures Sized(ss[n]) && Enabled(ss[n], Run(t, ok))
    ensures var r := Do(ss[n], Run(t, ok));
      && r.f.trackers == ss[n].f.trackers
      && forall u <- r.f.trackers :: r.f.heap[r.f.trackers[u]] == ss[n].f.heap[r.f.trackers[u]]
  {
    RunInv(ss, acts, n);
    StepSized(ss[n], Run(t, ok));
  }

  /** A tracker in cooldown owes it to a failure of an attempt that held that very tracker. */
  lemma CooldownHasCause(ss: seq<State>, acts: seq<Action>, n: nat, id: nat)
    requires IsRun(ss, acts) && n < |ss| && id < |ss[n].f.heap| && ss[n].f.heap[id].cooldownUntil != 0
    ensures exists i :: 0 <= i < |ss[n].log| && ss[n].log[i].FailedAt? && ss[n].log[i].id == id
                        && ss[n].log[i].at + ss[n].f.heap[id].policy.cooldown == ss[n].f.heap[id].cooldownUntil
  {
    RunInv(ss, acts, n);
  }

  /** A Restart of the unit itself issued after an unregistration, with no registration in
      between, comes from an attempt whose tracker lookup preceded that unregistration. */
  lemma RestartAfterUnregister(ss: seq<State>, acts: seq<Action>, n: nat, i: nat, j: nat)
    requires IsRun(ss, acts) && n < |ss|
    requires i < j < |ss[n].log| && ss[n].log[i].Unregistered?
    requires ss[n].log[j].RestartCall? && ss[n].log[j].unit == ss[n].log[i].unit
    requires NotRegistered(ss[n].log, i + 1, j, ss[n].log[i].unit)
    ensures ss[n].log[j].lookup < i
    ensures ss[n].log[ss[n].log[j].lookup].LookedUp? && ss[n].log[ss[n].log[j].lookup].unit == ss[n].log[i].unit
  {
    RunInv(ss, acts, n);
  }

  /** The attempt that makes the k-th lookup of a tracker since its last reset sleeps the
      (k-1)-fold doubled backoff, up to six doublings, whatever attempts overlap with it. */
  lemma WaitHistory(ss: seq<State>, acts: seq<Action>, n: nat, k: nat)
    requires IsRun(ss, acts) && n < |ss| && k < |ss[n].log| && ss[n].log[k].LookedUp?
    ensures ss[n].log[k].id < |ss[n].f.heap|
    ensures var e := ss[n].log[k]; var p := ss[n].f.heap[e.id].policy;
      && e.wait == Wait(p, AttemptsSince(ss[n].log[..k], e.id))
      && (0 <= p.backoff <= INT64_MAX / 64 ==> e.wait == p.backoff * Pow2(Shift(AttemptsSince(ss[n].log[..k], e.id))))
  {
    RunInv(ss, acts, n);
    var e := ss[n].log[k];
    ExactWait(ss[n].f.heap[e.id].policy, AttemptsSince(ss[n].log[..k], e.id));
  }

  lemma ExactWait(p: RestartPolicy, attempts: nat)
    ensures 0 <= p.backoff <= INT64_MAX / 64 ==> Wait(p, attempts) == p.backoff * Pow2(Shift(attempts))
  {
    if 0 <= p.backoff <= INT64_MAX / 64 {
      BackoffExact(p, attempts);
      ShiftFactor(attempts);
    }
  }

  lemma {:induction false} WaitedIsTotal(s: State, id: nat, n: nat)
    requires WaitsOk(s) && id < |s.f.heap| && n <= |s.log|
    ensures WaitedSince(s.log[..n], id) == TotalWait(s.f.heap[id].policy, AttemptsSince(s.log[..n], id))
    decreases n
  {
    if n > 0 {
      WaitedIsTotal(s, id, n - 1);
      assert s.log[..n][..n - 1] == s.log[..n - 1];
    }
  }

  /** The attempts made on a tracker since its last reset have slept, in total, what the
      closed form says for their number, in any interleaving. */
  lemma TotalWaitHistory(ss: seq<State>, acts: seq<Action>, n: nat, id: nat)
    requires IsRun(ss, acts) && n < |ss| && id < |ss[n].f.heap|
    requires 0 <= ss[n].f.heap[id].policy.backoff <= INT64_MAX / 64
    ensures WaitedSince(ss[n].log, id) ==
              ss[n].f.heap[id].policy.backoff * TotalFactor(ss[n].f.heap[id].attempts)
  {
    RunInv(ss, acts, n);
    assert ss[n].log[..|ss[n].log|] == ss[n].log;
    WaitedIsTotal(ss[n], id, |ss[n].log|);
    TotalWaitClosedForm(ss[n].f.heap[id].policy, ss[n].f.heap[id].attempts);
  }

  /** A successful attempt looks up the dependents of the unit it has restarted and restarts
      exactly those, in order: a prefix of them so far, all of them when it has ended. An attempt whose own Restart failed, or
      that is not there yet, has restarted no dependent. */
  lemma CascadeHistory(ss: seq<State>, acts: seq<Action>, n: nat, t: nat)
    requires IsRun(ss, acts) && n < |ss| && t < |ss[n].threads|
    ensures forall k | 0 <= k < |ss[n].log| && ss[n].log[k].CascadeFor? && ss[n].log[k].t == t ::
              Cascaded(ss[n].log, t) <= ss[n].log[k].deps
              && (ss[n].threads[t].Ended? ==> Cascaded(ss[n].log, t) == ss[n].log[k].deps)
    ensures !ss[n].threads[t].Cascading? && !ss[n].threads[t].Ended? ==> Cascaded(ss[n].log, t) == []
    ensures forall k | 0 <= k < |ss[n].log| && ss[n].log[k].RestartCall? && ss[n].log[k].t == t && !ss[n].log[k].ok ::
              Cascaded(ss[n].log, t) == []
    ensures forall k | 0 <= k < |ss[n].log| && ss[n].log[k].RestartCall? && ss[n].log[k].t == t && ss[n].log[k].ok ::
              (ss[n].threads[t].Succeeded? || ss[n].threads[t].Cascading? || ss[n].threads[t].Ended?)
              && (!ss[n].threads[t].Succeeded? ==> LookedUpAfter(ss[n].log, k, ss[n].threads[t].deps))
  {
    RunInv(ss, acts, n);
    assert Cascaded(ss[n].log, t) == DoneAt(ss[n].threads, t);
  }
}
