/**
 The health pipeline: results reach the state manager, its events reach the restarter, and
 everything else (state changes, registrations, restart attempts) may interleave. First
 for all units over the daemon's whole life, then joined with one unit's checker threads
 over one registration.
 */
module HealthPipeline {

  import opened Units
  import HC = HealthChecker
  import SM = StateManager
  import R = Restarter
  import RP = RestarterProtocol

  // ---- the state manager and the restarter

  /** `loop` is the event the event loop has emitted and not yet handled, `inflight` those of
      other goroutines: the state manager calls its handlers after releasing its mutex. */
  datatype State = State(m: SM.Statuses, r: RP.State, loop: Option<SM.Event>, inflight: seq<SM.Event>)

  datatype Action =
    | Receive(op: SM.Op)             // the event loop passes on a result or a state change
    | Handle                         // and hands the event it emitted to the restarter
    | Report(op: SM.Op)              // another goroutine passes on a unit's initial state
    | HandleReport(i: nat)           // and hands over its event
    | Book(op: SM.Op)                // a registration or unregistration with the state manager
    | Restart(ra: RP.Action)         // a restarter step other than an event

  predicate Enabled(s: State, a: Action) {
    RP.Sized(s.r) &&
    match a
    case Receive(op) => s.loop.None? && (op.Health? || op.State?)
    case Handle => s.loop.Some?
    case Report(op) => op.State?
    case HandleReport(i) => i < |s.inflight|
    case Book(op) => op.Register? || op.Unregister?
    case Restart(ra) => RP.Enabled(s.r, ra) && !ra.Handle?
  }

  /** The event an update emits, if any. */
  function Emitted(m: SM.Statuses, op: SM.Op): Option<SM.Event> {
    if SM.Apply(m, op).1 == [] then None else Some(SM.Apply(m, op).1[0])
  }

  /** The restarter handles an event and may reset the unit's restart counter. */
  function HandleEvent(s: State, ev: SM.Event): State
    requires RP.Sized(s.r)
  {
    s.(m := if R.Resets(s.r.f, ev) then SM.ResetSpec(s.m, ev.unit) else s.m, r := RP.HandleStep(s.r, ev))
  }

  function Do(s: State, a: Action): State
    requires Enabled(s, a)
  {
    match a
    case Receive(op) => s.(m := SM.Apply(s.m, op).0, loop := Emitted(s.m, op))
    case Handle => HandleEvent(s.(loop := None), s.loop.value)
    case Report(op) =>
      s.(m := SM.Apply(s.m, op).0,
         inflight := s.inflight + if Emitted(s.m, op).Some? then [Emitted(s.m, op).value] else [])
    case HandleReport(i) => HandleEvent(s.(inflight := s.inflight[..i] + s.inflight[i + 1..]), s.inflight[i])
    case Book(op) => s.(m := SM.Apply(s.m, op).0)
    case Restart(ra) =>
      s.(m := if ra.Run? && s.r.threads[ra.t].Sleeping? then SM.IncrementSpec(s.m, s.r.threads[ra.t].unit) else s.m,
         r := RP.Do(s.r, ra))
  }

  ghost predicate IsStep(ss: seq<State>, acts: seq<Action>, i: nat)
    requires |ss| == |acts| + 1 && i < |acts|
  {
    Enabled(ss[i], acts[i]) && ss[i + 1] == Do(ss[i], acts[i])
  }

  ghost predicate IsRun(ss: seq<State>, acts: seq<Action>) {
    && |ss| == |acts| + 1
    && ss[0] == State(map[], RP.INIT, None, [])
    && forall i | 0 <= i < |acts| :: IsStep(ss, acts, i)
  }

  // ---- restarts for ill health

  predicate IsHealth(ev: Option<SM.Event>, unit: string, healthy: bool) {
    ev.Some? && ev.value.HealthChanged? && ev.value.unit == unit && ev.value.healthy == healthy
  }

  /** The event loop learns that the unit is unhealthy. */
  predicate FallsIll(unit: string, s: State, a: Action) {
    Enabled(s, a) && a.Receive? && IsHealth(Emitted(s.m, a.op), unit, false)
  }

  /** The step approves a restart of the unit because it is unhealthy. */
  ghost predicate ApprovesByHealth(unit: string, s: State, a: Action) {
    && Enabled(s, a) && a.Handle? && IsHealth(s.loop, unit, false)
    && Do(s, a).r.log == s.r.log + [RP.Approved(unit, s.r.now, true)]
  }

  /** The step hands the restarter a healthy event of the unit, which resets the attempts and
      the cooldown of its tracker. */
  ghost predicate Recovers(unit: string, s: State, a: Action) {
    && Enabled(s, a) && a.Handle? && IsHealth(s.loop, unit, true) && unit in s.r.f.trackers
    && var t := Do(s, a); var id := s.r.f.trackers[unit];
       && t.r.log == s.r.log + [RP.ResetBy(unit, id, true)]
       && t.r.f == s.r.f.(heap := s.r.f.heap[id := R.Tracker(s.r.f.heap[id].policy, 0, 0)])
  }

  /** The step registers the unit, with the state manager or with the restarter. */
  predicate Registers(unit: string, a: Action) {
    a == Book(SM.Register(unit)) || (a.Restart? && a.ra.Register? && a.ra.unit == unit)
  }

  /** No step from `i` up to `j` recovers or registers the unit. */
  ghost predicate StaysIll(unit: string, ss: seq<State>, acts: seq<Action>, i: nat, j: nat)
    requires j <= |acts| <= |ss|
  {
    forall k | i <= k < j :: !Recovers(unit, ss[k], acts[k]) && !Registers(unit, acts[k])
  }

  predicate KnownIll(unit: string, s: State) {
    unit in s.m ==> s.m[unit].healthy == Some(false)
  }

  /** After the loop has emitted the unhealthy event, until it is handled. */
  predicate Emitting(unit: string, s: State) {
    RP.Sized(s.r) && IsHealth(s.loop, unit, false) && KnownIll(unit, s)
  }

  /** After an approved restart: while the unit is tracked, it is known unhealthy or its
      recovery is about to be handled, so no unhealthy result is news. */
  predicate Stands(unit: string, s: State) {
    RP.Sized(s.r) &&
    (unit in s.r.f.trackers ==>
      && R.Tracked(s.r.f, unit) && !IsHealth(s.loop, unit, false)
      && (KnownIll(unit, s) || IsHealth(s.loop, unit, true)))
  }

  lemma StepSized(s: State, a: Action)
    requires Enabled(s, a)
    ensures RP.Sized(Do(s, a).r)
  {
    if a.Restart? { RP.StepSized(s.r, a.ra); }
  }

  lemma FallingIllEmits(unit: string, s: State, a: Action)
    requires FallsIll(unit, s, a)
    ensures Emitting(unit, Do(s, a))
  {
  }

  lemma StepEmitting(unit: string, s: State, a: Action)
    requires Emitting(unit, s) && Enabled(s, a) && !a.Handle? && !Registers(unit, a)
    ensures Emitting(unit, Do(s, a))
  {
    StepSized(s, a);
  }

  lemma ApprovalStands(unit: string, s: State, a: Action)
    requires Emitting(unit, s) && ApprovesByHealth(unit, s, a)
    ensures Stands(unit, Do(s, a))
  {
    StepSized(s, a);
  }

  /** Only a recovery or a registration ends it. */
  lemma StepStands(unit: string, s: State, a: Action)
    requires Stands(unit, s) && Enabled(s, a) && !Recovers(unit, s, a) && !Registers(unit, a)
    ensures Stands(unit, Do(s, a))
  {
    StepSized(s, a);
    match a
    case Receive(op) =>
    case Handle => HandleStands(unit, s);
    case Report(op) =>
    case HandleReport(i) =>
    case Book(op) =>
    case Restart(ra) => RP.StepSized(s.r, ra);
  }

  lemma HandleStands(unit: string, s: State)
    requires Stands(unit, s) && Enabled(s, Handle) && !Recovers(unit, s, Handle)
    ensures Stands(unit, Do(s, Handle))
  {
    if unit in s.r.f.trackers && IsHealth(s.loop, unit, true) {
      assert R.Resets(s.r.f, s.loop.value);
      assert Recovers(unit, s, Handle);
    }
  }

  /** The event loop is busy with the event it emitted at `p` until it handles it at `h`. */
  ghost predicate Handles(ss: seq<State>, acts: seq<Action>, p: nat, h: nat)
    requires |acts| <= |ss|
  {
    p < h < |acts| && acts[h].Handle? && forall k | p < k < h :: !acts[k].Handle?
  }

  lemma {:induction false} EmittingUntil(unit: string, ss: seq<State>, acts: seq<Action>, p: nat, h: nat, n: nat)
    requires IsRun(ss, acts) && Handles(ss, acts, p, h) && p < n <= h && FallsIll(unit, ss[p], acts[p])
    requires StaysIll(unit, ss, acts, p + 1, n)
    ensures Emitting(unit, ss[n])
    decreases n
  {
    assert IsStep(ss, acts, n - 1);
    if n == p + 1 {
      FallingIllEmits(unit, ss[p], acts[p]);
    } else {
      EmittingUntil(unit, ss, acts, p, h, n - 1);
      StepEmitting(unit, ss[n - 1], acts[n - 1]);
    }
  }

  lemma {:induction false} StandsUntil(unit: string, ss: seq<State>, acts: seq<Action>, h: nat, n: nat)
    requires IsRun(ss, acts) && h < n < |ss| && Emitting(unit, ss[h]) && ApprovesByHealth(unit, ss[h], acts[h])
    requires StaysIll(unit, ss, acts, h + 1, n)
    ensures Stands(unit, ss[n])
    decreases n
  {
    assert IsStep(ss, acts, n - 1);
    if n == h + 1 {
      ApprovalStands(unit, ss[h], acts[h]);
    } else {
      StandsUntil(unit, ss, acts, h, n - 1);
      StepStands(unit, ss[n - 1], acts[n - 1]);
    }
  }

  /** An unhealthy event to be handled goes back to a step that emitted it. */
  lemma {:induction false} EventHasCause(unit: string, ss: seq<State>, acts: seq<Action>, n: nat) returns (p: nat)
    requires IsRun(ss, acts) && n < |ss| && IsHealth(ss[n].loop, unit, false)
    ensures p < n && FallsIll(unit, ss[p], acts[p]) && forall k | p < k < n :: !acts[k].Handle?
    decreases n
  {
    assert n > 0 && IsStep(ss, acts, n - 1);
    if acts[n - 1].Receive? {
      p := n - 1;
    } else {
      p := EventHasCause(unit, ss, acts, n - 1);
    }
  }

  /** A unit that stays unhealthy is not restarted for it twice. Let a restart of it be
      approved for ill health at `h`, and another at `q`; then at some `p` the event loop
      learned of what was handled at `h`, and between `p` and `q` a healthy event reset the
      attempts and the cooldown of the unit's tracker, or the unit was registered anew. An
      active state does not do, and results still queued from earlier registrations change
      nothing. */
  lemma RecoveryBetweenHealthRestarts(unit: string, ss: seq<State>, acts: seq<Action>, h: nat, q: nat) returns (p: nat, k: nat)
    requires IsRun(ss, acts) && h < q < |acts|
    requires ApprovesByHealth(unit, ss[h], acts[h]) && ApprovesByHealth(unit, ss[q], acts[q])
    ensures Handles(ss, acts, p, h) && FallsIll(unit, ss[p], acts[p])
    ensures p < k < q && (Recovers(unit, ss[k], acts[k]) || Registers(unit, acts[k]))
  {
    p := EventHasCause(unit, ss, acts, h);
    if StaysIll(unit, ss, acts, p + 1, q) {
      EmittingUntil(unit, ss, acts, p, h, h);
      StandsUntil(unit, ss, acts, h, q);
      assert false;
    }
    k :| p + 1 <= k < q && (Recovers(unit, ss[k], acts[k]) || Registers(unit, acts[k]));
  }

  // ---- events

  /** The event the step hands to the restarter, if any. */
  function Handled(s: State, a: Action): Option<SM.Event> {
    if a.Handle? then s.loop
    else if a.HandleReport? && a.i < |s.inflight| then Some(s.inflight[a.i])
    else None
  }

  /** The event the state manager emits in the step, if any. */
  function EmittedIn(s: State, a: Action): Option<SM.Event> {
    if a.Receive? || a.Report? then Emitted(s.m, a.op) else None
  }

  function Bag(e: Option<SM.Event>): multiset<SM.Event> {
    if e.Some? then multiset{e.value} else multiset{}
  }

  function Pending(s: State): multiset<SM.Event> {
    Bag(s.loop) + multiset(s.inflight)
  }

  /** At the restarter, a step is the handling of the event it hands over, or the restarter's
      own step, or nothing. */
  lemma StepProjects(s: State, a: Action)
    requires Enabled(s, a)
    ensures Do(s, a).r ==
              if Handled(s, a).Some? then RP.Do(s.r, RP.Handle(Handled(s, a).value))
              else if a.Restart? then RP.Do(s.r, a.ra) else s.r
  {
  }

  lemma StepConserves(s: State, a: Action)
    requires Enabled(s, a)
    ensures Pending(Do(s, a)) + Bag(Handled(s, a)) == Pending(s) + Bag(EmittedIn(s, a))
  {
    match a
    case HandleReport(i) => ReportTaken(s, i);
    case Report(op) => ReportMade(s, op);
    case _ =>
      assert Do(s, a).inflight == s.inflight;
      assert Bag(Do(s, a).loop) + Bag(Handled(s, a)) == Bag(s.loop) + Bag(EmittedIn(s, a));
      Balance4(Bag(Do(s, a).loop), Bag(Handled(s, a)), Bag(s.loop), Bag(EmittedIn(s, a)), multiset(s.inflight));
  }

  lemma Balance4(a: multiset<SM.Event>, b: multiset<SM.Event>, c: multiset<SM.Event>, d: multiset<SM.Event>, x: multiset<SM.Event>)
    requires a + b == c + d
    ensures a + x + b == c + x + d
  {
    assert a + x + b == a + b + x && c + x + d == c + d + x;
  }

  lemma ReportTaken(s: State, i: nat)
    requires Enabled(s, HandleReport(i))
    ensures Pending(Do(s, HandleReport(i))) + multiset{s.inflight[i]} == Pending(s)
  {
    var left := s.inflight[..i] + s.inflight[i + 1..];
    assert Do(s, HandleReport(i)).inflight == left && Do(s, HandleReport(i)).loop == s.loop;
    TakeOne(s.inflight, i);
    assert Bag(s.loop) + multiset(left) + multiset{s.inflight[i]} == Bag(s.loop) + (multiset(left) + multiset{s.inflight[i]});
  }

  lemma ReportMade(s: State, op: SM.Op)
    requires Enabled(s, Report(op))
    ensures Pending(Do(s, Report(op))) == Pending(s) + Bag(Emitted(s.m, op))
  {
    var e := Emitted(s.m, op);
    var more := if e.Some? then [e.value] else [];
    assert Do(s, Report(op)).inflight == s.inflight + more && multiset(more) == Bag(e);
    assert multiset(s.inflight + more) == multiset(s.inflight) + multiset(more);
  }

  lemma TakeOne(fs: seq<SM.Event>, i: nat)
    requires i < |fs|
    ensures multiset(fs) == multiset(fs[..i] + fs[i + 1..]) + multiset{fs[i]}
  {
    assert fs == fs[..i] + [fs[i]] + fs[i + 1..];
  }

  lemma Balance(all: multiset<SM.Event>, done: multiset<SM.Event>, left: multiset<SM.Event>,
                more: multiset<SM.Event>, now: multiset<SM.Event>, rest: multiset<SM.Event>)
    requires all == done + left && rest + now == left + more
    ensures all + more == done + now + rest
  {
    assert done + now + rest == done + (rest + now);
    assert done + left + more == done + (left + more);
  }

  ghost function AllHandled(ss: seq<State>, acts: seq<Action>, n: nat): multiset<SM.Event>
    requires n <= |acts| <= |ss|
  {
    if n == 0 then multiset{} else AllHandled(ss, acts, n - 1) + Bag(Handled(ss[n - 1], acts[n - 1]))
  }

  ghost function AllEmitted(ss: seq<State>, acts: seq<Action>, n: nat): multiset<SM.Event>
    requires n <= |acts| <= |ss|
  {
    if n == 0 then multiset{} else AllEmitted(ss, acts, n - 1) + Bag(EmittedIn(ss[n - 1], acts[n - 1]))
  }

  /** Every event the state manager has emitted has been handled by the restarter once, or is
      still to be: none is lost and none handled twice. */
  lemma {:induction false} EventsConserved(ss: seq<State>, acts: seq<Action>, n: nat)
    requires IsRun(ss, acts) && n < |ss|
    ensures AllEmitted(ss, acts, n) == AllHandled(ss, acts, n) + Pending(ss[n])
  {
    if n > 0 {
      EventsConserved(ss, acts, n - 1);
      assert IsStep(ss, acts, n - 1);
      var s, a := ss[n - 1], acts[n - 1];
      StepConserves(s, a);
      Balance(AllEmitted(ss, acts, n - 1), AllHandled(ss, acts, n - 1), Pending(s), Bag(EmittedIn(s, a)), Bag(Handled(s, a)), Pending(ss[n]));
    }
  }

  // ---- restart counters

  /** The step reports the unit active or healthy, and its restarts are enabled. */
  predicate ReportsWell(unit: string, s: State, a: Action)
    requires s.r.f.Valid()
  {
    var ev := Handled(s, a);
    && ev.Some? && ev.value.unit == unit
    && (if ev.value.StateChanged? then ev.value.activeState == "active" else ev.value.healthy)
    && unit in s.r.f.trackers && s.r.f.heap[s.r.f.trackers[unit]].policy.enabled
  }

  /** The Restart calls for the unit among the first `n` steps since it was last registered or
      reported well. */
  ghost function RestartsSince(unit: string, ss: seq<State>, acts: seq<Action>, n: nat): nat
    requires IsRun(ss, acts) && n < |ss|
  {
    if n == 0 then 0
    else
      var s, a := ss[n - 1], acts[n - 1];
      assert IsStep(ss, acts, n - 1);
      if a == Book(SM.Register(unit)) || ReportsWell(unit, s, a) then 0
      else
        RestartsSince(unit, ss, acts, n - 1) + Restarted(unit, s, a)
  }

  /** One if the step calls Restart for the unit itself. */
  function Restarted(unit: string, s: State, a: Action): nat
    requires Enabled(s, a)
  {
    if a.Restart? && a.ra.Run? && s.r.threads[a.ra.t].Sleeping? && s.r.threads[a.ra.t].unit == unit then 1 else 0
  }

  /** The restart count of a unit is the number of Restart calls made for it since it was
      registered or last reported well. */
  lemma {:induction false} RestartCountHistory(unit: string, ss: seq<State>, acts: seq<Action>, n: nat)
    requires IsRun(ss, acts) && n < |ss|
    ensures unit in ss[n].m ==> ss[n].m[unit].restartCount == RestartsSince(unit, ss, acts, n)
  {
    if n > 0 {
      RestartCountHistory(unit, ss, acts, n - 1);
      assert IsStep(ss, acts, n - 1);
      if unit in ss[n].m { CountStep(unit, ss[n - 1], acts[n - 1]); }
    }
  }

  lemma CountStep(unit: string, s: State, a: Action)
    requires Enabled(s, a) && unit in Do(s, a).m
    ensures unit in s.m || a == Book(SM.Register(unit))
    ensures a == Book(SM.Register(unit)) || ReportsWell(unit, s, a) ==> Do(s, a).m[unit].restartCount == 0
    ensures a != Book(SM.Register(unit)) && !ReportsWell(unit, s, a) ==>
              Do(s, a).m[unit].restartCount == s.m[unit].restartCount + Restarted(unit, s, a)
  {
  }

  // ---- one unit's checker over one registration

  /** The first `delivered` of the checker's results have been received by the event loop;
      `stale`: the result received last was left over from an earlier registration. */
  datatype Unit = Unit(check: HC.State, delivered: nat, stale: bool, base: State)

  datatype UnitAction =
    | Check(a: HC.Action)            // a step of one of the unit's check threads
    | Deliver                        // the event loop receives the checker's next result
    | Other(b: Action)               // anything else, results of earlier registrations included

  /** Everything except new registrations of the unit with the state manager. */
  predicate UnitEnabled(unit: string, retries: seq<nat>, s: Unit, a: UnitAction) {
    RP.Sized(s.base.r) &&
    match a
    case Check(a) => HC.Sized(retries, s.check) && HC.Enabled(retries, s.check, a)
    case Deliver => s.delivered < |s.check.results| && s.base.loop.None?
    case Other(b) => Enabled(s.base, b) && !(b.Book? && b.op.unit == unit)
  }

  /** Receiving the checker's next result. */
  function Delivery(unit: string, s: Unit): Action
    requires s.delivered < |s.check.results|
  {
    Receive(SM.Health(unit, s.check.results[s.delivered].healthy, s.base.r.now))
  }

  predicate IsResult(unit: string, a: Action) {
    a.Receive? && a.op.Health? && a.op.unit == unit
  }

  function UnitDo(unit: string, retries: seq<nat>, s: Unit, a: UnitAction): Unit
    requires UnitEnabled(unit, retries, s, a)
  {
    match a
    case Check(a) => s.(check := HC.Do(retries, s.check, a))
    case Deliver => s.(delivered := s.delivered + 1, stale := false, base := Do(s.base, Delivery(unit, s)))
    case Other(b) =>
      s.(stale := s.stale || IsResult(unit, b), base := Do(s.base, b))
  }

  /** The unit has just been registered: a fresh checker and status. */
  predicate Starts(unit: string, retries: seq<nat>, s: Unit) {
    && s.check == HC.Init(|retries|) && s.delivered == 0 && !s.stale
    && unit in s.base.m && s.base.m[unit] == SM.FRESH && RP.Sized(s.base.r)
  }

  ghost predicate IsUnitStep(unit: string, retries: seq<nat>, ss: seq<Unit>, acts: seq<UnitAction>, i: nat)
    requires |ss| == |acts| + 1 && i < |acts|
  {
    UnitEnabled(unit, retries, ss[i], acts[i]) && ss[i + 1] == UnitDo(unit, retries, ss[i], acts[i])
  }

  ghost predicate IsUnitRun(unit: string, retries: seq<nat>, ss: seq<Unit>, acts: seq<UnitAction>) {
    && (forall k | 0 <= k < |retries| :: retries[k] >= 1)
    && |ss| == |acts| + 1
    && Starts(unit, retries, ss[0])
    && forall i | 0 <= i < |acts| :: IsUnitStep(unit, retries, ss, acts, i)
  }

  function LastDelivered(s: Unit): Option<bool>
    requires s.delivered <= |s.check.results|
  {
    if s.delivered == 0 then None else Some(s.check.results[s.delivered - 1].healthy)
  }

  /** The status follows the checker's results unless a stale one came later. */
  ghost predicate Inv(unit: string, retries: seq<nat>, s: Unit) {
    && HC.Inv(retries, s.check) && RP.Sized(s.base.r)
    && unit in s.base.m && s.delivered <= |s.check.results|
    && (!s.stale ==> s.base.m[unit].healthy == LastDelivered(s))
  }

  /** What any step but a registration does to the unit's stored health. */
  lemma HealthAfter(unit: string, s: State, a: Action)
    requires Enabled(s, a) && unit in s.m
    requires !(a.Book? && a.op.unit == unit)
    ensures var t := Do(s, a);
      && unit in t.m
      && t.m[unit].healthy == if IsResult(unit, a) then Some(a.op.healthy) else s.m[unit].healthy
  {
  }

  lemma StepKeepsInv(unit: string, retries: seq<nat>, s: Unit, a: UnitAction)
    requires forall k | 0 <= k < |retries| :: retries[k] >= 1
    requires Inv(unit, retries, s) && UnitEnabled(unit, retries, s, a)
    ensures Inv(unit, retries, UnitDo(unit, retries, s, a))
  {
    match a
    case Check(a) =>
      HC.StepKeepsInv(retries, s.check, a);
      assert s.check.results <= HC.Do(retries, s.check, a).results;
    case Deliver =>
      StepSized(s.base, Delivery(unit, s));
      HealthAfter(unit, s.base, Delivery(unit, s));
    case Other(b) =>
      StepSized(s.base, b);
      HealthAfter(unit, s.base, b);
  }

  lemma {:induction false} RunInv(unit: string, retries: seq<nat>, ss: seq<Unit>, acts: seq<UnitAction>, i: nat)
    requires IsUnitRun(unit, retries, ss, acts) && i < |ss|
    ensures Inv(unit, retries, ss[i])
  {
    if i > 0 {
      RunInv(unit, retries, ss, acts, i - 1);
      assert IsUnitStep(unit, retries, ss, acts, i - 1);
      StepKeepsInv(unit, retries, ss[i - 1], acts[i - 1]);
    } else {
      assert HC.Inv(retries, ss[0].check);
    }
  }

  /** A received result becomes the stored health and produces exactly one health event,
      unless the result received just before it was left over from an earlier registration
      and said the same. So without such leftovers the two de-duplications never disagree. */
  lemma EveryResultIsAnEvent(unit: string, retries: seq<nat>, ss: seq<Unit>, acts: seq<UnitAction>, n: nat)
    requires IsUnitRun(unit, retries, ss, acts) && n < |acts| && acts[n].Deliver?
    ensures ss[n].delivered < |ss[n].check.results| && unit in ss[n].base.m && unit in ss[n + 1].base.m
    ensures var s := ss[n]; var h := s.check.results[s.delivered].healthy;
      && ss[n + 1].base.loop ==
           (if s.stale && s.base.m[unit].healthy == Some(h) then None else Some(SM.HealthChanged(unit, h, s.base.r.now)))
      && ss[n + 1].base.m[unit].healthy == Some(h)
  {
    RunInv(unit, retries, ss, acts, n);
    assert IsUnitStep(unit, retries, ss, acts, n);
    var s := ss[n];
    HealthAfter(unit, s.base, Delivery(unit, s));
    if s.delivered > 0 {
      assert s.check.results[s.delivered - 1].healthy != s.check.results[s.delivered].healthy;
    }
  }

  /** The proviso matters: a leftover unhealthy result hides the checker's first one. */
  lemma StaleResultHidesOne(s0: Unit) returns (ss: seq<Unit>, acts: seq<UnitAction>)
    requires Starts("a", [1], s0) && s0.base.loop.None?
    ensures IsUnitRun("a", [1], ss, acts) && ss[0] == s0 && |acts| == 5 && acts[4].Deliver? && ss[5].base.loop.None?
  {
    acts := [Check(HC.Probe(0, Some("refused"))), Check(HC.Report(0)), Other(Receive(SM.Health("a", false, 0))), Other(Handle), Deliver];
    var s1 := UnitDo("a", [1], s0, acts[0]);
    assert s1.check.f.failures[0] == 1;
    var s2 := UnitDo("a", [1], s1, acts[1]);
    assert s2.check.results == [] + HC.Sent([1], s1.check.f) && !HC.AllBelow([1], s1.check.f);
    var s3 := UnitDo("a", [1], s2, acts[2]);
    HealthAfter("a", s2.base, acts[2].b);
    assert s3.base.loop == Some(SM.HealthChanged("a", false, 0));
    var s4 := UnitDo("a", [1], s3, acts[3]);
    HealthAfter("a", s3.base, acts[3].b);
    StepSized(s3.base, Handle);
    var s5 := UnitDo("a", [1], s4, acts[4]);
    ss := [s0, s1, s2, s3, s4, s5];
    assert forall i | 0 <= i < 5 :: IsUnitStep("a", [1], ss, acts, i) by {
      assert IsUnitStep("a", [1], ss, acts, 0);
      assert IsUnitStep("a", [1], ss, acts, 1);
      assert IsUnitStep("a", [1], ss, acts, 2);
      assert IsUnitStep("a", [1], ss, acts, 3);
      assert IsUnitStep("a", [1], ss, acts, 4);
    }
  }
}
