/**
 What the outcomes of the activator's calls lead to, along every run: an attempt succeeds
 only if its Start and its probe did, a stop only if its Stop did; a connection is refused
 only for a cause, and everything served counts as activity. The statements are about the
 steps the threads take, not about the history they log.
 */
module ActivatorOutcomes {

  import opened Counting
  import opened ActivatorFields
  import opened UdpSessions
  import opened ActivatorProtocol
  import opened ActivatorInvariant
  import opened ActivatorHistory

  /** At step `k` thread `t` leaves `pc` with outcome `choice`. */
  predicate Leaves(ss: seq<State>, acts: seq<Action>, k: nat, t: nat, pc: Pc, choice: Choice) {
    k < |acts| && k < |ss| && acts[k] == Run(t, choice) && t < |ss[k].threads| && ss[k].threads[t] == pc
  }

  predicate Allocated(g: Globals, ch: Chan) {
    ch.Chan? && ch.id < |g.fields.closes|
  }

  /** Threads that do not step stay where they are; a new thread is where goroutines begin. */
  lemma OtherThreads(c: Config, s: State, a: Action, u: nat)
    requires Enabled(c, s, a) && u < |Do(c, s, a).threads|
    ensures u >= |s.threads| ==> CanSpawn(Do(c, s, a).threads[u]) || Do(c, s, a).threads[u].Reply?
    ensures u < |s.threads| && !(a.Run? && a.t == u) ==> Do(c, s, a).threads[u] == s.threads[u]
    ensures u < |s.threads| && a.Run? && a.t == u ==> Do(c, s, a).threads[u] == Local(c, s.g, s.threads[u], a.choice).pc
    ensures |s.threads| <= |Do(c, s, a).threads|
  {
    if a.Run? { LocalSpawns(c, s.g, s.threads[a.t], a.choice); }
  }

  lemma ChannelsStay(c: Config, s: State, a: Action, ch: Chan)
    requires Enabled(c, s, a) && Allocated(s.g, ch)
    ensures Allocated(Do(c, s, a).g, ch)
  {
    if a.Run? {
      var pc := s.threads[a.t];
      if !Loud(pc) {
        QuietShape(c, s.g, pc, a.choice);
      } else if IsIdle(pc) {
      } else if pc.Starter? {
      } else {
      }
    }
  }

  /** An event that ends an attempt or a stop comes from the thread whose attempt or stop it is. */
  predicate EndsOwn(pc: Pc, choice: Choice, e: Event) {
    && (e.AttemptOk? ==> pc.Starter? && pc.ch == e.ch && pc.phase == Finished(Success))
    && (e.AttemptFail? ==> pc.Starter? && pc.ch == e.ch && pc.phase == Finished(Failure(e.error)))
    && (e.StopOk? ==> pc == IdleClear(e.ch))
    && (e.StopFail? ==> pc == IdleStop(e.ch) && choice == Fail)
  }

  lemma LocalEnds(c: Config, g: Globals, pc: Pc, choice: Choice, e: Event)
    requires CanStep(c, g, pc, choice) && e in Local(c, g, pc, choice).g.log && e !in g.log
    ensures EndsOwn(pc, choice, e)
  {
    if !Loud(pc) {
      QuietShape(c, g, pc, choice);
      QuietEnds(g, Local(c, g, pc, choice).g, e);
    } else if IsIdle(pc) {
      IdleEnds(c, g, pc, choice, e);
    } else if pc.Starter? {
    } else {
    }
  }

  lemma QuietEnds(g: Globals, h: Globals, e: Event)
    requires QuietChange(g, h) && e in h.log && e !in g.log
    ensures e.ConnOpen? || e.ConnClose? || e.Traffic?
  {
  }

  lemma IdleEnds(c: Config, g: Globals, pc: Pc, choice: Choice, e: Event)
    requires IsIdle(pc) && CanStep(c, g, pc, choice) && e in IdleStep(c, g, pc, choice).g.log && e !in g.log
    ensures EndsOwn(pc, choice, e)
  {
  }

  lemma StepEnds(c: Config, s: State, a: Action, e: Event)
    requires Enabled(c, s, a) && e in Do(c, s, a).g.log && e !in s.g.log
    ensures a.Run? && EndsOwn(s.threads[a.t], a.choice, e)
  {
    if a.Run? { LocalEnds(c, s.g, s.threads[a.t], a.choice, e); }
  }

  /** The step at which an event of the log was logged. */
  lemma {:induction false} LoggedAt(c: Config, ss: seq<State>, acts: seq<Action>, n: nat, e: Event) returns (k: nat)
    requires IsRun(c, ss, acts) && n < |ss| && e in ss[n].g.log
    ensures k < n && e !in ss[k].g.log && e in ss[k + 1].g.log
    decreases n
  {
    assert n > 0;
    if e in ss[n - 1].g.log { k := LoggedAt(c, ss, acts, n - 1, e); } else { k := n - 1; }
  }

  // ---- start attempts

  /** The attempt cannot succeed any more. */
  ghost predicate Doomed(s: State, ch: Chan) {
    && Allocated(s.g, ch) && AttemptOk(ch) !in s.g.log
    && forall t | 0 <= t < |s.threads| && s.threads[t].Starter? && s.threads[t].ch == ch ::
         s.threads[t].phase.InFailStop? || (s.threads[t].phase.Finished? && s.threads[t].phase.result.Failure?)
  }

  lemma FailureDooms(c: Config, s: State, t: nat)
    requires Inv(s) && Enabled(c, s, Run(t, Fail)) && s.threads[t].Starter?
    requires s.threads[t].phase.InStart? || s.threads[t].phase.Probing?
    ensures Doomed(Do(c, s, Run(t, Fail)), s.threads[t].ch)
  {
    var ch := s.threads[t].ch;
    var r := Do(c, s, Run(t, Fail));
    assert ThreadOk(s.g, s.threads[t]) && IsOpen(s.g.fields.closes, ch);
    forall u | 0 <= u < |r.threads| && r.threads[u].Starter? && r.threads[u].ch == ch
      ensures r.threads[u].phase.InFailStop? || (r.threads[u].phase.Finished? && r.threads[u].phase.result.Failure?)
    {
      OtherThreads(c, s, Run(t, Fail), u);
      if u != t { TwoThreads(OwnsStart, s.threads, t, u); }
    }
  }

  lemma DoomedStays(c: Config, s: State, a: Action, ch: Chan)
    requires Doomed(s, ch) && Enabled(c, s, a)
    ensures Doomed(Do(c, s, a), ch)
  {
    var r := Do(c, s, a);
    ChannelsStay(c, s, a, ch);
    if AttemptOk(ch) in r.g.log { StepEnds(c, s, a, AttemptOk(ch)); }
    forall u | 0 <= u < |r.threads| && r.threads[u].Starter? && r.threads[u].ch == ch
      ensures r.threads[u].phase.InFailStop? || (r.threads[u].phase.Finished? && r.threads[u].phase.result.Failure?)
    {
      OtherThreads(c, s, a, u);
      if a.Run? && a.t == u { StarterFrom(c, s.g, s.threads[u], a.choice); }
    }
  }

  /** The program counters from which a thread can get to a starter's. */
  lemma StarterFrom(c: Config, g: Globals, pc: Pc, choice: Choice)
    requires CanStep(c, g, pc, choice) && Local(c, g, pc, choice).pc.Starter?
    ensures var next := Local(c, g, pc, choice).pc;
      || (pc == Opened(next.role) && choice == Go && next == Starter(next.role, Chan(|g.fields.closes|), InStart))
      || (pc == Starter(next.role, next.ch, InStart) &&
            next.phase == if choice == Fail then Finished(Failure(StartFailed)) else if c.hasProbe then Probing else Finished(Success))
      || (pc == Starter(next.role, next.ch, Probing) &&
            next.phase == if choice == Go then Finished(Success) else if choice == Again then Probing
                          else if g.cancelled then Finished(Failure(NotHealthy)) else InFailStop)
      || (pc == Starter(next.role, next.ch, InFailStop) && choice == Go && next.phase == Finished(Failure(NotHealthy)))
  {
    if IsIdle(pc) {
    } else if IsSession(pc) {
    } else if pc.Starter? {
    } else {
    }
  }

  /** An attempt whose Start call or whose probe failed never counts as successful. */
  lemma {:induction false} FailedAttemptNeverOk(c: Config, ss: seq<State>, acts: seq<Action>, k: nat, t: nat, pc: Pc, n: nat)
    requires IsRun(c, ss, acts) && k < n < |ss| && Leaves(ss, acts, k, t, pc, Fail)
    requires pc.Starter? && (pc.phase.InStart? || pc.phase.Probing?)
    ensures AttemptOk(pc.ch) !in ss[n].g.log && Doomed(ss[n], pc.ch)
    decreases n
  {
    assert IsStep(c, ss, acts, n - 1);
    if n == k + 1 {
      RunInv(c, ss, acts, k);
      FailureDooms(c, ss[k], t);
    } else {
      FailedAttemptNeverOk(c, ss, acts, k, t, pc, n - 1);
      DoomedStays(c, ss[n - 1], acts[n - 1], pc.ch);
    }
  }

  /** Between `p` and `n` the attempt of `pc` has made its Stop call. */
  ghost predicate Stopped(ss: seq<State>, acts: seq<Action>, p: nat, n: nat, t: nat, pc: Pc)
    requires pc.Starter?
  {
    exists q: nat :: p < q < n && Leaves(ss, acts, q, t, pc.(phase := InFailStop), Go)
  }

  /** The steps behind a starter's phase: how its Start call came out at `i`, and its probe
      at `p`. */
  ghost predicate Cause(c: Config, ss: seq<State>, acts: seq<Action>, n: nat, t: nat, pc: Pc, i: nat, p: nat)
    requires pc.Starter?
  {
    var start, probe := pc.(phase := InStart), pc.(phase := Probing);
    match pc.phase
    case InStart => true
    case Probing => i < n && Leaves(ss, acts, i, t, start, Go)
    case InFailStop =>
      i < p < n && Leaves(ss, acts, i, t, start, Go) && Leaves(ss, acts, p, t, probe, Fail) && !ss[p].g.cancelled
    case Finished(result) =>
      if result == Success then
        i < n && Leaves(ss, acts, i, t, start, Go) && (c.hasProbe ==> i < p < n && Leaves(ss, acts, p, t, probe, Go))
      else if result == Failure(StartFailed) then
        i < n && Leaves(ss, acts, i, t, start, Fail)
      else
        && result == Failure(NotHealthy)
        && i < p < n && Leaves(ss, acts, i, t, start, Go) && Leaves(ss, acts, p, t, probe, Fail)
        && (ss[p].g.cancelled || Stopped(ss, acts, p, n, t, pc))
  }

  lemma CauseStep(c: Config, ss: seq<State>, acts: seq<Action>, n: nat, t: nat, i: nat, p: nat) returns (i': nat, p': nat)
    requires n < |acts| && |ss| == |acts| + 1 && Enabled(c, ss[n], acts[n]) && acts[n].Run? && acts[n].t == t
    requires ss[n].threads[t].Starter? && Cause(c, ss, acts, n, t, ss[n].threads[t], i, p)
    requires Local(c, ss[n].g, ss[n].threads[t], acts[n].choice).pc.Starter?
    ensures Cause(c, ss, acts, n + 1, t, Local(c, ss[n].g, ss[n].threads[t], acts[n].choice).pc, i', p')
  {
    var pc, choice := ss[n].threads[t], acts[n].choice;
    StarterFrom(c, ss[n].g, pc, choice);
    i', p' := i, p;
    match pc.phase
    case InStart => i' := n;
    case Probing => if choice != Again { p' := n; }
    case InFailStop =>
      assert Leaves(ss, acts, n, t, pc, Go) && pc == pc.(phase := InFailStop);
      assert Stopped(ss, acts, p, n + 1, t, pc);
    case Finished(_) =>
  }

  lemma CauseStays(c: Config, ss: seq<State>, acts: seq<Action>, n: nat, t: nat, pc: Pc, i: nat, p: nat)
    requires pc.Starter? && Cause(c, ss, acts, n, t, pc, i, p)
    ensures Cause(c, ss, acts, n + 1, t, pc, i, p)
  {
    if Stopped(ss, acts, p, n, t, pc) {
      assert Stopped(ss, acts, p, n + 1, t, pc);
    }
  }

  /** Before its step a starter was one already, or has just begun its attempt. */
  lemma StarterWas(c: Config, s: State, a: Action, t: nat)
    requires Enabled(c, s, a) && t < |Do(c, s, a).threads| && Do(c, s, a).threads[t].Starter?
    ensures t < |s.threads|
    ensures !(a.Run? && a.t == t) ==> s.threads[t] == Do(c, s, a).threads[t]
    ensures a.Run? && a.t == t ==> Do(c, s, a).threads[t] == Local(c, s.g, s.threads[t], a.choice).pc
    ensures a.Run? && a.t == t && !s.threads[t].Starter? ==> Do(c, s, a).threads[t].phase.InStart?
  {
    OtherThreads(c, s, a, t);
    if a.Run? && a.t == t { StarterFrom(c, s.g, s.threads[t], a.choice); }
  }

  lemma {:induction false} PhaseHasCause(c: Config, ss: seq<State>, acts: seq<Action>, n: nat, t: nat) returns (i: nat, p: nat)
    requires IsRun(c, ss, acts) && n < |ss| && t < |ss[n].threads| && ss[n].threads[t].Starter?
    ensures Cause(c, ss, acts, n, t, ss[n].threads[t], i, p)
    decreases n
  {
    assert n > 0 && IsStep(c, ss, acts, n - 1);
    StarterWas(c, ss[n - 1], acts[n - 1], t);
    if !ss[n - 1].threads[t].Starter? {
      i, p := 0, 0;
    } else {
      i, p := PhaseHasCause(c, ss, acts, n - 1, t);
      if acts[n - 1].Run? && acts[n - 1].t == t {
        i, p := CauseStep(c, ss, acts, n - 1, t, i, p);
      } else {
        CauseStays(c, ss, acts, n - 1, t, ss[n].threads[t], i, p);
      }
    }
  }

  /** Every successful attempt goes back to a Start call that succeeded and, if there is a
      probe, to a probe that succeeded after it. */
  lemma SuccessHasCause(c: Config, ss: seq<State>, acts: seq<Action>, n: nat, ch: Chan) returns (t: nat, role: Role, i: nat, p: nat)
    requires IsRun(c, ss, acts) && n < |ss| && AttemptOk(ch) in ss[n].g.log
    ensures i < n && Leaves(ss, acts, i, t, Starter(role, ch, InStart), Go)
    ensures c.hasProbe ==> i < p < n && Leaves(ss, acts, p, t, Starter(role, ch, Probing), Go)
  {
    var k := LoggedAt(c, ss, acts, n, AttemptOk(ch));
    assert IsStep(c, ss, acts, k);
    StepEnds(c, ss[k], acts[k], AttemptOk(ch));
    t, role := acts[k].t, ss[k].threads[acts[k].t].role;
    i, p := PhaseHasCause(c, ss, acts, k, t);
  }

  /** Every failed attempt goes back to its failed Start call, or to a probe that failed; and
      after a failed probe the unit was stopped again unless serving had been cancelled. The
      recorded error says which. */
  lemma FailureHasCause(c: Config, ss: seq<State>, acts: seq<Action>, n: nat, ch: Chan, error: Error)
      returns (t: nat, role: Role, i: nat)
    requires IsRun(c, ss, acts) && n < |ss| && AttemptFail(ch, error) in ss[n].g.log
    ensures error == StartFailed || error == NotHealthy
    ensures i < n && Leaves(ss, acts, i, t, Starter(role, ch, if error == StartFailed then InStart else Probing), Fail)
    ensures error == NotHealthy ==>
              ss[i].g.cancelled || Stopped(ss, acts, i, n, t, Starter(role, ch, InFailStop))
  {
    var k := LoggedAt(c, ss, acts, n, AttemptFail(ch, error));
    assert IsStep(c, ss, acts, k);
    StepEnds(c, ss[k], acts[k], AttemptFail(ch, error));
    t, role := acts[k].t, ss[k].threads[acts[k].t].role;
    var start, p := PhaseHasCause(c, ss, acts, k, t);
    i := if error == StartFailed then start else p;
  }

  /** The unit is stopped after a failed start only when a probe failed and serving had not
      been cancelled. */
  lemma FailStopHasCause(c: Config, ss: seq<State>, acts: seq<Action>, n: nat, t: nat) returns (p: nat)
    requires IsRun(c, ss, acts) && n < |ss| && t < |ss[n].threads| && ss[n].threads[t].Starter? && ss[n].threads[t].phase.InFailStop?
    ensures p < n && Leaves(ss, acts, p, t, ss[n].threads[t].(phase := Probing), Fail) && !ss[p].g.cancelled
  {
    var i;
    i, p := PhaseHasCause(c, ss, acts, n, t);
  }

  // ---- idle stops

  predicate InStopCall(pc: Pc, ch: Chan) { pc == IdleStop(ch) }

  ghost predicate NoStopCall(s: State, ch: Chan) {
    Allocated(s.g, ch) && forall t | 0 <= t < |s.threads| :: !InStopCall(s.threads[t], ch)
  }

  lemma StopCallFrom(c: Config, g: Globals, pc: Pc, choice: Choice)
    requires CanStep(c, g, pc, choice)
    ensures var next := Local(c, g, pc, choice).pc;
      && (next.IdleStop? ==> pc == IdleTick && next.ch == Chan(|g.fields.closes|))
      && (next.IdleClear? ==> pc == IdleStop(next.ch) && choice == Go)
      && (next.IdleTail? ==> if next.stopped then pc == IdleClear(next.ch) else pc == IdleStop(next.ch) && choice == Fail)
  {
    if IsIdle(pc) {
    } else if IsSession(pc) {
    } else {
    }
  }

  lemma StopCallEnds(c: Config, s: State, t: nat, choice: Choice)
    requires Inv(s) && Enabled(c, s, Run(t, choice)) && s.threads[t].IdleStop?
    ensures NoStopCall(Do(c, s, Run(t, choice)), s.threads[t].ch)
  {
    var ch := s.threads[t].ch;
    var r := Do(c, s, Run(t, choice));
    assert ThreadOk(s.g, s.threads[t]) && IsOpen(s.g.fields.closes, ch);
    ChannelsStay(c, s, Run(t, choice), ch);
    forall u | 0 <= u < |r.threads| ensures !InStopCall(r.threads[u], ch) {
      OtherThreads(c, s, Run(t, choice), u);
      if u == t { StopCallFrom(c, s.g, s.threads[t], choice); }
      if u != t && u < |s.threads| && s.threads[u].IdleStop? { TwoThreads(OwnsStop, s.threads, t, u); }
    }
  }

  lemma {:induction false} NoStopCallStays(c: Config, ss: seq<State>, acts: seq<Action>, k: nat, n: nat, ch: Chan)
    requires IsRun(c, ss, acts) && k <= n < |ss| && NoStopCall(ss[k], ch)
    ensures NoStopCall(ss[n], ch)
    decreases n
  {
    if k < n {
      NoStopCallStays(c, ss, acts, k, n - 1, ch);
      assert IsStep(c, ss, acts, n - 1);
      var s, a := ss[n - 1], acts[n - 1];
      ChannelsStay(c, s, a, ch);
      forall u | 0 <= u < |ss[n].threads| ensures !InStopCall(ss[n].threads[u], ch) {
        OtherThreads(c, s, a, u);
        if a.Run? && a.t == u { StopCallFrom(c, s.g, s.threads[u], a.choice); }
      }
    }
  }

  lemma StopCallNotAgain(c: Config, ss: seq<State>, acts: seq<Action>, k: nat, t: nat, x: Choice, n: nat, u: nat, y: Choice, ch: Chan)
    requires IsRun(c, ss, acts) && Leaves(ss, acts, k, t, IdleStop(ch), x) && k < n
    ensures !Leaves(ss, acts, n, u, IdleStop(ch), y)
  {
    if n < |ss| {
      RunInv(c, ss, acts, k);
      assert IsStep(c, ss, acts, k);
      StopCallEnds(c, ss[k], t, x);
      NoStopCallStays(c, ss, acts, k + 1, n, ch);
      if u < |ss[n].threads| { assert !InStopCall(ss[n].threads[u], ch); }
    }
  }

  /** The Stop call of an idle stop returns once. */
  lemma StopCallOnce(c: Config, ss: seq<State>, acts: seq<Action>, k: nat, t: nat, x: Choice, n: nat, u: nat, y: Choice, ch: Chan)
    requires IsRun(c, ss, acts) && Leaves(ss, acts, k, t, IdleStop(ch), x) && Leaves(ss, acts, n, u, IdleStop(ch), y)
    ensures k == n
  {
    if k < n { StopCallNotAgain(c, ss, acts, k, t, x, n, u, y, ch); }
    if n < k { StopCallNotAgain(c, ss, acts, n, u, y, k, t, x, ch); }
  }

  lemma {:induction false} StopPhaseHasCause(c: Config, ss: seq<State>, acts: seq<Action>, n: nat, t: nat) returns (i: nat)
    requires IsRun(c, ss, acts) && n < |ss| && t < |ss[n].threads| && ss[n].threads[t].IdleClear?
    ensures i < n && Leaves(ss, acts, i, t, IdleStop(ss[n].threads[t].ch), Go)
    decreases n
  {
    assert n > 0 && IsStep(c, ss, acts, n - 1);
    OtherThreads(c, ss[n - 1], acts[n - 1], t);
    if acts[n - 1].Run? && acts[n - 1].t == t {
      StopCallFrom(c, ss[n - 1].g, ss[n - 1].threads[t], acts[n - 1].choice);
      i := n - 1;
    } else {
      i := StopPhaseHasCause(c, ss, acts, n - 1, t);
    }
  }

  /** An idle stop counts as completed only if its Stop call succeeded, and as failed only if
      it failed; never both. */
  lemma StopOutcome(c: Config, ss: seq<State>, acts: seq<Action>, n: nat, ch: Chan) returns (i: nat, t: nat)
    requires IsRun(c, ss, acts) && n < |ss| && (StopOk(ch) in ss[n].g.log || StopFail(ch) in ss[n].g.log)
    ensures i < n && Leaves(ss, acts, i, t, IdleStop(ch), if StopOk(ch) in ss[n].g.log then Go else Fail)
    ensures !(StopOk(ch) in ss[n].g.log && StopFail(ch) in ss[n].g.log)
  {
    if StopOk(ch) in ss[n].g.log {
      var k := LoggedAt(c, ss, acts, n, StopOk(ch));
      assert IsStep(c, ss, acts, k);
      StepEnds(c, ss[k], acts[k], StopOk(ch));
      t := acts[k].t;
      i := StopPhaseHasCause(c, ss, acts, k, t);
      if StopFail(ch) in ss[n].g.log {
        var j := LoggedAt(c, ss, acts, n, StopFail(ch));
        assert IsStep(c, ss, acts, j);
      StepEnds(c, ss[j], acts[j], StopFail(ch));
        StopCallOnce(c, ss, acts, i, t, Go, j, acts[j].t, Fail, ch);
      }
    } else {
      i := LoggedAt(c, ss, acts, n, StopFail(ch));
      assert IsStep(c, ss, acts, i);
      StepEnds(c, ss[i], acts[i], StopFail(ch));
      t := acts[i].t;
    }
  }

  /** The last attempt to succeed has not been ended by a completed idle stop. */
  predicate LastIsStart(log: seq<Event>) {
    if |log| == 0 then false
    else if log[|log| - 1].AttemptOk? then true
    else if log[|log| - 1].StopOk? then false
    else LastIsStart(log[..|log| - 1])
  }

  lemma AppendLast(log: seq<Event>, e: Event)
    ensures LastIsStart(log + [e]) == (e.AttemptOk? || (!e.StopOk? && LastIsStart(log)))
  {
    assert (log + [e])[..|log|] == log;
  }

  ghost predicate RunningOk(g: Globals) {
    g.fields.running == LastIsStart(g.log)
  }

  lemma LocalRunning(c: Config, g: Globals, pc: Pc, choice: Choice)
    requires CanStep(c, g, pc, choice) && Fits(g, pc) && RunningOk(g)
    ensures RunningOk(Local(c, g, pc, choice).g)
  {
    if !Loud(pc) {
      QuietShape(c, g, pc, choice);
      QuietRunning(g, Local(c, g, pc, choice).g);
    } else if IsIdle(pc) {
      IdleRunning(c, g, pc, choice);
    } else if pc.Starter? {
      StarterRunning(c, g, pc, choice);
    } else {
      EnterRunning(g, pc.role);
    }
  }

  lemma QuietRunning(g: Globals, h: Globals)
    requires QuietChange(g, h) && RunningOk(g)
    ensures RunningOk(h)
  {
    if h.fields != g.fields || h.log != g.log {
      var e := if h.fields == ConnOpenedSpec(g.fields, g.now) then ConnOpen(g.now)
               else if h.fields == ConnClosedSpec(g.fields, g.now) then ConnClose(g.now)
               else Traffic(g.now);
      AppendLast(g.log, e);
      assert h.log == g.log + [e];
    }
  }

  lemma EnterRunning(g: Globals, role: Role)
    requires RunningOk(g)
    ensures RunningOk(EnterStep(g, role).g)
  {
    if EnterDecision(g.fields).BeginStart? {
      AppendLast(g.log, AttemptBegin(Chan(|g.fields.closes|)));
    } else {
      assert g.log + [] == g.log;
    }
  }

  lemma IdleRunning(c: Config, g: Globals, pc: Pc, choice: Choice)
    requires IsIdle(pc) && CanStep(c, g, pc, choice) && Fits(g, pc) && RunningOk(g)
    ensures RunningOk(IdleStep(c, g, pc, choice).g)
  {
    match pc
    case IdleTick =>
      var e := StopBegin(Chan(|g.fields.closes|), g.now);
      AppendLast(g.log, e);
      AppendLast(g.log + [e], Unwatch);
      assert g.log + [e] + [Unwatch] == g.log + ([e] + [Unwatch]) && g.log + ([e] + []) == g.log + [e];
    case IdleStop(ch) => AppendLast(g.log, StopFail(ch));
    case IdleClear(ch) => AppendLast(g.log, StopOk(ch));
    case IdleTail(_, _) =>
  }

  lemma StarterRunning(c: Config, g: Globals, pc: Pc, choice: Choice)
    requires pc.Starter? && CanStep(c, g, pc, choice) && Fits(g, pc) && RunningOk(g)
    ensures RunningOk(StarterStep(c, g, pc.role, pc.ch, pc.phase, choice).g)
  {
    if pc.phase.Finished? {
      var e := if pc.phase.result.Success? then AttemptOk(pc.ch) else AttemptFail(pc.ch, pc.phase.result.error);
      AppendLast(g.log, e);
      AppendLast(g.log + [e], Watch);
      assert g.log + [e] + [Watch] == g.log + ([e] + [Watch]) && g.log + ([e] + []) == g.log + [e];
    }
  }

  /** The unit is taken for running exactly while the last attempt that succeeded has not been
      ended by an idle stop that succeeded. */
  lemma {:induction false} RunningMeansStarted(c: Config, ss: seq<State>, acts: seq<Action>, n: nat)
    requires IsRun(c, ss, acts) && n < |ss|
    ensures ss[n].g.fields.running <==> LastIsStart(ss[n].g.log)
  {
    if n > 0 {
      RunningMeansStarted(c, ss, acts, n - 1);
      RunInv(c, ss, acts, n - 1);
      assert IsStep(c, ss, acts, n - 1);
      if acts[n - 1].Run? {
        ThreadFits(ss[n - 1], acts[n - 1].t);
        LocalRunning(c, ss[n - 1].g, ss[n - 1].threads[acts[n - 1].t], acts[n - 1].choice);
      }
    }
  }

  // ---- activity

  /** Steps that are activity of a client: a connection opened or released, bytes relayed, a
      datagram passed on or answered. */
  predicate IsActive(pc: Pc, choice: Choice) {
    pc.Accepted? || pc.Closing? || (pc.Proxying? && choice == Again) || pc.UdpMark? ||
    (pc.Reply? && choice == Again) || (pc.Releasing? && choice.Pick?)
  }

  lemma ActivityMarks(c: Config, g: Globals, pc: Pc, choice: Choice)
    requires CanStep(c, g, pc, choice) && g.fields.lastActive <= g.now
    ensures g.fields.lastActive <= Local(c, g, pc, choice).g.fields.lastActive <= g.now
    ensures IsActive(pc, choice) ==> Local(c, g, pc, choice).g.fields.lastActive == g.now
  {
    if !Loud(pc) {
      QuietShape(c, g, pc, choice);
      if IsActive(pc, choice) { ActiveMarks(c, g, pc, choice); }
    } else if IsIdle(pc) {
    } else if pc.Starter? {
    } else {
    }
  }

  lemma ActiveMarks(c: Config, g: Globals, pc: Pc, choice: Choice)
    requires CanStep(c, g, pc, choice) && IsActive(pc, choice)
    ensures Local(c, g, pc, choice).g.fields.lastActive == g.now
  {
    if IsSession(pc) {
    } else {
    }
  }

  lemma {:induction false} ActivityCounts(c: Config, ss: seq<State>, acts: seq<Action>, j: nat, t: nat, pc: Pc, choice: Choice, n: nat)
    requires IsRun(c, ss, acts) && j < n < |ss| && Leaves(ss, acts, j, t, pc, choice) && IsActive(pc, choice)
    ensures ss[j].g.now <= ss[n].g.fields.lastActive
    decreases n
  {
    assert IsStep(c, ss, acts, n - 1);
    RunHistory(c, ss, acts, n - 1);
    if acts[n - 1].Run? { ActivityMarks(c, ss[n - 1].g, ss[n - 1].threads[acts[n - 1].t], acts[n - 1].choice); }
    if n > j + 1 { ActivityCounts(c, ss, acts, j, t, pc, choice, n - 1); }
  }

  /** An idle stop begins only when every activity before it, by whatever thread, is at least
      the idle timeout old. */
  lemma StopsAfterQuiet(c: Config, ss: seq<State>, acts: seq<Action>, j: nat, t: nat, pc: Pc, choice: Choice, k: nat, u: nat)
    requires IsRun(c, ss, acts) && j < k && Leaves(ss, acts, j, t, pc, choice) && IsActive(pc, choice)
    requires Leaves(ss, acts, k, u, IdleTick, Go) && k + 1 < |ss| && u < |ss[k + 1].threads| && ss[k + 1].threads[u].IdleStop?
    ensures ss[j].g.now + c.idleTimeout <= ss[k].g.now
  {
    ActivityCounts(c, ss, acts, j, t, pc, choice, k);
    assert IsStep(c, ss, acts, k);
    OtherThreads(c, ss[k], acts[k], u);
  }

  // ---- what becomes of a client

  /** Thread `t` has left some such program counter with such an outcome between `i` and `j`. */
  ghost predicate Passed(ss: seq<State>, acts: seq<Action>, t: nat, i: nat, j: nat, at: (Pc, Choice) -> bool) {
    exists k: nat :: k < |acts| && i <= k < j && acts[k].Run? && PassedAt(ss, acts, t, k, at)
  }

  predicate PassedAt(ss: seq<State>, acts: seq<Action>, t: nat, k: nat, at: (Pc, Choice) -> bool)
    requires k < |acts| && acts[k].Run?
  {
    k < |ss| && acts[k].t == t && t < |ss[k].threads| && at(ss[k].threads[t], acts[k].choice)
  }

  predicate Relayed(pc: Pc, choice: Choice) { pc.Proxying? && choice == Go }
  predicate DialFailed(pc: Pc, choice: Choice) { pc.Ready? && choice == Fail }
  predicate Refused(pc: Pc, choice: Choice) { pc == Closing(End, false) }
  predicate Marked(pc: Pc, choice: Choice) { pc.UdpMark? }
  predicate Written(pc: Pc, choice: Choice) { pc.UdpWrite? }

  /** What a client's thread has done by the time it stands at `pc`. */
  ghost predicate OnItsWay(ss: seq<State>, acts: seq<Action>, t: nat, i: nat, j: nat, role: Role, pc: Pc) {
    match pc
    case Accepted(r) => r == role
    case Opened(r) => r == role
    case AwaitStop(r, _) => r == role
    case AwaitStart(r, _) => r == role
    case Woken(r, _) => r == role
    case Starter(r, _, _) => r == role
    case Ready(r) => r == role
    case Proxying => role.Tcp?
    case Closing(next, up) =>
      && (next.Write? ==> up && role == Udp(next.key))
      && (next.End? && up ==> Passed(ss, acts, t, i, j, DialFailed) || (role.Tcp? && Passed(ss, acts, t, i, j, Relayed)))
    case UdpArrive(key) => role == Udp(key)
    case UdpDialed(key, _) => role == Udp(key)
    case UdpMark(key) => role == Udp(key)
    case UdpWrite(key) => role == Udp(key) && Passed(ss, acts, t, i, j, Marked)
    case CloseKeys(_) => role.Udp? && Passed(ss, acts, t, i, j, Marked) && Passed(ss, acts, t, i, j, Written)
    case Releasing(_, _) => role.Udp? && Passed(ss, acts, t, i, j, Marked) && Passed(ss, acts, t, i, j, Written)
    case Done => Served(ss, acts, t, i, j, role)
    case _ => false
  }

  ghost predicate Served(ss: seq<State>, acts: seq<Action>, t: nat, i: nat, j: nat, role: Role) {
    || Passed(ss, acts, t, i, j, Refused)
    || Passed(ss, acts, t, i, j, DialFailed)
    || (role.Tcp? && Passed(ss, acts, t, i, j, Relayed))
    || (role.Udp? && Passed(ss, acts, t, i, j, Marked) && Passed(ss, acts, t, i, j, Written))
  }

  lemma PassedMore(ss: seq<State>, acts: seq<Action>, t: nat, i: nat, j: nat)
    requires j < |acts|
    ensures forall at :: Passed(ss, acts, t, i, j, at) ==> Passed(ss, acts, t, i, j + 1, at)
    ensures forall at :: i <= j && acts[j].Run? && PassedAt(ss, acts, t, j, at) ==> Passed(ss, acts, t, i, j + 1, at)
  {
  }

  lemma SessionWay(c: Config, ss: seq<State>, acts: seq<Action>, t: nat, i: nat, j: nat, role: Role)
    requires j < |acts| && |ss| == |acts| + 1 && IsStep(c, ss, acts, j) && i <= j && acts[j].Run? && acts[j].t == t
    requires OnItsWay(ss, acts, t, i, j, role, ss[j].threads[t])
    requires IsSession(ss[j].threads[t])
    ensures OnItsWay(ss, acts, t, i, j + 1, role, Local(c, ss[j].g, ss[j].threads[t], acts[j].choice).pc)
  {
    var pc, choice := ss[j].threads[t], acts[j].choice;
    PassedMore(ss, acts, t, i, j);
    assert Marked(pc, choice) ==> PassedAt(ss, acts, t, j, Marked);
    assert Written(pc, choice) ==> PassedAt(ss, acts, t, j, Written);
  }

  lemma ClientWay(c: Config, ss: seq<State>, acts: seq<Action>, t: nat, i: nat, j: nat, role: Role)
    requires j < |acts| && |ss| == |acts| + 1 && IsStep(c, ss, acts, j) && i <= j && acts[j].Run? && acts[j].t == t
    requires OnItsWay(ss, acts, t, i, j, role, ss[j].threads[t])
    requires !IsSession(ss[j].threads[t])
    ensures OnItsWay(ss, acts, t, i, j + 1, role, Local(c, ss[j].g, ss[j].threads[t], acts[j].choice).pc)
  {
    var pc, choice := ss[j].threads[t], acts[j].choice;
    PassedMore(ss, acts, t, i, j);
    assert Relayed(pc, choice) ==> PassedAt(ss, acts, t, j, Relayed);
    assert DialFailed(pc, choice) ==> PassedAt(ss, acts, t, j, DialFailed);
    assert Refused(pc, choice) ==> PassedAt(ss, acts, t, j, Refused);
  }

  lemma WayStays(ss: seq<State>, acts: seq<Action>, t: nat, i: nat, j: nat, role: Role, pc: Pc)
    requires j < |acts| && OnItsWay(ss, acts, t, i, j, role, pc)
    ensures OnItsWay(ss, acts, t, i, j + 1, role, pc)
  {
    PassedMore(ss, acts, t, i, j);
  }

  lemma WayNext(c: Config, ss: seq<State>, acts: seq<Action>, t: nat, i: nat, j: nat, role: Role)
    requires j < |acts| && |ss| == |acts| + 1 && IsStep(c, ss, acts, j) && i <= j
    requires t < |ss[j].threads| && OnItsWay(ss, acts, t, i, j, role, ss[j].threads[t])
    ensures t < |ss[j + 1].threads| && OnItsWay(ss, acts, t, i, j + 1, role, ss[j + 1].threads[t])
  {
    OtherThreads(c, ss[j], acts[j], t);
    if !(acts[j].Run? && acts[j].t == t) {
      WayStays(ss, acts, t, i, j, role, ss[j + 1].threads[t]);
    } else if IsSession(ss[j].threads[t]) {
      SessionWay(c, ss, acts, t, i, j, role);
    } else {
      ClientWay(c, ss, acts, t, i, j, role);
    }
  }

  lemma {:induction false} Way(c: Config, ss: seq<State>, acts: seq<Action>, t: nat, i: nat, j: nat, role: Role)
    requires IsRun(c, ss, acts) && i <= j < |ss| && t < |ss[i].threads|
    requires ss[i].threads[t] == if role.Tcp? then Accepted(Tcp) else UdpArrive(role.key)
    ensures t < |ss[j].threads| && OnItsWay(ss, acts, t, i, j, role, ss[j].threads[t])
    decreases j
  {
    if i < j {
      Way(c, ss, acts, t, i, j - 1, role);
      assert IsStep(c, ss, acts, j - 1);
      WayNext(c, ss, acts, t, i, j - 1, role);
    }
  }

  /** A client is served unless it is refused or the backend cannot be dialed: an accepted
      connection whose handler has ended was relayed to its end; a datagram whose handler has
      ended was marked as traffic and written to the backend. */
  lemma ClientIsServed(c: Config, ss: seq<State>, acts: seq<Action>, t: nat, i: nat, j: nat, role: Role)
    requires IsRun(c, ss, acts) && i <= j < |ss| && t < |ss[i].threads|
    requires ss[i].threads[t] == if role.Tcp? then Accepted(Tcp) else UdpArrive(role.key)
    requires t < |ss[j].threads| && ss[j].threads[t] == Done
    ensures Served(ss, acts, t, i, j, role)
  {
    Way(c, ss, acts, t, i, j, role);
  }

  /** What the thread of a datagram for an open session has done by the time it stands at `pc`. */
  ghost predicate Forwarding(ss: seq<State>, acts: seq<Action>, t: nat, i: nat, j: nat, pc: Pc) {
    || pc.UdpMark?
    || (pc.UdpWrite? && Passed(ss, acts, t, i, j, Marked))
    || ((pc.CloseKeys? || pc.Releasing? || pc.Done?) && Passed(ss, acts, t, i, j, Marked) && Passed(ss, acts, t, i, j, Written))
  }

  lemma ForwardingNext(c: Config, ss: seq<State>, acts: seq<Action>, t: nat, i: nat, j: nat)
    requires j < |acts| && |ss| == |acts| + 1 && IsStep(c, ss, acts, j) && i <= j
    requires t < |ss[j].threads| && Forwarding(ss, acts, t, i, j, ss[j].threads[t])
    ensures t < |ss[j + 1].threads| && Forwarding(ss, acts, t, i, j + 1, ss[j + 1].threads[t])
  {
    OtherThreads(c, ss[j], acts[j], t);
    PassedMore(ss, acts, t, i, j);
    if acts[j].Run? && acts[j].t == t {
      var pc, choice := ss[j].threads[t], acts[j].choice;
      assert Marked(pc, choice) ==> PassedAt(ss, acts, t, j, Marked);
      assert Written(pc, choice) ==> PassedAt(ss, acts, t, j, Written);
    }
  }

  /** A datagram for an open session uses it: its handler opens no connection of its own and,
      by the time it has ended, has written the datagram to the backend. */
  lemma {:induction false} OpenSessionIsUsed(c: Config, ss: seq<State>, acts: seq<Action>, t: nat, i: nat, j: nat, key: string)
    requires IsRun(c, ss, acts) && i < j < |ss| && Leaves(ss, acts, i, t, UdpArrive(key), Go) && key in ss[i].g.sessions
    ensures t < |ss[j].threads| && Forwarding(ss, acts, t, i, j, ss[j].threads[t])
    decreases j
  {
    assert IsStep(c, ss, acts, j - 1);
    if j == i + 1 {
      OtherThreads(c, ss[i], acts[i], t);
    } else {
      OpenSessionIsUsed(c, ss, acts, t, i, j - 1, key);
      ForwardingNext(c, ss, acts, t, i, j - 1);
    }
  }

  /** Why a step turns a client away: it waited and serving was cancelled, the start it waited
      for left the unit down, or the start it made itself failed. */
  lemma RefusedForCause(c: Config, s: State, t: nat, choice: Choice)
    requires Reachable(c, s) && Enabled(c, s, Run(t, choice)) && Do(c, s, Run(t, choice)).threads[t] == Closing(End, false)
    ensures var pc := s.threads[t];
      || ((pc.AwaitStop? || pc.AwaitStart?) && s.g.cancelled)
      || (pc.Woken? && !Up(s.g.fields))
      || (pc.Starter? && pc.phase.Finished? && pc.phase.result.Failure?)
  {
    ReachableInv(c, s);
    ThreadFits(s, t);
    OtherThreads(c, s, Run(t, choice), t);
    var pc := s.threads[t];
    if IsIdle(pc) {
    } else if IsSession(pc) {
    } else {
    }
  }

  /** Once serving is cancelled no client has to wait. */
  lemma CancelledCanLeave(c: Config, s: State, t: nat)
    requires t < |s.threads| && s.g.cancelled && (s.threads[t].AwaitStop? || s.threads[t].AwaitStart?)
    ensures Enabled(c, s, Run(t, Fail)) && Do(c, s, Run(t, Fail)).threads[t] == Closing(End, false)
  {
  }
}
