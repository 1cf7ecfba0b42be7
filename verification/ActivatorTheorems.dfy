/**
 What the socket-activation protocol guarantees in every reachable state, under
 every interleaving, and along every run.
 */
module ActivatorTheorems {

  import opened Counting
  import opened ActivatorFields
  import opened UdpSessions
  import opened ActivatorProtocol
  import opened ActivatorInvariant
  import opened ActivatorHistory

  // ---- live connections keep the unit up

  /** The thread's ensureRunning has returned nil and its connection is still counted. */
  predicate Served(pc: Pc) {
    pc.Ready? || pc.Proxying? || pc.UdpDialed? || (pc.Closing? && pc.up)
  }

  /** From the nil return of ensureRunning to connClosed, and while a UDP session is in
      the table or removed but unreleased, the unit runs and no stop is in progress. */
  lemma ServedMeansUp(c: Config, s: State)
    requires Reachable(c, s)
    ensures forall t | 0 <= t < |s.threads| && Served(s.threads[t]) :: Up(s.g.fields) && s.g.fields.active >= 1
    ensures s.g.sessions != map[] ==> Up(s.g.fields) && s.g.fields.active >= 1
    ensures forall t | 0 <= t < |s.threads| && s.threads[t].Releasing? && s.threads[t].todo != map[] :: Up(s.g.fields)
  {
    ReachableInv(c, s);
    forall t | 0 <= t < |s.threads| && Served(s.threads[t]) ensures Up(s.g.fields) && s.g.fields.active >= 1 {
      assert ThreadOk(s.g, s.threads[t]);
      SumAtLeast(Held, s.threads, t);
    }
    forall t | 0 <= t < |s.threads| && s.threads[t].Releasing? && s.threads[t].todo != map[] ensures Up(s.g.fields) {
      assert ThreadOk(s.g, s.threads[t]);
    }
    if s.g.sessions != map[] {
      var key :| key in s.g.sessions;
      assert |s.g.sessions.Keys| > 0;
    }
  }

  /** A served thread stays served until it closes its connection or hands it over to a
      session in the table. */
  lemma ServedUntilReleased(c: Config, s: State, t: nat, choice: Choice)
    requires t < |s.threads| && Served(s.threads[t]) && CanStep(c, s.g, s.threads[t], choice)
    ensures var r := Do(c, s, Run(t, choice));
      || (Served(r.threads[t]) && r.g.fields.active == s.g.fields.active && r.g.sessions == s.g.sessions)
      || (r.g.fields.active == s.g.fields.active - 1 && r.g.sessions == s.g.sessions)
      || (s.threads[t].UdpDialed? && s.threads[t].key !in s.g.sessions && r.g.fields.active == s.g.fields.active
          && r.g.sessions.Keys == s.g.sessions.Keys + {s.threads[t].key})
  {
  }

  /** No step begins an idle stop while any thread holds a counted connection or any
      session is open. */
  lemma StopBeginsAlone(c: Config, s: State, a: Action)
    requires Reachable(c, s) && Enabled(c, s, a)
    requires !s.g.fields.stopping && Do(c, s, a).g.fields.stopping
    ensures s.g.fields.active == 0 && s.g.sessions == map[]
    ensures forall t | 0 <= t < |s.threads| :: Held(s.threads[t]) == 0
  {
    ReachableInv(c, s);
    var pc := s.threads[a.t];
    StopBegins(c, s.g, pc, a.choice);
    forall t | 0 <= t < |s.threads| ensures Held(s.threads[t]) == 0 {
      SumAtLeast(Held, s.threads, t);
    }
  }

  lemma StopBegins(c: Config, g: Globals, pc: Pc, choice: Choice)
    requires CanStep(c, g, pc, choice) && !g.fields.stopping && Local(c, g, pc, choice).g.fields.stopping
    ensures pc.IdleTick? && ShouldStop(c, g.fields, g.now)
  {
    if IsIdle(pc) {
    } else if IsSession(pc) {
    } else {
    }
  }

  // ---- wakeups

  /** The thread that will close `ch`. */
  predicate Owns(pc: Pc, ch: Chan) {
    (pc.Starter? && pc.ch == ch) || (pc.IdleStop? && pc.ch == ch) || (pc.IdleClear? && pc.ch == ch) ||
    (pc.IdleTail? && pc.ch == ch)
  }

  predicate WaitsOn(pc: Pc, ch: Chan) {
    (pc.AwaitStop? && pc.ch == ch) || (pc.AwaitStart? && pc.ch == ch)
  }

  /** Every waiter's channel is closed, or has exactly one owner that will close it. */
  lemma NoLostWakeup(c: Config, s: State, t: nat, ch: Chan) returns (u: nat)
    requires Reachable(c, s) && t < |s.threads| && WaitsOn(s.threads[t], ch)
    requires !IsClosed(s.g.fields.closes, ch)
    ensures IsOpen(s.g.fields.closes, ch)
    ensures s.threads[t].AwaitStart? ==> s.g.fields.starting && s.g.fields.startWait == ch
    ensures s.threads[t].AwaitStop? ==> s.g.fields.stopping && s.g.fields.stopWait == ch
    ensures u < |s.threads| && Owns(s.threads[u], ch)
    ensures forall v | 0 <= v < |s.threads| && Owns(s.threads[v], ch) :: v == u
  {
    ReachableInv(c, s);
    assert ThreadOk(s.g, s.threads[t]);
    if s.threads[t].AwaitStart? {
      u := SumPositive(OwnsStart, s.threads);
    } else {
      u := SumPositive(OwnsStop, s.threads);
    }
    assert ThreadOk(s.g, s.threads[u]);
    forall v | 0 <= v < |s.threads| && Owns(s.threads[v], ch) ensures v == u {
      assert ThreadOk(s.g, s.threads[v]);
      if v != u {
        TwoThreads(OwnsStart, s.threads, u, v);
        TwoThreads(OwnsStop, s.threads, u, v);
      }
    }
  }

  /** No channel is ever closed twice, and every close a thread is about to perform is of
      an open channel (the precondition of the class's Close). */
  lemma NoDoubleClose(c: Config, s: State)
    requires Reachable(c, s)
    ensures forall i | 0 <= i < |s.g.fields.closes| :: s.g.fields.closes[i] <= 1
    ensures forall t | 0 <= t < |s.threads| && (s.threads[t].Starter? || s.threads[t].IdleTail?) ::
              IsOpen(s.g.fields.closes, s.threads[t].ch)
    ensures forall i | 0 <= i < |s.g.fields.closes| && s.g.fields.closes[i] == 0 ::
              exists t :: 0 <= t < |s.threads| && Owns(s.threads[t], Chan(i))
  {
    ReachableInv(c, s);
    forall t | 0 <= t < |s.threads| && (s.threads[t].Starter? || s.threads[t].IdleTail?)
      ensures IsOpen(s.g.fields.closes, s.threads[t].ch)
    {
      assert ThreadOk(s.g, s.threads[t]);
    }
    forall i | 0 <= i < |s.g.fields.closes| && s.g.fields.closes[i] == 0
      ensures exists t :: 0 <= t < |s.threads| && Owns(s.threads[t], Chan(i))
    {
      var t;
      if s.g.fields.starting && s.g.fields.startWait == Chan(i) {
        t := SumPositive(OwnsStart, s.threads);
      } else {
        t := SumPositive(OwnsStop, s.threads);
      }
      assert ThreadOk(s.g, s.threads[t]);
      assert Owns(s.threads[t], Chan(i));
    }
  }

  lemma {:induction false} StaleListExists(t: Table, now: int, todo: set<string>) returns (keys: seq<string>)
    requires todo <= t.Keys
    ensures forall k <- todo :: IsStale(t, k, now) ==> k in keys
    ensures forall i | 0 <= i < |keys| :: IsStale(t, keys[i], now) && keys[i] in todo
    ensures forall i, j | 0 <= i < j < |keys| :: keys[i] != keys[j]
    decreases todo
  {
    if todo == {} {
      keys := [];
    } else {
      var k :| k in todo;
      keys := StaleListExists(t, now, todo - {k});
      if IsStale(t, k, now) { keys := keys + [k]; }
    }
  }

  lemma ReadyUnlessWaiting(c: Config, g: Globals, pc: Pc) returns (choice: Choice)
    requires !pc.Done? && !pc.AwaitStart? && !pc.AwaitStop?
    ensures CanStep(c, g, pc, choice)
  {
    choice := Go;
    if pc.ExpireScan? {
      var keys := StaleListExists(g.sessions, pc.at, g.sessions.Keys);
      choice := Order(keys);
    } else if pc.Releasing? && pc.todo != map[] {
      var key :| key in pc.todo;
      choice := Pick(key);
    } else if pc.Reply? {
      choice := Again;
    }
  }

  /** No deadlock: every unfinished thread can step, or waits for a thread that can. */
  lemma NoDeadlock(c: Config, s: State, t: nat) returns (u: nat, choice: Choice)
    requires Reachable(c, s) && t < |s.threads| && !s.threads[t].Done?
    ensures u < |s.threads| && CanStep(c, s.g, s.threads[u], choice)
    ensures u == t || exists ch :: WaitsOn(s.threads[t], ch) && Owns(s.threads[u], ch)
  {
    var pc := s.threads[t];
    if pc.AwaitStart? || pc.AwaitStop? {
      if IsClosed(s.g.fields.closes, pc.ch) {
        u, choice := t, Go;
      } else {
        u := NoLostWakeup(c, s, t, pc.ch);
        choice := ReadyUnlessWaiting(c, s.g, s.threads[u]);
        assert WaitsOn(s.threads[t], pc.ch) && Owns(s.threads[u], pc.ch);
      }
    } else {
      u := t;
      choice := ReadyUnlessWaiting(c, s.g, pc);
    }
  }

  // ---- the connection count

  /** The count equals the connections held: one per counted handler or in-flight session
      creation, one per session in the table, one per session removed but unreleased. */
  lemma CountConserved(c: Config, s: State)
    requires Reachable(c, s)
    ensures s.g.fields.active == Sum(Held, s.threads) + |s.g.sessions|
    ensures s.g.fields.active >= 0
  {
    ReachableInv(c, s);
  }

  /** Each session ever created is in exactly one place: in the table once, in the hands of
      one releasing thread, or released once; sessions not yet created are nowhere. */
  lemma ReleasedOnce(c: Config, s: State, sid: nat)
    requires Reachable(c, s)
    ensures s.g.released[sid] <= 1
    ensures sid >= s.g.nextSid ==> s.g.released[sid] == 0 && Holds(s.g.sessions, sid) == 0
    ensures sid < s.g.nextSid ==>
              (s.g.released[sid] == 1 <==> Holds(s.g.sessions, sid) == 0 && Sum(Pending(sid), s.threads) == 0)
  {
    ReachableInv(c, s);
    assert Holds(s.g.sessions, sid) + Sum(Pending(sid), s.threads) + s.g.released[sid] == B(sid < s.g.nextSid);
  }

  // ---- shared success

  predicate Joined(pc: Pc, role: Role, ch: Chan) {
    pc == AwaitStart(role, ch) || pc == Woken(role, ch)
  }

  /** A thread that joined an attempt which has succeeded cannot be refused: its only step
      short of cancellation is towards a nil return, and the unit is up meanwhile. */
  lemma JoinedStep(c: Config, s: State, t: nat, role: Role, ch: Chan, choice: Choice)
    requires Reachable(c, s) && t < |s.threads| && Joined(s.threads[t], role, ch)
    requires AttemptOk(ch) in s.g.log
    ensures Up(s.g.fields) && IsClosed(s.g.fields.closes, ch)
    ensures CanStep(c, s.g, s.threads[t], choice) && !s.g.cancelled ==>
              Do(c, s, Run(t, choice)).threads[t] == if s.threads[t].Woken? then Ready(role) else Woken(role, ch)
  {
    ReachableInv(c, s);
    assert ThreadOk(s.g, s.threads[t]);
  }

  lemma PrefixReachable(c: Config, ss: seq<State>, acts: seq<Action>, i: nat)
    requires IsRun(c, ss, acts) && i < |ss|
    ensures Reachable(c, ss[i])
  {
    var rs, bs := ss[..i + 1], acts[..i];
    forall k | 0 <= k < i ensures IsStep(c, rs, bs, k) {
      assert IsStep(c, ss, acts, k);
    }
    assert IsRun(c, rs, bs) && rs[|bs|] == ss[i];
  }

  lemma StepExtendsLog(c: Config, s: State, a: Action)
    requires Enabled(c, s, a)
    ensures s.g.log <= Do(c, s, a).g.log
    ensures |s.threads| <= |Do(c, s, a).threads|
    ensures forall t | 0 <= t < |s.threads| && !(a.Run? && a.t == t) :: Do(c, s, a).threads[t] == s.threads[t]
    ensures s.g.cancelled ==> Do(c, s, a).g.cancelled
  {
    if a.Run? {
      var pc := s.threads[a.t];
      if IsIdle(pc) {
      } else if IsSession(pc) {
      } else {
      }
    }
  }

  lemma JoinedAdvance(c: Config, ss: seq<State>, acts: seq<Action>, j: nat, t: nat, role: Role, ch: Chan)
    requires IsRun(c, ss, acts) && j < |acts| && !ss[j].g.cancelled
    requires t < |ss[j].threads| && Joined(ss[j].threads[t], role, ch) && AttemptOk(ch) in ss[j].g.log
    ensures var r := ss[j + 1];
      && t < |r.threads| && AttemptOk(ch) in r.g.log
      && (Joined(r.threads[t], role, ch) || r.threads[t] == Ready(role))
  {
    PrefixReachable(c, ss, acts, j);
    assert IsStep(c, ss, acts, j);
    StepExtendsLog(c, ss[j], acts[j]);
    if acts[j].Run? && acts[j].t == t {
      JoinedStep(c, ss[j], t, role, ch, acts[j].choice);
    }
  }

  lemma CancelStays(c: Config, ss: seq<State>, acts: seq<Action>, j: nat)
    requires IsRun(c, ss, acts) && j < |acts| && !ss[j + 1].g.cancelled
    ensures !ss[j].g.cancelled
  {
    assert IsStep(c, ss, acts, j);
    StepExtendsLog(c, ss[j], acts[j]);
  }

  /** The thread has returned nil from ensureRunning after state `i` and by state `j`. */
  ghost predicate ReturnedNil(ss: seq<State>, i: nat, j: nat, t: nat, role: Role)
    requires j < |ss|
  {
    exists k :: i < k <= j && t < |ss[k].threads| && ss[k].threads[t] == Ready(role)
  }

  /** Shared success along a run: a thread that has joined an attempt which has succeeded
      is, at any later time before cancellation, still about to read the flags or has
      returned nil, however late it wakes. */
  lemma {:induction false} SharedSuccess(c: Config, ss: seq<State>, acts: seq<Action>, i: nat, j: nat, t: nat, role: Role, ch: Chan)
    requires IsRun(c, ss, acts) && i <= j < |ss| && !ss[j].g.cancelled
    requires t < |ss[i].threads| && Joined(ss[i].threads[t], role, ch) && AttemptOk(ch) in ss[i].g.log
    ensures ReturnedNil(ss, i, j, t, role) ||
            (t < |ss[j].threads| && Joined(ss[j].threads[t], role, ch) && AttemptOk(ch) in ss[j].g.log)
    decreases j
  {
    if i < j {
      CancelStays(c, ss, acts, j - 1);
      SharedSuccess(c, ss, acts, i, j - 1, t, role, ch);
      if ReturnedNil(ss, i, j - 1, t, role) {
        var k :| i < k <= j - 1 && t < |ss[k].threads| && ss[k].threads[t] == Ready(role);
        assert ReturnedNil(ss, i, j, t, role);
      } else {
        JoinedAdvance(c, ss, acts, j - 1, t, role, ch);
      }
    }
  }

  // ---- flags, owners, and calls

  /** `starting` excludes `running` and `stopping`; each set flag has exactly one owner
      thread; and no two Start/Stop calls of this activator are ever in progress at once. */
  lemma FlagsAndOwners(c: Config, s: State)
    requires Reachable(c, s)
    ensures !(s.g.fields.starting && s.g.fields.running) && !(s.g.fields.starting && s.g.fields.stopping)
    ensures Sum(OwnsStart, s.threads) == B(s.g.fields.starting) && Sum(OwnsStop, s.threads) == B(s.g.fields.stopping)
    ensures forall t, u | 0 <= t < |s.threads| && 0 <= u < |s.threads| && InCall(s.threads[t]) && InCall(s.threads[u]) :: t == u
  {
    ReachableInv(c, s);
    forall t, u | 0 <= t < |s.threads| && 0 <= u < |s.threads| && InCall(s.threads[t]) && InCall(s.threads[u])
      ensures t == u
    {
      assert ThreadOk(s.g, s.threads[t]) && ThreadOk(s.g, s.threads[u]);
      if t != u {
        TwoThreads(OwnsStart, s.threads, t, u);
        TwoThreads(OwnsStop, s.threads, t, u);
      }
    }
  }

  lemma ReachableHistory(c: Config, s: State)
    requires Reachable(c, s)
    ensures History(c, s.g)
  {
    var ss, acts :| IsRun(c, ss, acts) && ss[|acts|] == s;
    RunHistory(c, ss, acts, |acts|);
  }

  /** Start attempts begun are accounted for: failed, or ended by an idle stop, or the unit
      is running, or the attempt is still in progress. */
  lemma AttemptsLedger(c: Config, s: State)
    requires Reachable(c, s)
    ensures Sum(Begun, s.g.log) ==
              Sum(Failed, s.g.log) + Sum(Stopped, s.g.log) + B(s.g.fields.running) + B(s.g.fields.starting)
    ensures s.g.fields.active == Sum(Opens, s.g.log) - Sum(Closes, s.g.log)
  {
    ReachableHistory(c, s);
  }

  /** A woken waiter returns nil if the unit is up, the generic error exactly while a newer
      attempt is in progress, and otherwise the error of the last attempt, which has failed.
      A waiter of a succeeded attempt returns nil. */
  lemma WaiterResult(c: Config, s: State, t: nat)
    requires Reachable(c, s) && t < |s.threads| && s.threads[t].Woken?
    ensures WokenResult(s.g.fields) ==
              if Up(s.g.fields) then Success
              else if s.g.fields.starting then Failure(BackendFailed)
              else LastError(s.g.log)
    ensures !Up(s.g.fields) && !s.g.fields.starting ==> LastError(s.g.log).Failure?
    ensures AttemptOk(s.threads[t].ch) in s.g.log ==> WokenResult(s.g.fields).Success?
  {
    ReachableHistory(c, s);
    ReachableInv(c, s);
    assert ThreadOk(s.g, s.threads[t]);
  }

  // ---- idle stops

  /** Every idle stop of the run began with as many closes as opens before it, and with
      every open, close and traffic event before it at least the idle timeout old. */
  lemma IdleStopHistory(c: Config, s: State, j: nat)
    requires Reachable(c, s) && j < |s.g.log| && s.g.log[j].StopBegin?
    ensures Sum(Opens, s.g.log[..j]) == Sum(Closes, s.g.log[..j])
    ensures forall i | 0 <= i < j && IsActivity(s.g.log[i]) :: s.g.log[i].at + c.idleTimeout <= s.g.log[j].at
  {
    ReachableHistory(c, s);
  }

  /** With on-time ticks, a running unit that has no connection and is not being stopped is
      within the idle timeout plus one tick period of its last activity, or within one tick
      period of the end of an idle stop that failed since it was started. */
  lemma IdleUnitIsStopped(c: Config, ss: seq<State>, acts: seq<Action>, i: nat)
    requires c.idleTimeout >= 1 && IsOnTimeRun(c, ss, acts) && i < |ss|
    requires Up(ss[i].g.fields) && ss[i].g.fields.active == 0
    ensures var g := ss[i].g;
      || g.now < g.fields.lastActive + c.idleTimeout + c.Interval()
      || (StopFailedSinceStart(g.log) && g.now <= g.stopEnd + c.Interval())
  {
    RunBound(c, ss, acts, i);
  }

  // ---- monitoring

  /** A live watch implies a running unit with no stop in progress; Watch calls are
      separated by Unwatch calls; and a running unit that is not being stopped is watched
      exactly when no idle stop has failed since it was last started. */
  lemma MonitoringDiscipline(c: Config, s: State)
    requires Reachable(c, s)
    ensures s.g.fields.watched <==> WatchLive(s.g.log)
    ensures s.g.fields.watched ==> Up(s.g.fields)
    ensures WatchesAlternate(s.g.log)
    ensures c.hasMonitor && Up(s.g.fields) ==> (s.g.fields.watched <==> !StopFailedSinceStart(s.g.log))
    ensures NoStopFailed(s.g.log) && c.hasMonitor ==> (s.g.fields.watched <==> Up(s.g.fields))
  {
    ReachableHistory(c, s);
    if NoStopFailed(s.g.log) {
      NoStopFailedSince(s.g.log);
    }
  }

  lemma ReachableStep(c: Config, s: State, a: Action)
    requires Reachable(c, s) && Enabled(c, s, a)
    ensures Reachable(c, Do(c, s, a))
  {
    var ss, acts :| IsRun(c, ss, acts) && ss[|acts|] == s;
    var rs, bs := ss + [Do(c, s, a)], acts + [a];
    forall i | 0 <= i < |bs| ensures IsStep(c, rs, bs, i) {
      if i < |acts| { assert IsStep(c, ss, acts, i); }
    }
    assert IsRun(c, rs, bs) && rs[|bs|] == Do(c, s, a);
  }

  lemma InitReachable(c: Config)
    ensures Reachable(c, INIT)
  {
    var ss: seq<State>, acts: seq<Action> := [INIT], [];
    assert IsRun(c, ss, acts) && ss[|acts|] == INIT;
  }

  /** A first connection arrives and begins a start attempt. */
  lemma Arrives(c: Config) returns (s: State)
    ensures Reachable(c, s) && s.threads == [Starter(Tcp, Chan(0), InStart)] && s.g.fields.active == 1
  {
    InitReachable(c);
    ReachableStep(c, INIT, Spawn(Accepted(Tcp)));
    var s1 := Do(c, INIT, Spawn(Accepted(Tcp)));
    ReachableStep(c, s1, Run(0, Go));
    var s2 := Do(c, s1, Run(0, Go));
    ReachableStep(c, s2, Run(0, Go));
    s := Do(c, s2, Run(0, Go));
  }

  /** Start returns and the probe succeeds. */
  lemma Probed(c: Config, s0: State) returns (s: State)
    requires c.hasProbe && Reachable(c, s0) && s0.threads == [Starter(Tcp, Chan(0), InStart)]
    ensures Reachable(c, s) && s.threads == [Starter(Tcp, Chan(0), Finished(Success))] && s.g == s0.g
  {
    ReachableStep(c, s0, Run(0, Go));
    var s1 := Do(c, s0, Run(0, Go));
    assert s1.threads == [Starter(Tcp, Chan(0), Probing)] && s1.g == s0.g;
    ReachableStep(c, s1, Run(0, Go));
    s := Do(c, s1, Run(0, Go));
  }

  /** The result is published. */
  lemma Published(c: Config, s0: State) returns (s: State)
    requires c.hasMonitor && Reachable(c, s0) && s0.threads == [Starter(Tcp, Chan(0), Finished(Success))]
    requires s0.g.fields.active == 1
    ensures Reachable(c, s) && s.threads == [Ready(Tcp)] && Up(s.g.fields) && s.g.fields.watched
    ensures s.g.fields.active == 1 && !s.g.fields.starting
  {
    ReachableInv(c, s0);
    assert ThreadOk(s0.g, s0.threads[0]);
    ReachableStep(c, s0, Run(0, Go));
    s := Do(c, s0, Run(0, Go));
  }

  /** A state in which one connection has started the unit and gone again. */
  lemma ServedOnce(c: Config) returns (s: State)
    requires c.hasProbe && c.hasMonitor
    ensures Reachable(c, s) && s.threads == [Done] && Up(s.g.fields) && s.g.fields.watched && s.g.fields.active == 0
    ensures !s.g.fields.starting && s.g.now == s.g.fields.lastActive
  {
    var s0 := Arrives(c);
    var s1 := Probed(c, s0);
    var s2 := Published(c, s1);
    ReachableStep(c, s2, Run(0, Fail));
    var s3 := Do(c, s2, Run(0, Fail));
    assert s3.threads == [Closing(End, true)] && s3.g == s2.g;
    ReachableStep(c, s3, Run(0, Go));
    s := Do(c, s3, Run(0, Go));
  }

  /** "Running means watched" is false without the proviso: after a failed idle stop the unit
      stays up, not being stopped, with no watch. */
  lemma FailedStopLeavesUnwatched(c: Config) returns (s: State)
    requires c.hasProbe && c.hasMonitor
    ensures Reachable(c, s) && Up(s.g.fields) && !s.g.fields.watched
  {
    var s0 := ServedOnce(c);
    ReachableStep(c, s0, Advance(c.idleTimeout));
    var s1 := Do(c, s0, Advance(c.idleTimeout));
    ReachableStep(c, s1, Spawn(IdleTick));
    var s2 := Do(c, s1, Spawn(IdleTick));
    assert s2.threads == [Done, IdleTick] && ShouldStop(c, s2.g.fields, s2.g.now);
    ReachableStep(c, s2, Run(1, Go));
    var s3 := Do(c, s2, Run(1, Go));
    var ch := s3.g.fields.stopWait;
    assert s3.threads == [Done, IdleStop(ch)];
    ReachableStep(c, s3, Run(1, Fail));
    var s4 := Do(c, s3, Run(1, Fail));
    assert s4.threads == [Done, IdleTail(ch, false)];
    ReachableStep(c, s4, Run(1, Go));
    s := Do(c, s4, Run(1, Go));
  }
}
