/**
 What the history of a run says about the activator: idle stops and the activity
 before them, the ledger of start attempts, the watch/unwatch discipline, and the
 bound on how long an idle unit stays up.
 */
module ActivatorHistory {

  import opened Counting
  import opened ActivatorFields
  import opened UdpSessions
  import opened ActivatorProtocol
  import opened ActivatorInvariant

  // ---- readings of the log

  predicate IsActivity(e: Event) { e.ConnOpen? || e.ConnClose? || e.Traffic? }

  function Opens(e: Event): nat { B(e.ConnOpen?) }
  function Closes(e: Event): nat { B(e.ConnClose?) }
  function Begun(e: Event): nat { B(e.AttemptBegin?) }
  function Failed(e: Event): nat { B(e.AttemptFail?) }
  function Stopped(e: Event): nat { B(e.StopOk?) }

  /** Every idle stop began with no connection open and all activity at least the
      idle timeout old. */
  ghost predicate StopsWereIdle(c: Config, log: seq<Event>) {
    forall j | 0 <= j < |log| && log[j].StopBegin? ::
      && Sum(Opens, log[..j]) == Sum(Closes, log[..j])
      && forall i | 0 <= i < j && IsActivity(log[i]) :: log[i].at + c.idleTimeout <= log[j].at
  }

  /** The last Watch or Unwatch of the log, if any, was a Watch. */
  predicate WatchLive(log: seq<Event>) {
    if |log| == 0 then false
    else if log[|log| - 1].Watch? then true
    else if log[|log| - 1].Unwatch? then false
    else WatchLive(log[..|log| - 1])
  }

  /** Between two Watch calls there is an Unwatch. */
  ghost predicate WatchesAlternate(log: seq<Event>) {
    forall i, j | 0 <= i < j < |log| && log[i].Watch? && log[j].Watch? ::
      exists k :: i < k < j && log[k].Unwatch?
  }

  /** The error of the last attempt, if it has failed. */
  function LastError(log: seq<Event>): Outcome {
    if |log| == 0 then Success
    else
      match log[|log| - 1]
      case AttemptBegin(_) => Success
      case AttemptOk(_) => Success
      case AttemptFail(_, e) => Failure(e)
      case _ => LastError(log[..|log| - 1])
  }

  predicate NoStopFailed(log: seq<Event>) {
    forall e <- log :: !e.StopFail?
  }

  /** An idle stop has failed since the last successful start. */
  predicate StopFailedSinceStart(log: seq<Event>) {
    if |log| == 0 then false
    else if log[|log| - 1].StopFail? then true
    else if log[|log| - 1].AttemptOk? then false
    else StopFailedSinceStart(log[..|log| - 1])
  }

  // ---- the history invariant

  ghost predicate TimesOk(g: Globals) {
    && g.fields.lastActive <= g.now && g.stopEnd <= g.now && g.lastCheck <= g.now
    && forall i | 0 <= i < |g.log| && IsActivity(g.log[i]) :: g.log[i].at <= g.fields.lastActive
  }

  ghost predicate LedgerOk(g: Globals) {
    && g.fields.active == Sum(Opens, g.log) - Sum(Closes, g.log)
    && Sum(Begun, g.log) == Sum(Failed, g.log) + Sum(Stopped, g.log) + B(g.fields.running) + B(g.fields.starting)
    && g.fields.startErr == LastError(g.log)
  }

  ghost predicate WatchOk(c: Config, g: Globals) {
    && g.fields.watched == WatchLive(g.log)
    && WatchesAlternate(g.log)
    && (g.fields.watched ==> Up(g.fields) && c.hasMonitor)
  }

  /** A unit that is up is watched unless an idle stop has failed since it was started. */
  ghost predicate Monitored(c: Config, g: Globals) {
    && (forall ch | StopFail(ch) in g.log :: ch.Chan? && ch.id < |g.fields.closes|)
    && (g.fields.stopping && StopFail(g.fields.stopWait) in g.log ==> StopFailedSinceStart(g.log))
    && (c.hasMonitor && Up(g.fields) ==> (g.fields.watched <==> !StopFailedSinceStart(g.log)))
  }

  ghost predicate Recorded(c: Config, g: Globals) {
    TimesOk(g) && StopsWereIdle(c, g.log) && LedgerOk(g) && WatchOk(c, g)
  }

  ghost predicate History(c: Config, g: Globals) {
    Recorded(c, g) && Monitored(c, g)
  }

  // ---- appending one event

  lemma SumSnoc(f: Event -> nat, log: seq<Event>, e: Event)
    ensures Sum(f, log + [e]) == Sum(f, log) + f(e)
  {
    assert (log + [e])[..|log|] == log;
  }

  lemma AppendStops(c: Config, log: seq<Event>, e: Event)
    requires StopsWereIdle(c, log)
    requires e.StopBegin? ==> Sum(Opens, log) == Sum(Closes, log)
    requires e.StopBegin? ==> forall i | 0 <= i < |log| && IsActivity(log[i]) :: log[i].at + c.idleTimeout <= e.at
    ensures StopsWereIdle(c, log + [e])
  {
    var l := log + [e];
    forall j | 0 <= j < |l| && l[j].StopBegin?
      ensures Sum(Opens, l[..j]) == Sum(Closes, l[..j])
      ensures forall i | 0 <= i < j && IsActivity(l[i]) :: l[i].at + c.idleTimeout <= l[j].at
    {
      assert l[..j] == log[..j];
      if j == |log| { assert log[..j] == log; }
    }
  }

  /** Once a Watch is no longer live, an Unwatch came after it. */
  lemma {:induction false} DeadWatch(log: seq<Event>, i: nat) returns (k: nat)
    requires i < |log| && log[i].Watch? && !WatchLive(log)
    ensures i < k < |log| && log[k].Unwatch?
    decreases |log|
  {
    if log[|log| - 1].Unwatch? {
      k := |log| - 1;
    } else {
      k := DeadWatch(log[..|log| - 1], i);
    }
  }

  lemma AppendWatch(log: seq<Event>, e: Event)
    requires WatchesAlternate(log) && (e.Watch? ==> !WatchLive(log))
    ensures WatchesAlternate(log + [e])
    ensures WatchLive(log + [e]) == (e.Watch? || (!e.Unwatch? && WatchLive(log)))
  {
    var l := log + [e];
    assert l[..|log|] == log;
    forall i, j | 0 <= i < j < |l| && l[i].Watch? && l[j].Watch?
      ensures exists k :: i < k < j && l[k].Unwatch?
    {
      if j == |log| {
        var k := DeadWatch(log, i);
        assert l[k].Unwatch?;
      } else {
        var k :| i < k < j && log[k].Unwatch?;
        assert l[k].Unwatch?;
      }
    }
  }

  // ---- one more event: what the fields must do for the history to stay in step

  /** `h` extends the log of `g` by `e`, and its counters move as `e` says. */
  ghost predicate Extends(c: Config, g: Globals, h: Globals, e: Event) {
    && h.log == g.log + [e]
    && h.now == g.now && h.stopEnd <= h.now && h.lastCheck <= h.now
    && (if IsActivity(e) then e.at == g.now && h.fields.lastActive == g.now else h.fields.lastActive == g.fields.lastActive)
    && h.fields.active == g.fields.active + Opens(e) - Closes(e)
    && B(h.fields.running) + B(h.fields.starting) - B(g.fields.running) - B(g.fields.starting)
       == Begun(e) - Failed(e) - Stopped(e)
    && h.fields.startErr == (if e.AttemptFail? then Failure(e.error)
                             else if e.AttemptBegin? || e.AttemptOk? then Success else g.fields.startErr)
    && (e.StopBegin? ==> g.fields.active == 0 && e.at - g.fields.lastActive >= c.idleTimeout)
  }

  /** The watch flag moves as `e` says. */
  ghost predicate WatchFollows(c: Config, g: Globals, h: Globals, e: Event) {
    && h.log == g.log + [e]
    && (e.Watch? ==> !g.fields.watched)
    && h.fields.watched == (e.Watch? || (!e.Unwatch? && g.fields.watched))
    && (h.fields.watched ==> Up(h.fields) && c.hasMonitor)
  }

  lemma ExtendTimes(c: Config, g: Globals, h: Globals, e: Event)
    requires TimesOk(g) && Extends(c, g, h, e)
    ensures TimesOk(h)
  {
  }

  lemma ExtendStops(c: Config, g: Globals, h: Globals, e: Event)
    requires StopsWereIdle(c, g.log) && TimesOk(g) && LedgerOk(g) && Extends(c, g, h, e)
    ensures StopsWereIdle(c, h.log)
  {
    AppendStops(c, g.log, e);
  }

  lemma ExtendLedger(c: Config, g: Globals, h: Globals, e: Event)
    requires LedgerOk(g) && Extends(c, g, h, e)
    ensures LedgerOk(h)
  {
    assert h.log[..|g.log|] == g.log;
    SumSnoc(Opens, g.log, e);
    SumSnoc(Closes, g.log, e);
    SumSnoc(Begun, g.log, e);
    SumSnoc(Failed, g.log, e);
    SumSnoc(Stopped, g.log, e);
  }

  lemma ExtendWatch(c: Config, g: Globals, h: Globals, e: Event)
    requires WatchOk(c, g) && WatchFollows(c, g, h, e)
    ensures WatchOk(c, h)
  {
    AppendWatch(g.log, e);
  }

  lemma AppendStopFailed(log: seq<Event>, e: Event)
    ensures StopFailedSinceStart(log + [e]) == (e.StopFail? || (!e.AttemptOk? && StopFailedSinceStart(log)))
  {
    assert (log + [e])[..|log|] == log;
  }

  lemma {:induction false} NoStopFailedSince(log: seq<Event>)
    requires NoStopFailed(log)
    ensures !StopFailedSinceStart(log)
    decreases |log|
  {
    if |log| > 0 {
      assert log[|log| - 1] in log;
      NoStopFailedSince(log[..|log| - 1]);
    }
  }

  lemma Extend(c: Config, g: Globals, h: Globals, e: Event)
    requires Recorded(c, g) && Extends(c, g, h, e) && WatchFollows(c, g, h, e)
    ensures Recorded(c, h)
  {
    ExtendTimes(c, g, h, e);
    ExtendStops(c, g, h, e);
    ExtendLedger(c, g, h, e);
    ExtendWatch(c, g, h, e);
  }

  // ---- one step of one thread

  lemma EnterHistory(c: Config, g: Globals, role: Role)
    requires GlobalOk(g) && Recorded(c, g)
    ensures Recorded(c, EnterStep(g, role).g)
  {
    var h := EnterStep(g, role).g;
    if EnterDecision(g.fields).BeginStart? {
      Extend(c, g, h, AttemptBegin(Chan(|g.fields.closes|)));
    } else {
      assert h.log == g.log;
    }
  }

  lemma StarterHistory(c: Config, g: Globals, pc: Pc, choice: Choice)
    requires pc.Starter? && CanStep(c, g, pc, choice) && Fits(g, pc) && Recorded(c, g)
    ensures Recorded(c, StarterStep(c, g, pc.role, pc.ch, pc.phase, choice).g)
  {
    var h := StarterStep(c, g, pc.role, pc.ch, pc.phase, choice).g;
    if !pc.phase.Finished? {
      assert h == g;
    } else if pc.phase.result.Failure? {
      Extend(c, g, h, AttemptFail(pc.ch, pc.phase.result.error));
    } else {
      AttemptOkHistory(c, g, pc.ch, FinishStartSpec(c, g.fields, pc.ch, Success));
    }
  }

  lemma AttemptOkHistory(c: Config, g: Globals, ch: Chan, f: Fields)
    requires g.fields.starting && !g.fields.running && !g.fields.stopping && Recorded(c, g)
    requires f == FinishStartSpec(c, g.fields, ch, Success)
    ensures Recorded(c, Set(g, f, [AttemptOk(ch)] + if c.hasMonitor then [Watch] else []))
  {
    var h := Set(g, f, [AttemptOk(ch)] + if c.hasMonitor then [Watch] else []);
    if c.hasMonitor {
      var m := g.(log := g.log + [AttemptOk(ch)], fields := g.fields.(startErr := Success));
      Extend(c, g, m, AttemptOk(ch));
      assert h.log == m.log + [Watch];
      Extend(c, m, h, Watch);
    } else {
      assert h.log == g.log + [AttemptOk(ch)];
      Extend(c, g, h, AttemptOk(ch));
    }
  }

  lemma StopBeginHistory(c: Config, g: Globals, f: Fields)
    requires g.fields.active >= 0 && ShouldStop(c, g.fields, g.now) && Recorded(c, g)
    requires f == IdleCheckSpec(c, g.fields, g.now)
    ensures var l := g.log + ([StopBegin(f.stopWait, g.now)] + if c.hasMonitor then [Unwatch] else []);
            Recorded(c, g.(fields := f, log := l, lastCheck := g.now))
  {
    var e := StopBegin(f.stopWait, g.now);
    var l := g.log + ([e] + if c.hasMonitor then [Unwatch] else []);
    var h := g.(fields := f, log := l, lastCheck := g.now);
    if c.hasMonitor {
      var m := g.(log := g.log + [e]);
      Extend(c, g, m, e);
      assert h.log == m.log + [Unwatch];
      Extend(c, m, h, Unwatch);
    } else {
      assert h.log == g.log + [e];
      Extend(c, g, h, e);
    }
  }

  lemma IdleTickHistory(c: Config, g: Globals, choice: Choice)
    requires CanStep(c, g, IdleTick, choice) && g.fields.active >= 0 && Recorded(c, g)
    ensures Recorded(c, IdleStep(c, g, IdleTick, choice).g)
  {
    if ShouldStop(c, g.fields, g.now) {
      StopBeginHistory(c, g, IdleCheckSpec(c, g.fields, g.now));
    }
  }

  lemma IdleHistory(c: Config, g: Globals, pc: Pc, choice: Choice)
    requires IsIdle(pc) && CanStep(c, g, pc, choice) && Fits(g, pc) && Recorded(c, g)
    ensures Recorded(c, IdleStep(c, g, pc, choice).g)
  {
    var h := IdleStep(c, g, pc, choice).g;
    match pc
    case IdleTick => IdleTickHistory(c, g, choice);
    case IdleStop(ch) => if choice == Fail { Extend(c, g, h, StopFail(ch)); }
    case IdleClear(ch) => Extend(c, g, h, StopOk(ch));
    case IdleTail(ch, stopped) => IdleTailHistory(c, g, h, ch, stopped);
  }

  lemma IdleTailHistory(c: Config, g: Globals, h: Globals, ch: Chan, stopped: bool)
    requires ThreadOk(g, IdleTail(ch, stopped)) && Recorded(c, g)
    requires h == g.(fields := IdleTailSpec(g.fields, ch), lastCheck := g.now, stopEnd := g.now)
    ensures Recorded(c, h)
  {
  }

  /** The ways a step that moves no flag touches the fields and the log. */
  predicate QuietChange(g: Globals, h: Globals) {
    && h.now == g.now && h.stopEnd == g.stopEnd && h.lastCheck == g.lastCheck
    && ((h.fields == g.fields && h.log == g.log)
        || (h.fields == ConnOpenedSpec(g.fields, g.now) && h.log == g.log + [ConnOpen(g.now)])
        || (h.fields == ConnClosedSpec(g.fields, g.now) && h.log == g.log + [ConnClose(g.now)])
        || (h.fields == MarkTrafficSpec(g.fields, g.now) && h.log == g.log + [Traffic(g.now)]))
  }

  lemma QuietShape(c: Config, g: Globals, pc: Pc, choice: Choice)
    requires !Loud(pc) && CanStep(c, g, pc, choice)
    ensures QuietChange(g, Local(c, g, pc, choice).g)
  {
    if IsSession(pc) {
    } else {
    }
  }

  lemma QuietHistory(c: Config, g: Globals, h: Globals)
    requires Recorded(c, g) && QuietChange(g, h)
    ensures Recorded(c, h)
  {
    if h.fields != g.fields || h.log != g.log {
      var e := if h.fields == ConnOpenedSpec(g.fields, g.now) then ConnOpen(g.now)
               else if h.fields == ConnClosedSpec(g.fields, g.now) then ConnClose(g.now)
               else Traffic(g.now);
      Extend(c, g, h, e);
    }
  }

  lemma StepKeepsRecord(c: Config, s: State, a: Action)
    requires Inv(s) && Recorded(c, s.g) && Enabled(c, s, a)
    ensures Recorded(c, Do(c, s, a).g)
  {
    if a.Run? {
      var pc := s.threads[a.t];
      ThreadFits(s, a.t);
      if !Loud(pc) {
        QuietShape(c, s.g, pc, a.choice);
        QuietHistory(c, s.g, Local(c, s.g, pc, a.choice).g);
      } else if IsIdle(pc) {
        IdleHistory(c, s.g, pc, a.choice);
      } else if pc.Starter? {
        StarterHistory(c, s.g, pc, a.choice);
      } else {
        EnterHistory(c, s.g, pc.role);
      }
    }
  }

  // ---- whether the unit is watched

  lemma EnterMonitored(c: Config, g: Globals, role: Role)
    requires Monitored(c, g)
    ensures Monitored(c, EnterStep(g, role).g)
  {
    AppendStopFailed(g.log, AttemptBegin(Chan(|g.fields.closes|)));
    assert g.log + [] == g.log;
  }

  lemma StarterMonitored(c: Config, g: Globals, pc: Pc, choice: Choice)
    requires pc.Starter? && CanStep(c, g, pc, choice) && Fits(g, pc) && Monitored(c, g)
    ensures Monitored(c, StarterStep(c, g, pc.role, pc.ch, pc.phase, choice).g)
  {
    if pc.phase.Finished? {
      var e := if pc.phase.result.Success? then AttemptOk(pc.ch) else AttemptFail(pc.ch, pc.phase.result.error);
      AppendStopFailed(g.log, e);
      AppendStopFailed(g.log + [e], Watch);
      assert g.log + [e] + [Watch] == g.log + [e, Watch];
      assert g.log + ([e] + []) == g.log + [e];
    }
  }

  lemma IdleMonitored(c: Config, g: Globals, pc: Pc, choice: Choice)
    requires IsIdle(pc) && CanStep(c, g, pc, choice) && Fits(g, pc) && WatchOk(c, g) && Monitored(c, g)
    ensures Monitored(c, IdleStep(c, g, pc, choice).g)
  {
    match pc
    case IdleTick =>
    case IdleStop(ch) => AppendStopFailed(g.log, StopFail(ch));
    case IdleClear(ch) => AppendStopFailed(g.log, StopOk(ch));
    case IdleTail(_, _) =>
  }

  lemma QuietMonitored(c: Config, g: Globals, h: Globals)
    requires Monitored(c, g) && QuietChange(g, h)
    ensures Monitored(c, h)
    ensures StopFailedSinceStart(h.log) == StopFailedSinceStart(g.log)
  {
    AppendStopFailed(g.log, ConnOpen(g.now));
    AppendStopFailed(g.log, ConnClose(g.now));
    AppendStopFailed(g.log, Traffic(g.now));
  }

  lemma StepKeepsMonitored(c: Config, s: State, a: Action)
    requires Inv(s) && History(c, s.g) && Enabled(c, s, a)
    ensures Monitored(c, Do(c, s, a).g)
  {
    if a.Run? {
      var pc := s.threads[a.t];
      ThreadFits(s, a.t);
      if !Loud(pc) {
        QuietShape(c, s.g, pc, a.choice);
        QuietMonitored(c, s.g, Local(c, s.g, pc, a.choice).g);
      } else if IsIdle(pc) {
        IdleMonitored(c, s.g, pc, a.choice);
      } else if pc.Starter? {
        StarterMonitored(c, s.g, pc, a.choice);
      } else {
        EnterMonitored(c, s.g, pc.role);
      }
    }
  }

  lemma StepKeepsHistory(c: Config, s: State, a: Action)
    requires Inv(s) && History(c, s.g) && Enabled(c, s, a)
    ensures History(c, Do(c, s, a).g)
  {
    StepKeepsRecord(c, s, a);
    StepKeepsMonitored(c, s, a);
  }

  lemma InitHistory(c: Config)
    ensures History(c, INIT.g)
  {
  }

  lemma {:induction false} RunHistory(c: Config, ss: seq<State>, acts: seq<Action>, i: nat)
    requires IsRun(c, ss, acts) && i < |ss|
    ensures History(c, ss[i].g)
  {
    if i == 0 {
      InitHistory(c);
    } else {
      RunInv(c, ss, acts, i - 1);
      RunHistory(c, ss, acts, i - 1);
      assert IsStep(c, ss, acts, i - 1);
      StepKeepsHistory(c, ss[i - 1], acts[i - 1]);
    }
  }

  // ---- how long an idle unit stays up

  /** Idle ticks are on time: unless the loop is inside a stop, the clock never
      runs past the tick that is due. */
  predicate OnTime(c: Config, s: State, a: Action) {
    a.Advance? ==> s.g.fields.stopping || s.g.now + a.d <= s.g.lastCheck + c.Interval()
  }

  ghost predicate IsOnTimeRun(c: Config, ss: seq<State>, acts: seq<Action>) {
    IsRun(c, ss, acts) && forall i | 0 <= i < |acts| :: OnTime(c, ss[i], acts[i])
  }

  ghost predicate IdleBound(c: Config, g: Globals) {
    && (g.fields.stopping || g.now <= g.lastCheck + c.Interval())
    && (Up(g.fields) && g.fields.active == 0 ==>
          && (g.lastCheck < g.fields.lastActive + c.idleTimeout || g.lastCheck <= g.stopEnd)
          && (!StopFailedSinceStart(g.log) ==> g.stopEnd <= g.fields.lastActive))
  }

  lemma QuietBound(c: Config, g: Globals, pc: Pc, choice: Choice)
    requires c.idleTimeout >= 1 && !Loud(pc) && CanStep(c, g, pc, choice) && History(c, g) && IdleBound(c, g)
    ensures IdleBound(c, Local(c, g, pc, choice).g)
  {
    QuietShape(c, g, pc, choice);
    QuietMonitored(c, g, Local(c, g, pc, choice).g);
  }

  lemma LoudBound(c: Config, g: Globals, pc: Pc, choice: Choice)
    requires c.idleTimeout >= 1 && Loud(pc) && CanStep(c, g, pc, choice) && Fits(g, pc) && History(c, g) && IdleBound(c, g)
    ensures IdleBound(c, Local(c, g, pc, choice).g)
  {
    if IsIdle(pc) {
      IdleStepBound(c, g, pc, choice);
    } else if pc.Starter? {
    } else {
    }
  }

  lemma IdleStepBound(c: Config, g: Globals, pc: Pc, choice: Choice)
    requires c.idleTimeout >= 1 && IsIdle(pc) && CanStep(c, g, pc, choice) && Fits(g, pc) && History(c, g) && IdleBound(c, g)
    ensures IdleBound(c, IdleStep(c, g, pc, choice).g)
  {
    match pc
    case IdleTick =>
    case IdleStop(ch) =>
    case IdleClear(ch) =>
    case IdleTail(ch, stopped) =>
  }

  lemma {:induction false} RunBound(c: Config, ss: seq<State>, acts: seq<Action>, i: nat)
    requires c.idleTimeout >= 1 && IsOnTimeRun(c, ss, acts) && i < |ss|
    ensures IdleBound(c, ss[i].g)
  {
    if i > 0 {
      var s, a := ss[i - 1], acts[i - 1];
      RunInv(c, ss, acts, i - 1);
      RunHistory(c, ss, acts, i - 1);
      RunBound(c, ss, acts, i - 1);
      assert IsStep(c, ss, acts, i - 1) && OnTime(c, s, a);
      if a.Run? {
        var pc := s.threads[a.t];
        ThreadFits(s, a.t);
        if Loud(pc) { LoudBound(c, s.g, pc, a.choice); } else { QuietBound(c, s.g, pc, a.choice); }
      }
    }
  }
}
