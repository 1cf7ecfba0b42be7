/**
 The inductive invariant of the socket-activation protocol.

 Each thread's claim about the shared state (`ThreadOk`) is shown to be
 established by its own steps and kept by everybody else's; sums over the threads
 tie the flags to their owners and the connection count to its holders.
 */
module ActivatorInvariant {

  import opened Counting
  import opened ActivatorFields
  import opened UdpSessions
  import opened ActivatorProtocol

  function B(b: bool): nat { if b then 1 else 0 }

  // ---- what a thread holds

  /** How many counted connections the thread still has to release. */
  function Held(pc: Pc): nat {
    match pc
    case Opened(_) => 1
    case AwaitStop(_, _) => 1
    case AwaitStart(_, _) => 1
    case Woken(_, _) => 1
    case Starter(_, _, _) => 1
    case Ready(_) => 1
    case Proxying => 1
    case UdpDialed(_, _) => 1
    case Closing(_, _) => 1
    case Releasing(todo, _) => |todo|
    case _ => 0
  }

  /** Session `sid` removed from the table by this thread and not yet released. */
  function Pending(sid: nat): Pc -> nat {
    (pc: Pc) => if pc.Releasing? then Holds(pc.todo, sid) else 0
  }

  function OwnsStart(pc: Pc): nat { B(pc.Starter?) }

  function OwnsStop(pc: Pc): nat { B(pc.IdleStop? || pc.IdleClear? || pc.IdleTail?) }

  /** Inside a Start or Stop call of the unit controller. */
  predicate InCall(pc: Pc) {
    (pc.Starter? && (pc.phase.InStart? || pc.phase.InFailStop?)) || pc.IdleStop?
  }

  // ---- the invariant

  predicate Up(f: Fields) { f.running && !f.stopping }

  /** While a waiter is counted there is an attempt, or the last one's result. */
  predicate Answered(f: Fields) { f.starting || f.running || f.startErr.Failure? }

  /** What a thread relies on at its program counter. */
  ghost predicate ThreadOk(g: Globals, pc: Pc) {
    var f := g.fields;
    match pc
    case AwaitStop(_, ch) => IsClosed(f.closes, ch) || (IsOpen(f.closes, ch) && f.stopping && f.stopWait == ch)
    case AwaitStart(_, ch) =>
      && !f.stopping
      && (IsClosed(f.closes, ch) || (IsOpen(f.closes, ch) && f.starting && f.startWait == ch))
      && (AttemptOk(ch) in g.log ==> f.running) && Answered(f)
    case Woken(_, ch) => !f.stopping && IsClosed(f.closes, ch) && (AttemptOk(ch) in g.log ==> f.running) && Answered(f)
    case Starter(_, ch, _) => f.starting && f.startWait == ch
    case Ready(_) => Up(f)
    case Proxying => Up(f)
    case UdpDialed(_, _) => Up(f)
    case Closing(_, up) => up ==> Up(f)
    case Releasing(todo, _) => todo != map[] ==> Up(f)
    case IdleStop(ch) => f.stopping && f.stopWait == ch && f.running
    case IdleClear(ch) => f.stopping && f.stopWait == ch && f.running
    case IdleTail(ch, stopped) =>
      f.stopping && f.stopWait == ch && f.running == !stopped && (!stopped ==> StopFail(ch) in g.log)
    case _ => true
  }

  ghost predicate ChannelsOk(g: Globals) {
    var f := g.fields;
    && (f.starting ==> IsOpen(f.closes, f.startWait))
    && (f.stopping ==> IsOpen(f.closes, f.stopWait))
    && (forall i | 0 <= i < |f.closes| :: f.closes[i] <= 1)
    && (forall i | 0 <= i < |f.closes| && f.closes[i] == 0 ::
         (f.starting && f.startWait == Chan(i)) || (f.stopping && f.stopWait == Chan(i)))
    && (forall ch | AttemptOk(ch) in g.log :: IsClosed(f.closes, ch))
  }

  ghost predicate GlobalOk(g: Globals) {
    var f := g.fields;
    && !(f.starting && f.running)
    && !(f.starting && f.stopping)
    && (f.starting ==> f.startErr.Success?)
    && (g.sessions != map[] ==> Up(f))
    && ChannelsOk(g)
  }

  /** The count is held by threads and by sessions in the table. */
  ghost predicate Conserved(g: Globals, ts: seq<Pc>) {
    g.fields.active == Sum(Held, ts) + |g.sessions|
  }

  /** Every session created is in the table, or pending, or released: once. */
  ghost predicate SessionsConserved(g: Globals, ts: seq<Pc>) {
    forall sid: nat {:trigger g.released[sid]} ::
      Holds(g.sessions, sid) + Sum(Pending(sid), ts) + g.released[sid] == B(sid < g.nextSid)
  }

  ghost predicate OwnersOk(g: Globals, ts: seq<Pc>) {
    && Sum(OwnsStart, ts) == B(g.fields.starting)
    && Sum(OwnsStop, ts) == B(g.fields.stopping)
  }

  ghost predicate Inv(s: State) {
    && GlobalOk(s.g)
    && Conserved(s.g, s.threads)
    && SessionsConserved(s.g, s.threads)
    && OwnersOk(s.g, s.threads)
    && forall t | 0 <= t < |s.threads| :: ThreadOk(s.g, s.threads[t])
  }

  // ---- local facts: one step of one thread

  /** What the sums give a stepping thread about the rest of the system. */
  ghost predicate Fits(g: Globals, pc: Pc) {
    && GlobalOk(g)
    && ThreadOk(g, pc)
    && g.fields.active >= Held(pc) + |g.sessions|
  }

  /** Only the count, the clocks, the sessions and the history of connections differ. */
  ghost predicate Quiet(g: Globals, h: Globals) {
    && h.fields == g.fields.(active := h.fields.active, lastActive := h.fields.lastActive)
    && (forall ch :: AttemptOk(ch) in h.log ==> AttemptOk(ch) in g.log)
    && (forall ch :: StopFail(ch) in g.log ==> StopFail(ch) in h.log)
  }

  /** The program counters whose step changes a flag or a channel. */
  predicate Loud(pc: Pc) {
    pc.Opened? || (pc.Starter? && pc.phase.Finished?) || IsIdle(pc)
  }

  lemma QuietStep(c: Config, g: Globals, pc: Pc, choice: Choice)
    requires CanStep(c, g, pc, choice) && !Loud(pc)
    ensures Quiet(g, Local(c, g, pc, choice).g)
  {
    if IsSession(pc) {
    } else {
    }
  }

  lemma LocalGlobal(c: Config, g: Globals, pc: Pc, choice: Choice)
    requires CanStep(c, g, pc, choice) && Fits(g, pc)
    ensures GlobalOk(Local(c, g, pc, choice).g)
  {
    if !Loud(pc) {
      QuietStep(c, g, pc, choice);
      SessionsNeedUnit(c, g, pc, choice);
    } else if IsIdle(pc) {
      IdleGlobal(c, g, pc, choice);
    } else if pc.Starter? {
      StarterGlobal(c, g, pc, choice);
    } else {
      EnterGlobal(g, pc.role);
    }
  }

  lemma SessionsNeedUnit(c: Config, g: Globals, pc: Pc, choice: Choice)
    requires CanStep(c, g, pc, choice) && ThreadOk(g, pc) && !Loud(pc)
    ensures Local(c, g, pc, choice).g.sessions == map[] || g.sessions != map[] || Up(g.fields)
  {
    if IsSession(pc) {
    } else {
    }
  }

  lemma EnterGlobal(g: Globals, role: Role)
    requires GlobalOk(g)
    ensures GlobalOk(EnterStep(g, role).g)
  {
  }

  lemma StarterGlobal(c: Config, g: Globals, pc: Pc, choice: Choice)
    requires pc.Starter? && CanStep(c, g, pc, choice) && Fits(g, pc)
    ensures GlobalOk(StarterStep(c, g, pc.role, pc.ch, pc.phase, choice).g)
  {
  }

  lemma IdleGlobal(c: Config, g: Globals, pc: Pc, choice: Choice)
    requires IsIdle(pc) && CanStep(c, g, pc, choice) && Fits(g, pc)
    ensures GlobalOk(IdleStep(c, g, pc, choice).g)
  {
    if pc.IdleTick? {
    } else if pc.IdleTail? {
    } else {
      assert ChannelsOk(IdleStep(c, g, pc, choice).g);
    }
  }

  /** A step establishes the claim at its own next program counter. */
  lemma LocalThread(c: Config, g: Globals, pc: Pc, choice: Choice)
    requires CanStep(c, g, pc, choice) && Fits(g, pc)
    ensures var e := Local(c, g, pc, choice); ThreadOk(e.g, e.pc)
  {
    if IsIdle(pc) {
      IdleThread(c, g, pc, choice);
    } else if IsSession(pc) {
      SessionThread(c, g, pc, choice);
    } else {
      ClientThread(c, g, pc, choice);
    }
  }

  lemma IdleThread(c: Config, g: Globals, pc: Pc, choice: Choice)
    requires IsIdle(pc) && CanStep(c, g, pc, choice) && Fits(g, pc)
    ensures var e := IdleStep(c, g, pc, choice); ThreadOk(e.g, e.pc)
  {
  }

  lemma SessionThread(c: Config, g: Globals, pc: Pc, choice: Choice)
    requires IsSession(pc) && CanStep(c, g, pc, choice) && Fits(g, pc)
    ensures var e := SessionStep(c, g, pc, choice); ThreadOk(e.g, e.pc)
  {
  }

  lemma ClientThread(c: Config, g: Globals, pc: Pc, choice: Choice)
    requires !IsIdle(pc) && !IsSession(pc) && CanStep(c, g, pc, choice) && Fits(g, pc)
    ensures var e := ClientStep(c, g, pc, choice); ThreadOk(e.g, e.pc)
  {
    if pc.Opened? {
    } else if pc.Starter? {
    } else {
    }
  }

  /** Another thread's claim survives, given that both threads' holdings are counted. */
  lemma LocalOther(c: Config, g: Globals, pc: Pc, choice: Choice, other: Pc)
    requires CanStep(c, g, pc, choice) && Fits(g, pc) && ThreadOk(g, other)
    requires g.fields.active >= Held(pc) + Held(other) + |g.sessions|
    requires OwnsStart(pc) + OwnsStart(other) <= B(g.fields.starting)
    requires OwnsStop(pc) + OwnsStop(other) <= B(g.fields.stopping)
    ensures ThreadOk(Local(c, g, pc, choice).g, other)
  {
    if !Loud(pc) {
      QuietStep(c, g, pc, choice);
    } else if IsIdle(pc) {
      IdleOther(c, g, pc, choice, other);
    } else if pc.Starter? {
      StarterOther(c, g, pc, choice, other);
    } else {
      EnterOther(g, pc.role, other);
    }
  }

  lemma EnterOther(g: Globals, role: Role, other: Pc)
    requires GlobalOk(g) && ThreadOk(g, other)
    ensures ThreadOk(EnterStep(g, role).g, other)
  {
  }

  lemma StarterOther(c: Config, g: Globals, pc: Pc, choice: Choice, other: Pc)
    requires pc.Starter? && CanStep(c, g, pc, choice) && Fits(g, pc) && ThreadOk(g, other)
    requires OwnsStart(pc) + OwnsStart(other) <= B(g.fields.starting)
    ensures ThreadOk(StarterStep(c, g, pc.role, pc.ch, pc.phase, choice).g, other)
  {
  }

  lemma IdleOther(c: Config, g: Globals, pc: Pc, choice: Choice, other: Pc)
    requires IsIdle(pc) && CanStep(c, g, pc, choice) && Fits(g, pc) && ThreadOk(g, other)
    requires g.fields.active >= Held(other) + |g.sessions|
    requires OwnsStop(pc) + OwnsStop(other) <= B(g.fields.stopping)
    ensures ThreadOk(IdleStep(c, g, pc, choice).g, other)
  {
  }

  /** The change of the count matches the change of what the stepping thread and the table hold. */
  lemma LocalCount(c: Config, g: Globals, pc: Pc, choice: Choice)
    requires CanStep(c, g, pc, choice)
    ensures var e := Local(c, g, pc, choice);
            e.g.fields.active - Held(e.pc) - |e.g.sessions| == g.fields.active - Held(pc) - |g.sessions|
  {
    if IsSession(pc) {
      SessionCount(c, g, pc, choice);
    } else if pc.Starter? || pc.Opened? || IsIdle(pc) {
    } else {
      assert pc.UdpDialed? && pc.key !in g.sessions ==>
        |InsertSpec(g.sessions, pc.key, Session(g.nextSid, pc.seen))| == |g.sessions| + 1;
    }
  }

  lemma SessionCount(c: Config, g: Globals, pc: Pc, choice: Choice)
    requires CanStep(c, g, pc, choice) && IsSession(pc)
    ensures var e := SessionStep(c, g, pc, choice);
            e.g.fields.active - Held(e.pc) - |e.g.sessions| == g.fields.active - Held(pc) - |g.sessions|
  {
    if pc.Releasing? {
      if pc.todo != map[] { HoldsRemove(pc.todo, choice.key, 0); }
    } else if pc.CloseKeys? {
      CloseKeysCount(c, g, pc, choice);
    } else if pc.UdpArrive? {
      if pc.key in g.sessions { HoldsRefresh(g.sessions, pc.key, g.now, 0); }
    } else if pc.ReplySeen? {
      if pc.key in g.sessions { HoldsRefresh(g.sessions, pc.key, g.now, 0); }
    } else {
      var e := SessionStep(c, g, pc, choice);
      assert e.g.fields.active == g.fields.active && Held(pc) == 0;
      assert Held(e.pc) + |e.g.sessions| == |g.sessions|;
    }
  }

  lemma CloseKeysCount(c: Config, g: Globals, pc: Pc, choice: Choice)
    requires CanStep(c, g, pc, choice) && pc.CloseKeys?
    ensures var e := SessionStep(c, g, pc, choice);
            e.g.fields.active == g.fields.active && Held(e.pc) + |e.g.sessions| == |g.sessions|
  {
    if pc.keys != [] && pc.keys[0] in g.sessions {
      var key := pc.keys[0];
      HoldsRemove(g.sessions, key, 0);
      var m: Table := map[key := g.sessions[key]];
      assert m.Keys == {key};
      assert |m| == 1;
    }
  }

  lemma LocalOwners(c: Config, g: Globals, pc: Pc, choice: Choice)
    requires CanStep(c, g, pc, choice) && ThreadOk(g, pc)
    ensures var e := Local(c, g, pc, choice);
      && B(e.g.fields.starting) - OwnsStart(e.pc) == B(g.fields.starting) - OwnsStart(pc)
      && B(e.g.fields.stopping) - OwnsStop(e.pc) == B(g.fields.stopping) - OwnsStop(pc)
  {
    if IsIdle(pc) {
      IdleOwners(c, g, pc, choice);
    } else if pc.Opened? {
    } else if pc.Starter? {
      StarterOwners(c, g, pc, choice);
    } else {
      var e := Local(c, g, pc, choice);
      assert e.g.fields.starting == g.fields.starting && e.g.fields.stopping == g.fields.stopping;
      assert !e.pc.Starter? && !IsIdle(e.pc);
    }
  }

  lemma IdleOwners(c: Config, g: Globals, pc: Pc, choice: Choice)
    requires CanStep(c, g, pc, choice) && ThreadOk(g, pc) && IsIdle(pc)
    ensures var e := IdleStep(c, g, pc, choice);
      && e.g.fields.starting == g.fields.starting && !e.pc.Starter?
      && B(e.g.fields.stopping) - OwnsStop(e.pc) == B(g.fields.stopping) - OwnsStop(pc)
  {
  }

  lemma StarterOwners(c: Config, g: Globals, pc: Pc, choice: Choice)
    requires CanStep(c, g, pc, choice) && ThreadOk(g, pc) && pc.Starter?
    ensures var e := StarterStep(c, g, pc.role, pc.ch, pc.phase, choice);
      && B(e.g.fields.starting) - OwnsStart(e.pc) == B(g.fields.starting) - OwnsStart(pc)
      && e.g.fields.stopping == g.fields.stopping && !IsIdle(e.pc)
  {
  }

  /** Each session stays in exactly one of: the table, a thread's hands, the released ones. */
  lemma LocalSessions(c: Config, g: Globals, pc: Pc, choice: Choice, sid: nat)
    requires CanStep(c, g, pc, choice)
    requires Holds(g.sessions, sid) + Pending(sid)(pc) + g.released[sid] <= B(sid < g.nextSid)
    ensures var e := Local(c, g, pc, choice);
      Holds(e.g.sessions, sid) + Pending(sid)(e.pc) + e.g.released[sid] - B(sid < e.g.nextSid)
      == Holds(g.sessions, sid) + Pending(sid)(pc) + g.released[sid] - B(sid < g.nextSid)
  {
    var e := Local(c, g, pc, choice);
    if IsSession(pc) {
      SessionSessions(c, g, pc, choice, sid);
    } else if pc.UdpDialed? {
      if pc.key !in g.sessions { HoldsAdd(g.sessions, pc.key, Session(g.nextSid, pc.seen), sid); }
    } else {
      assert e.g.sessions == g.sessions && e.g.released == g.released && e.g.nextSid == g.nextSid;
      assert !e.pc.Releasing?;
    }
  }

  lemma SessionSessions(c: Config, g: Globals, pc: Pc, choice: Choice, sid: nat)
    requires CanStep(c, g, pc, choice) && IsSession(pc)
    ensures var e := SessionStep(c, g, pc, choice);
      && e.g.nextSid == g.nextSid
      && Holds(e.g.sessions, sid) + Pending(sid)(e.pc) + e.g.released[sid]
         == Holds(g.sessions, sid) + Pending(sid)(pc) + g.released[sid]
  {
    HoldsEmpty(sid);
    match pc
    case Releasing(todo, _) => if todo != map[] { HoldsRemove(todo, choice.key, sid); }
    case CloseKeys(keys) =>
      if keys != [] && keys[0] in g.sessions {
        HoldsRemove(g.sessions, keys[0], sid);
        HoldsAdd(map[], keys[0], g.sessions[keys[0]], sid);
      }
    case UdpArrive(key) => if key in g.sessions { HoldsRefresh(g.sessions, key, g.now, sid); }
    case ReplySeen(key, _) => if key in g.sessions { HoldsRefresh(g.sessions, key, g.now, sid); }
    case _ =>
  }

  /** The only goroutines a step spawns are reply loops, which hold nothing. */
  lemma LocalSpawns(c: Config, g: Globals, pc: Pc, choice: Choice)
    requires CanStep(c, g, pc, choice)
    ensures forall i | 0 <= i < |Local(c, g, pc, choice).spawned| :: Local(c, g, pc, choice).spawned[i].Reply?
  {
  }

  // ---- the whole system

  lemma {:induction false} WeightlessSum(f: Pc -> nat, ts: seq<Pc>)
    requires forall i | 0 <= i < |ts| :: f(ts[i]) == 0
    ensures Sum(f, ts) == 0
    decreases |ts|
  {
    if |ts| > 0 { WeightlessSum(f, ts[..|ts| - 1]); }
  }

  lemma SumStep(f: Pc -> nat, ts: seq<Pc>, t: nat, pc: Pc, spawned: seq<Pc>)
    requires t < |ts| && forall i | 0 <= i < |spawned| :: f(spawned[i]) == 0
    ensures Sum(f, ts[t := pc] + spawned) == Sum(f, ts) - f(ts[t]) + f(pc)
  {
    SumAppend(f, ts[t := pc], spawned);
    WeightlessSum(f, spawned);
    SumUpdate(f, ts, t, pc);
  }

  lemma TwoThreads(f: Pc -> nat, ts: seq<Pc>, t: nat, u: nat)
    requires t < |ts| && u < |ts| && t != u
    ensures f(ts[t]) + f(ts[u]) <= Sum(f, ts)
  {
    if t < u { SumAtLeastTwo(f, ts, t, u); } else { SumAtLeastTwo(f, ts, u, t); }
  }

  lemma ThreadFits(s: State, t: nat)
    requires Inv(s) && t < |s.threads|
    ensures Fits(s.g, s.threads[t])
  {
    SumAtLeast(Held, s.threads, t);
  }

  lemma RunKeepsThreads(c: Config, s: State, t: nat, choice: Choice)
    requires Inv(s) && Enabled(c, s, Run(t, choice))
    ensures var r := Do(c, s, Run(t, choice));
            forall u | 0 <= u < |r.threads| :: ThreadOk(r.g, r.threads[u])
  {
    var pc := s.threads[t];
    var e := Local(c, s.g, pc, choice);
    var r := Do(c, s, Run(t, choice));
    ThreadFits(s, t);
    LocalSpawns(c, s.g, pc, choice);
    forall u | 0 <= u < |r.threads| ensures ThreadOk(r.g, r.threads[u]) {
      if u == t {
        LocalThread(c, s.g, pc, choice);
      } else if u < |s.threads| {
        TwoThreads(Held, s.threads, t, u);
        TwoThreads(OwnsStart, s.threads, t, u);
        TwoThreads(OwnsStop, s.threads, t, u);
        LocalOther(c, s.g, pc, choice, s.threads[u]);
      } else {
        assert r.threads[u] == e.spawned[u - |s.threads|];
      }
    }
  }

  lemma RunKeepsSums(c: Config, s: State, t: nat, choice: Choice)
    requires Inv(s) && Enabled(c, s, Run(t, choice))
    ensures var r := Do(c, s, Run(t, choice)); Conserved(r.g, r.threads) && OwnersOk(r.g, r.threads)
  {
    var pc := s.threads[t];
    var e := Local(c, s.g, pc, choice);
    LocalSpawns(c, s.g, pc, choice);
    LocalCount(c, s.g, pc, choice);
    LocalOwners(c, s.g, pc, choice);
    SumStep(Held, s.threads, t, e.pc, e.spawned);
    SumStep(OwnsStart, s.threads, t, e.pc, e.spawned);
    SumStep(OwnsStop, s.threads, t, e.pc, e.spawned);
  }

  lemma RunKeepsSession(c: Config, s: State, t: nat, choice: Choice, sid: nat)
    requires SessionsConserved(s.g, s.threads) && Enabled(c, s, Run(t, choice))
    ensures var r := Do(c, s, Run(t, choice));
            Holds(r.g.sessions, sid) + Sum(Pending(sid), r.threads) + r.g.released[sid] == B(sid < r.g.nextSid)
  {
    var pc := s.threads[t];
    var e := Local(c, s.g, pc, choice);
    assert s.g.released[sid] >= 0;
    LocalSpawns(c, s.g, pc, choice);
    SumAtLeast(Pending(sid), s.threads, t);
    LocalSessions(c, s.g, pc, choice, sid);
    SumStep(Pending(sid), s.threads, t, e.pc, e.spawned);
  }

  /** Every step of the system keeps the invariant. */
  lemma StepKeepsInv(c: Config, s: State, a: Action)
    requires Inv(s) && Enabled(c, s, a)
    ensures Inv(Do(c, s, a))
  {
    match a
    case Run(t, choice) =>
      ThreadFits(s, t);
      LocalGlobal(c, s.g, s.threads[t], choice);
      RunKeepsThreads(c, s, t, choice);
      RunKeepsSums(c, s, t, choice);
      forall sid: nat { RunKeepsSession(c, s, t, choice, sid); }
    case Spawn(pc) =>
      SpawnKeepsSums(s, pc);
    case Advance(_) =>
      IdlePassage(s, Do(c, s, a));
    case Cancel =>
      IdlePassage(s, Do(c, s, a));
  }

  lemma SpawnKeepsSums(s: State, pc: Pc)
    requires Inv(s) && CanSpawn(pc)
    ensures Inv(s.(threads := s.threads + [pc]))
  {
    var ts := s.threads + [pc];
    SumAppend(Held, s.threads, [pc]);
    SumAppend(OwnsStart, s.threads, [pc]);
    SumAppend(OwnsStop, s.threads, [pc]);
    WeightlessSum(Held, [pc]);
    WeightlessSum(OwnsStart, [pc]);
    WeightlessSum(OwnsStop, [pc]);
    forall sid: nat
      ensures Holds(s.g.sessions, sid) + Sum(Pending(sid), ts) + s.g.released[sid] == B(sid < s.g.nextSid)
    {
      assert s.g.released[sid] >= 0;
      SumAppend(Pending(sid), s.threads, [pc]);
      WeightlessSum(Pending(sid), [pc]);
    }
    assert forall t | 0 <= t < |ts| :: ts[t] == if t < |s.threads| then s.threads[t] else pc;
  }

  /** Time and cancellation change nothing the invariant reads. */
  lemma IdlePassage(s: State, r: State)
    requires Inv(s) && r.threads == s.threads
    requires r.g == s.g.(now := r.g.now, cancelled := r.g.cancelled)
    ensures Inv(r)
  {
    assert GlobalOk(r.g);
    forall sid: nat
      ensures Holds(r.g.sessions, sid) + Sum(Pending(sid), r.threads) + r.g.released[sid] == B(sid < r.g.nextSid)
    {
      assert s.g.released[sid] >= 0;
    }
    forall t | 0 <= t < |r.threads| ensures ThreadOk(r.g, r.threads[t]) {
      assert ThreadOk(s.g, s.threads[t]);
    }
  }

  lemma InitInv()
    ensures Inv(INIT)
  {
    forall sid: nat
      ensures Holds(INIT.g.sessions, sid) + Sum(Pending(sid), INIT.threads) + INIT.g.released[sid] == B(sid < INIT.g.nextSid)
    {
      HoldsEmpty(sid);
    }
  }

  /** The invariant holds in every state of every run. */
  lemma {:induction false} RunInv(c: Config, ss: seq<State>, acts: seq<Action>, i: nat)
    requires IsRun(c, ss, acts) && i < |ss|
    ensures Inv(ss[i])
  {
    if i == 0 {
      InitInv();
    } else {
      RunInv(c, ss, acts, i - 1);
      assert IsStep(c, ss, acts, i - 1);
      StepKeepsInv(c, ss[i - 1], acts[i - 1]);
    }
  }

  lemma ReachableInv(c: Config, s: State)
    requires Reachable(c, s)
    ensures Inv(s)
  {
    var ss, acts :| IsRun(c, ss, acts) && ss[|acts|] == s;
    RunInv(c, ss, acts, |acts|);
  }
}
