/**
 The socket-activation protocol as a transition system.

 Any number of threads run: TCP handlers, UDP datagram handlers, UDP reply loops,
 session expirers, the shutdown of the session table, and idle ticks.  A thread's
 program counter stands between two lock-protected sections; one step performs one
 section (or one external call).  `Local` is what a step does to the shared state
 and to its own program counter; `Do` is the step of the whole system.
 */
module ActivatorProtocol {

  import opened ActivatorFields
  import opened UdpSessions

  datatype Role = Tcp | Udp(key: string)

  /** Where the owner of a start attempt is inside startAndWait. */
  datatype Phase = InStart | Probing | InFailStop | Finished(result: Outcome)

  /** What follows a handler's connClosed. */
  datatype Next = End | Write(key: string)

  datatype Pc =
    // a client on its way through ensureRunning
    | Accepted(role: Role)                          // before connOpened
    | Opened(role: Role)                            // counted, at the loop head
    | AwaitStop(role: Role, ch: Chan)
    | AwaitStart(role: Role, ch: Chan)
    | Woken(role: Role, ch: Chan)                   // start channel received, flags not yet read
    | Starter(role: Role, ch: Chan, phase: Phase)
    | Ready(role: Role)                             // ensureRunning returned nil
    | Proxying
    | UdpDialed(key: string, seen: int)
    | Closing(next: Next, up: bool)                 // before connClosed; up: ensureRunning returned nil
    // UDP datagrams, replies, and session teardown
    | UdpArrive(key: string)
    | UdpMark(key: string)
    | UdpWrite(key: string)
    | Reply(key: string, sid: nat)
    | ReplySeen(key: string, sid: nat)
    | ReplyWrite(key: string, sid: nat)
    | ExpireStart
    | ExpireScan(at: int)
    | CloseAll
    | CloseKeys(keys: seq<string>)
    | Releasing(todo: Table, keys: seq<string>)     // removed from the table, not yet released
    // idle ticks
    | IdleTick
    | IdleStop(ch: Chan)                            // in the idle Stop call
    | IdleClear(ch: Chan)                           // Stop returned nil, running not yet cleared
    | IdleTail(ch: Chan, stopped: bool)             // stopping not yet cleared
    | Done

  /** How a step's nondeterminism is resolved. */
  datatype Choice = Go | Fail | Again | Pick(key: string) | Order(keys: seq<string>)

  /** History of the run. */
  datatype Event =
    | ConnOpen(at: int) | ConnClose(at: int) | Traffic(at: int)
    | AttemptBegin(ch: Chan) | AttemptOk(ch: Chan) | AttemptFail(ch: Chan, error: Error)
    | StopBegin(ch: Chan, at: int) | StopOk(ch: Chan) | StopFail(ch: Chan)
    | Watch | Unwatch

  /** Everything the threads share. `released`, `log`, `lastCheck` (time of the
      idle loop's last tick or return) and `stopEnd` (end of the last idle stop)
      are history. */
  datatype Globals = Globals(
    fields: Fields,
    sessions: Table, nextSid: nat,
    cancelled: bool, now: int,
    released: multiset<nat>, log: seq<Event>,
    lastCheck: int, stopEnd: int)

  datatype State = State(g: Globals, threads: seq<Pc>)

  const INIT := State(Globals(INITIAL, map[], 0, false, 0, multiset{}, [], 0, 0), [])

  /** Program counters with which goroutines begin. */
  predicate CanSpawn(pc: Pc) {
    pc == Accepted(Tcp) || pc.UdpArrive? || pc == ExpireStart || pc == CloseAll || pc == IdleTick
  }

  /** The outcomes a step can have in the current shared state. */
  predicate CanStep(c: Config, g: Globals, pc: Pc, choice: Choice) {
    match pc
    case AwaitStop(_, ch) => (choice == Go && IsClosed(g.fields.closes, ch)) || (choice == Fail && g.cancelled)
    case AwaitStart(_, ch) => (choice == Go && IsClosed(g.fields.closes, ch)) || (choice == Fail && g.cancelled)
    case Starter(_, _, InStart) => choice == Go || choice == Fail
    case Starter(_, _, Probing) => choice == Go || choice == Fail || choice == Again
    case Starter(_, _, InFailStop) => choice == Go
    case Ready(_) => choice == Go || choice == Fail
    case Proxying => choice == Go || choice == Again
    case UdpWrite(_) => choice == Go || choice == Fail
    case Reply(_, _) => (choice == Go && g.cancelled) || choice == Fail || choice == Again
    case ReplyWrite(_, _) => choice == Go || choice == Fail
    case ExpireScan(at) => choice.Order? && ListsStale(g.sessions, at, choice.keys)
    case Releasing(todo, _) => if todo == map[] then choice == Go else choice.Pick? && choice.key in todo
    case IdleStop(_) => choice == Go || choice == Fail
    case Done => false
    case _ => choice == Go
  }

  predicate IsIdle(pc: Pc) {
    pc.IdleTick? || pc.IdleStop? || pc.IdleClear? || pc.IdleTail?
  }

  predicate IsSession(pc: Pc) {
    pc.UdpArrive? || pc.UdpMark? || pc.UdpWrite? || pc.Reply? || pc.ReplySeen? || pc.ReplyWrite? ||
    pc.ExpireStart? || pc.ExpireScan? || pc.CloseAll? || pc.CloseKeys? || pc.Releasing?
  }

  datatype Effect = Effect(g: Globals, pc: Pc, spawned: seq<Pc>)

  function Set(g: Globals, f: Fields, events: seq<Event>): Globals {
    g.(fields := f, log := g.log + events)
  }

  /** The section at the head of ensureRunning's loop. */
  function EnterStep(g: Globals, role: Role): Effect {
    var f := EnterSpec(g.fields);
    match EnterDecision(g.fields)
    case WaitForStop(ch) => Effect(Set(g, f, []), AwaitStop(role, ch), [])
    case AlreadyUp => Effect(Set(g, f, []), Ready(role), [])
    case WaitForStart(ch) => Effect(Set(g, f, []), AwaitStart(role, ch), [])
    case BeginStart(ch) => Effect(Set(g, f, [AttemptBegin(ch)]), Starter(role, ch, InStart), [])
  }

  /** startAndWait, then the publication of its result. */
  function StarterStep(c: Config, g: Globals, role: Role, ch: Chan, phase: Phase, choice: Choice): Effect {
    match phase
    case InStart =>
      if choice == Fail then Effect(g, Starter(role, ch, Finished(Failure(StartFailed))), [])
      else if c.hasProbe then Effect(g, Starter(role, ch, Probing), [])
      else Effect(g, Starter(role, ch, Finished(Success)), [])
    case Probing =>
      if choice == Go then Effect(g, Starter(role, ch, Finished(Success)), [])
      else if choice == Again then Effect(g, Starter(role, ch, Probing), [])
      else if g.cancelled then Effect(g, Starter(role, ch, Finished(Failure(NotHealthy))), [])
      else Effect(g, Starter(role, ch, InFailStop), [])
    case InFailStop =>
      Effect(g, Starter(role, ch, Finished(Failure(NotHealthy))), [])
    case Finished(result) =>
      var f := FinishStartSpec(c, g.fields, ch, result);
      if result.Success? then
        Effect(Set(g, f, [AttemptOk(ch)] + if c.hasMonitor then [Watch] else []), Ready(role), [])
      else
        Effect(Set(g, f, [AttemptFail(ch, result.error)]), Closing(End, false), [])
  }

  /** A client thread from accept to connClosed. */
  function ClientStep(c: Config, g: Globals, pc: Pc, choice: Choice): Effect
    requires CanStep(c, g, pc, choice)
    requires !IsIdle(pc) && !IsSession(pc)
  {
    match pc
    case Accepted(role) => Effect(Set(g, ConnOpenedSpec(g.fields, g.now), [ConnOpen(g.now)]), Opened(role), [])
    case Opened(role) => EnterStep(g, role)
    case AwaitStop(role, _) => Effect(g, if choice == Go then Opened(role) else Closing(End, false), [])
    case AwaitStart(role, ch) => Effect(g, if choice == Go then Woken(role, ch) else Closing(End, false), [])
    case Woken(role, _) => Effect(g, if WokenResult(g.fields).Success? then Ready(role) else Closing(End, false), [])
    case Starter(role, ch, phase) => StarterStep(c, g, role, ch, phase, choice)
    case Ready(role) =>
      Effect(g, if choice == Fail then Closing(End, true)
                else if role.Tcp? then Proxying
                else UdpDialed(role.key, g.now), [])
    case Proxying =>
      if choice == Again then Effect(Set(g, MarkTrafficSpec(g.fields, g.now), [Traffic(g.now)]), Proxying, [])
      else Effect(g, Closing(End, true), [])
    case UdpDialed(key, seen) =>
      if key in g.sessions then Effect(g, Closing(Write(key), true), [])
      else Effect(g.(sessions := InsertSpec(g.sessions, key, Session(g.nextSid, seen)), nextSid := g.nextSid + 1),
                  UdpMark(key), [Reply(key, g.nextSid)])
    case Closing(next, _) =>
      Effect(Set(g, ConnClosedSpec(g.fields, g.now), [ConnClose(g.now)]),
             if next.End? then Done else UdpMark(next.key), [])
  }

  /** Datagrams, replies and session teardown. */
  function SessionStep(c: Config, g: Globals, pc: Pc, choice: Choice): Effect
    requires CanStep(c, g, pc, choice)
    requires IsSession(pc)
  {
    match pc
    case UdpArrive(key) =>
      if key in g.sessions
      then Effect(g.(sessions := TouchSpec(g.sessions, key, g.now)), UdpMark(key), [])
      else Effect(g, Accepted(Udp(key)), [])
    case UdpMark(key) => Effect(Set(g, MarkTrafficSpec(g.fields, g.now), [Traffic(g.now)]), UdpWrite(key), [])
    case UdpWrite(key) => Effect(g, if choice == Go then Done else CloseKeys([key]), [])
    case Reply(key, sid) =>
      if choice == Go then Effect(g, Done, [])
      else if choice == Fail then Effect(g, CloseKeys([key]), [])
      else Effect(Set(g, MarkTrafficSpec(g.fields, g.now), [Traffic(g.now)]), ReplySeen(key, sid), [])
    case ReplySeen(key, sid) =>
      Effect(g.(sessions := SeenSpec(g.sessions, key, sid, g.now)), ReplyWrite(key, sid), [])
    case ReplyWrite(key, sid) => Effect(g, if choice == Go then Reply(key, sid) else CloseKeys([key]), [])
    case ExpireStart => Effect(g, ExpireScan(g.now), [])
    case ExpireScan(_) => Effect(g, CloseKeys(choice.keys), [])
    case CloseAll => Effect(g.(sessions := map[]), Releasing(g.sessions, []), [])
    case CloseKeys(keys) =>
      if keys == [] then Effect(g, Done, [])
      else if keys[0] in g.sessions
      then Effect(g.(sessions := RemoveSpec(g.sessions, keys[0])), Releasing(map[keys[0] := g.sessions[keys[0]]], keys[1..]), [])
      else Effect(g, CloseKeys(keys[1..]), [])
    case Releasing(todo, keys) =>
      if todo == map[] then Effect(g, CloseKeys(keys), [])
      else Effect(Set(g, ConnClosedSpec(g.fields, g.now), [ConnClose(g.now)])
                  .(released := g.released + multiset{todo[choice.key].sid}),
                  Releasing(todo - {choice.key}, keys), [])
  }

  /** maybeStopIdle; its tail clears `running` and `stopping` in two sections. */
  function IdleStep(c: Config, g: Globals, pc: Pc, choice: Choice): Effect
    requires CanStep(c, g, pc, choice)
    requires IsIdle(pc)
  {
    match pc
    case IdleTick =>
      var f := IdleCheckSpec(c, g.fields, g.now);
      if ShouldStop(c, g.fields, g.now) then
        Effect(Set(g, f, [StopBegin(f.stopWait, g.now)] + if c.hasMonitor then [Unwatch] else []).(lastCheck := g.now),
               IdleStop(f.stopWait), [])
      else
        Effect(g.(lastCheck := g.now), Done, [])
    case IdleStop(ch) =>
      if choice == Go then Effect(g, IdleClear(ch), [])
      else Effect(Set(g, g.fields, [StopFail(ch)]), IdleTail(ch, false), [])
    case IdleClear(ch) => Effect(Set(g, IdleClearSpec(g.fields), [StopOk(ch)]), IdleTail(ch, true), [])
    case IdleTail(ch, _) =>
      Effect(g.(fields := IdleTailSpec(g.fields, ch), lastCheck := g.now, stopEnd := g.now), Done, [])
  }

  function Local(c: Config, g: Globals, pc: Pc, choice: Choice): Effect
    requires CanStep(c, g, pc, choice)
  {
    if IsIdle(pc) then IdleStep(c, g, pc, choice)
    else if IsSession(pc) then SessionStep(c, g, pc, choice)
    else ClientStep(c, g, pc, choice)
  }

  /** Steps of the whole system: a thread steps, a goroutine begins, time passes,
      or the serving context is cancelled. */
  datatype Action = Run(t: nat, choice: Choice) | Spawn(pc: Pc) | Advance(d: nat) | Cancel

  predicate Enabled(c: Config, s: State, a: Action) {
    match a
    case Run(t, choice) => t < |s.threads| && CanStep(c, s.g, s.threads[t], choice)
    case Spawn(pc) => CanSpawn(pc)
    case Advance(_) => true
    case Cancel => true
  }

  function Do(c: Config, s: State, a: Action): State
    requires Enabled(c, s, a)
  {
    match a
    case Run(t, choice) =>
      var e := Local(c, s.g, s.threads[t], choice);
      State(e.g, s.threads[t := e.pc] + e.spawned)
    case Spawn(pc) => s.(threads := s.threads + [pc])
    case Advance(d) => s.(g := s.g.(now := s.g.now + d))
    case Cancel => s.(g := s.g.(cancelled := true))
  }

  ghost predicate IsStep(c: Config, ss: seq<State>, acts: seq<Action>, i: nat)
    requires |ss| == |acts| + 1 && i < |acts|
  {
    Enabled(c, ss[i], acts[i]) && ss[i + 1] == Do(c, ss[i], acts[i])
  }

  /** A run: states joined by enabled actions, from the initial state. */
  ghost predicate IsRun(c: Config, ss: seq<State>, acts: seq<Action>) {
    && |ss| == |acts| + 1
    && ss[0] == INIT
    && forall i | 0 <= i < |acts| :: IsStep(c, ss, acts, i)
  }

  /** Reachable in some run. */
  ghost predicate Reachable(c: Config, s: State) {
    exists ss, acts :: IsRun(c, ss, acts) && ss[|acts|] == s
  }
}
