/**
 What every run of the activator's UDP side guarantees: an open session has a reply loop or
 is being closed, whoever must close a session does, and only a session that has been
 silent for 30 seconds expires.
 */
module UdpTheorems {

  import opened ActivatorFields
  import opened UdpSessions
  import opened ActivatorProtocol
  import opened ActivatorInvariant
  import opened ActivatorOutcomes

  // ---- every open session is served

  /** The thread reads the replies of that session, or is going to close that key. */
  predicate Serves(pc: Pc, key: string, sid: nat) {
    || pc == Reply(key, sid) || pc == ReplySeen(key, sid) || pc == ReplyWrite(key, sid)
    || (pc.CloseKeys? && key in pc.keys) || (pc.Releasing? && key in pc.keys)
  }

  ghost predicate IsServed(s: State, key: string, sid: nat) {
    exists t :: 0 <= t < |s.threads| && Serves(s.threads[t], key, sid)
  }

  /** Unless serving has been cancelled. */
  ghost predicate SessionsServed(s: State) {
    s.g.cancelled || forall key <- s.g.sessions :: IsServed(s, key, s.g.sessions[key].sid)
  }

  /** A session in the table after a step was there before, or the step has created it. */
  lemma SessionFrom(c: Config, g: Globals, pc: Pc, choice: Choice, key: string)
    requires CanStep(c, g, pc, choice) && key in Local(c, g, pc, choice).g.sessions
    ensures var e := Local(c, g, pc, choice); var sid := e.g.sessions[key].sid;
      || (key in g.sessions && g.sessions[key].sid == sid)
      || (sid == g.nextSid && e.spawned == [Reply(key, sid)])
  {
    if IsIdle(pc) {
    } else if IsSession(pc) {
    } else {
    }
  }

  lemma ServerGoesOn(c: Config, g: Globals, pc: Pc, choice: Choice, key: string, sid: nat)
    requires CanStep(c, g, pc, choice) && Serves(pc, key, sid) && !g.cancelled
    ensures var e := Local(c, g, pc, choice);
      Serves(e.pc, key, sid) || key !in e.g.sessions
  {
  }

  lemma StepServed(c: Config, s: State, a: Action)
    requires SessionsServed(s) && Enabled(c, s, a)
    ensures SessionsServed(Do(c, s, a))
  {
    var r := Do(c, s, a);
    if !r.g.cancelled {
      forall key <- r.g.sessions ensures IsServed(r, key, r.g.sessions[key].sid) {
        OneServed(c, s, a, key);
      }
    }
  }

  lemma OneServed(c: Config, s: State, a: Action, key: string)
    requires SessionsServed(s) && Enabled(c, s, a) && !Do(c, s, a).g.cancelled && key in Do(c, s, a).g.sessions
    ensures IsServed(Do(c, s, a), key, Do(c, s, a).g.sessions[key].sid)
  {
    var r := Do(c, s, a);
    var sid := r.g.sessions[key].sid;
    if a.Run? { SessionFrom(c, s.g, s.threads[a.t], a.choice, key); }
    if key in s.g.sessions && s.g.sessions[key].sid == sid {
      StillCancelled(c, s, a);
      var t :| 0 <= t < |s.threads| && Serves(s.threads[t], key, sid);
      OtherThreads(c, s, a, t);
      if a.Run? && a.t == t { ServerGoesOn(c, s.g, s.threads[t], a.choice, key, sid); }
      assert Serves(r.threads[t], key, sid);
    } else {
      assert r.threads[|s.threads|] == Reply(key, sid);
    }
  }

  lemma StillCancelled(c: Config, s: State, a: Action)
    requires Enabled(c, s, a) && !Do(c, s, a).g.cancelled
    ensures !s.g.cancelled
  {
    if a.Run? {
      var pc := s.threads[a.t];
      if IsIdle(pc) {
      } else if IsSession(pc) {
      } else {
      }
    }
  }

  /** Until serving is cancelled, every session in the table has a reply loop, or a thread that
      is about to close its key: no reply loop ends and leaves its session behind. */
  lemma EverySessionIsServed(c: Config, ss: seq<State>, acts: seq<Action>, n: nat, key: string)
    requires IsRun(c, ss, acts) && n < |ss| && !ss[n].g.cancelled && key in ss[n].g.sessions
    ensures IsServed(ss[n], key, ss[n].g.sessions[key].sid)
  {
    RunServed(c, ss, acts, n);
  }

  lemma {:induction false} RunServed(c: Config, ss: seq<State>, acts: seq<Action>, n: nat)
    requires IsRun(c, ss, acts) && n < |ss|
    ensures SessionsServed(ss[n])
  {
    if n > 0 {
      RunServed(c, ss, acts, n - 1);
      assert IsStep(c, ss, acts, n - 1);
      StepServed(c, ss[n - 1], acts[n - 1]);
    }
  }

  // ---- who must close a session does

  /** Leaving `pc` so obliges the thread to close what the table holds at `key`: a write to the
      backend or to the client failed, the backend cannot be read, the session was silent for
      30 seconds when the expirer looked, or everything is closed. */
  predicate MustClose(g: Globals, pc: Pc, choice: Choice, key: string) {
    || (pc == UdpWrite(key) && choice == Fail)
    || (pc.Reply? && pc.key == key && choice == Fail)
    || (pc.ReplyWrite? && pc.key == key && choice == Fail)
    || (pc.ExpireScan? && key in g.sessions && pc.at - g.sessions[key].lastSeen >= 30_000_000_000)
    || (pc == CloseAll && key in g.sessions)
  }

  predicate Closing(pc: Pc, key: string) {
    (pc.CloseKeys? || pc.Releasing?) && key in pc.keys
  }

  lemma MustCloseStep(c: Config, g: Globals, pc: Pc, choice: Choice, key: string)
    requires CanStep(c, g, pc, choice) && MustClose(g, pc, choice, key)
    ensures var e := Local(c, g, pc, choice); Closing(e.pc, key) || key !in e.g.sessions
  {
  }

  lemma ClosingStep(c: Config, g: Globals, pc: Pc, choice: Choice, key: string)
    requires CanStep(c, g, pc, choice) && Closing(pc, key)
    ensures var e := Local(c, g, pc, choice); Closing(e.pc, key) || key !in e.g.sessions
  {
  }

  /** The key has been without a session at some state after `k`, up to `n`. */
  ghost predicate WasGone(ss: seq<State>, k: nat, n: nat, key: string)
    requires n < |ss|
  {
    exists i: nat :: k < i <= n && key !in ss[i].g.sessions
  }

  lemma {:induction false} ClosingOn(c: Config, ss: seq<State>, acts: seq<Action>, k: nat, t: nat, pc: Pc, choice: Choice, n: nat, key: string)
    requires IsRun(c, ss, acts) && k < n < |ss| && Leaves(ss, acts, k, t, pc, choice) && MustClose(ss[k].g, pc, choice, key)
    ensures t < |ss[n].threads| && (WasGone(ss, k, n, key) || Closing(ss[n].threads[t], key))
    decreases n
  {
    var s, a := ss[n - 1], acts[n - 1];
    assert IsStep(c, ss, acts, n - 1);
    if n == k + 1 {
      OtherThreads(c, s, a, t);
      MustCloseStep(c, s.g, pc, choice, key);
    } else {
      ClosingOn(c, ss, acts, k, t, pc, choice, n - 1, key);
      OtherThreads(c, s, a, t);
      if WasGone(ss, k, n - 1, key) {
        assert WasGone(ss, k, n, key);
      } else if a.Run? && a.t == t {
        ClosingStep(c, s.g, s.threads[t], a.choice, key);
      }
    }
  }

  /** Once out of the table a session does not return. */
  lemma {:induction false} GoneStays(c: Config, ss: seq<State>, acts: seq<Action>, i: nat, n: nat, key: string, sid: nat)
    requires IsRun(c, ss, acts) && i <= n < |ss| && sid < ss[i].g.nextSid
    requires key in ss[i].g.sessions ==> ss[i].g.sessions[key].sid != sid
    ensures sid < ss[n].g.nextSid && (key in ss[n].g.sessions ==> ss[n].g.sessions[key].sid != sid)
    decreases n
  {
    if i < n {
      GoneStays(c, ss, acts, i, n - 1, key, sid);
      assert IsStep(c, ss, acts, n - 1);
      SidsGrow(c, ss[n - 1], acts[n - 1]);
      if acts[n - 1].Run? && key in ss[n].g.sessions {
        SessionFrom(c, ss[n - 1].g, ss[n - 1].threads[acts[n - 1].t], acts[n - 1].choice, key);
      }
    }
  }

  lemma SidsGrow(c: Config, s: State, a: Action)
    requires Enabled(c, s, a)
    ensures s.g.nextSid <= Do(c, s, a).g.nextSid
  {
    if a.Run? {
      var pc := s.threads[a.t];
      if IsIdle(pc) {
      } else if IsSession(pc) {
      } else {
      }
    }
  }

  lemma {:induction false} SidBound(c: Config, ss: seq<State>, acts: seq<Action>, n: nat, key: string)
    requires IsRun(c, ss, acts) && n < |ss| && key in ss[n].g.sessions
    ensures ss[n].g.sessions[key].sid < ss[n].g.nextSid
  {
    if n > 0 {
      assert IsStep(c, ss, acts, n - 1);
      SidsGrow(c, ss[n - 1], acts[n - 1]);
      if acts[n - 1].Run? { InsertGrows(c, ss[n - 1].g, ss[n - 1].threads[acts[n - 1].t], acts[n - 1].choice, key); }
      if key in ss[n - 1].g.sessions { SidBound(c, ss, acts, n - 1, key); }
    }
  }

  lemma InsertGrows(c: Config, g: Globals, pc: Pc, choice: Choice, key: string)
    requires CanStep(c, g, pc, choice) && key in Local(c, g, pc, choice).g.sessions
    ensures var e := Local(c, g, pc, choice);
      (key in g.sessions && e.g.sessions[key].sid == g.sessions[key].sid) || e.g.sessions[key].sid < e.g.nextSid
  {
    if IsIdle(pc) {
    } else if IsSession(pc) {
    } else {
    }
  }

  /** When a thread that had to close a key has ended, the key has been without a session in
      between, and the session it had then is not in the table. */
  lemma ClosedByTheEnd(c: Config, ss: seq<State>, acts: seq<Action>, k: nat, t: nat, pc: Pc, choice: Choice, n: nat, key: string)
    requires IsRun(c, ss, acts) && k < n < |ss| && Leaves(ss, acts, k, t, pc, choice) && MustClose(ss[k].g, pc, choice, key)
    requires t < |ss[n].threads| && ss[n].threads[t] == Done
    ensures WasGone(ss, k, n, key)
    ensures key in ss[k].g.sessions && key in ss[n].g.sessions ==> ss[n].g.sessions[key].sid != ss[k].g.sessions[key].sid
  {
    ClosingOn(c, ss, acts, k, t, pc, choice, n, key);
    var i: nat :| k < i <= n && key !in ss[i].g.sessions;
    if key in ss[k].g.sessions {
      SidBound(c, ss, acts, k, key);
      SidsGrowAlong(c, ss, acts, k, i);
      GoneStays(c, ss, acts, i, n, key, ss[k].g.sessions[key].sid);
    }
  }

  lemma {:induction false} SidsGrowAlong(c: Config, ss: seq<State>, acts: seq<Action>, k: nat, n: nat)
    requires IsRun(c, ss, acts) && k <= n < |ss|
    ensures ss[k].g.nextSid <= ss[n].g.nextSid
    decreases n
  {
    if k < n {
      SidsGrowAlong(c, ss, acts, k, n - 1);
      assert IsStep(c, ss, acts, n - 1);
      SidsGrow(c, ss[n - 1], acts[n - 1]);
    }
  }

  // ---- expiry

  /** Leaving `pc` so is traffic of the session `sid` at `key`: a datagram for it, or a reply. */
  predicate Touches(g: Globals, pc: Pc, key: string, sid: nat) {
    || (pc == UdpArrive(key) && key in g.sessions && g.sessions[key].sid == sid)
    || (pc == ReplySeen(key, sid) && key in g.sessions && g.sessions[key].sid == sid)
  }

  /** The session at `key`, if it is `sid`, has been seen at `at` or later. */
  predicate SeenSince(g: Globals, key: string, sid: nat, at: int) {
    key in g.sessions && g.sessions[key].sid == sid ==> g.sessions[key].lastSeen >= at
  }

  lemma TouchSeen(c: Config, g: Globals, pc: Pc, choice: Choice, key: string, sid: nat)
    requires CanStep(c, g, pc, choice) && Touches(g, pc, key, sid)
    ensures SeenSince(Local(c, g, pc, choice).g, key, sid, g.now)
  {
  }

  lemma SeenStep(c: Config, g: Globals, pc: Pc, choice: Choice, key: string, sid: nat, at: int)
    requires CanStep(c, g, pc, choice) && SeenSince(g, key, sid, at) && at <= g.now && sid < g.nextSid
    ensures SeenSince(Local(c, g, pc, choice).g, key, sid, at)
  {
    if IsIdle(pc) {
    } else if IsSession(pc) {
    } else {
    }
  }

  lemma ClockStays(c: Config, g: Globals, pc: Pc, choice: Choice)
    requires CanStep(c, g, pc, choice)
    ensures Local(c, g, pc, choice).g.now == g.now
  {
    if IsIdle(pc) {
    } else if IsSession(pc) {
    } else {
    }
  }

  lemma {:induction false} SeenAlong(c: Config, ss: seq<State>, acts: seq<Action>, j: nat, n: nat, key: string, sid: nat, at: int)
    requires IsRun(c, ss, acts) && j <= n < |ss|
    requires SeenSince(ss[j].g, key, sid, at) && at <= ss[j].g.now && sid < ss[j].g.nextSid
    ensures SeenSince(ss[n].g, key, sid, at) && at <= ss[n].g.now && sid < ss[n].g.nextSid
    decreases n
  {
    if j < n {
      SeenAlong(c, ss, acts, j, n - 1, key, sid, at);
      assert IsStep(c, ss, acts, n - 1);
      SidsGrow(c, ss[n - 1], acts[n - 1]);
      if acts[n - 1].Run? {
        SeenStep(c, ss[n - 1].g, ss[n - 1].threads[acts[n - 1].t], acts[n - 1].choice, key, sid, at);
        ClockStays(c, ss[n - 1].g, ss[n - 1].threads[acts[n - 1].t], acts[n - 1].choice);
      }
    }
  }

  /** Where a dialed session's first sighting comes from. */
  lemma {:induction false} DialedAt(c: Config, ss: seq<State>, acts: seq<Action>, n: nat, t: nat) returns (d: nat)
    requires IsRun(c, ss, acts) && n < |ss| && t < |ss[n].threads| && ss[n].threads[t].UdpDialed?
    ensures d < n && Leaves(ss, acts, d, t, Ready(Udp(ss[n].threads[t].key)), Go) && ss[d].g.now == ss[n].threads[t].seen <= ss[n].g.now
    decreases n
  {
    assert n > 0 && IsStep(c, ss, acts, n - 1);
    OtherThreads(c, ss[n - 1], acts[n - 1], t);
    if acts[n - 1].Run? { ClockStays(c, ss[n - 1].g, ss[n - 1].threads[acts[n - 1].t], acts[n - 1].choice); }
    if acts[n - 1].Run? && acts[n - 1].t == t {
      DialedFrom(c, ss[n - 1].g, ss[n - 1].threads[t], acts[n - 1].choice);
      d := n - 1;
    } else {
      d := DialedAt(c, ss, acts, n - 1, t);
    }
  }

  lemma DialedFrom(c: Config, g: Globals, pc: Pc, choice: Choice)
    requires CanStep(c, g, pc, choice) && Local(c, g, pc, choice).pc.UdpDialed?
    ensures var next := Local(c, g, pc, choice).pc; pc == Ready(Udp(next.key)) && choice == Go && next.seen == g.now
  {
    if IsIdle(pc) {
    } else if IsSession(pc) {
    } else {
    }
  }

  lemma {:induction false} ScanAt(c: Config, ss: seq<State>, acts: seq<Action>, n: nat, t: nat)
    requires IsRun(c, ss, acts) && n < |ss| && t < |ss[n].threads| && ss[n].threads[t].ExpireScan?
    ensures ss[n].threads[t].at <= ss[n].g.now
    decreases n
  {
    assert n > 0 && IsStep(c, ss, acts, n - 1);
    OtherThreads(c, ss[n - 1], acts[n - 1], t);
    if acts[n - 1].Run? {
      ClockStays(c, ss[n - 1].g, ss[n - 1].threads[acts[n - 1].t], acts[n - 1].choice);
      ScanFrom(c, ss[n - 1].g, ss[n - 1].threads[acts[n - 1].t], acts[n - 1].choice);
    }
    if !(acts[n - 1].Run? && acts[n - 1].t == t) { ScanAt(c, ss, acts, n - 1, t); }
  }

  lemma ScanFrom(c: Config, g: Globals, pc: Pc, choice: Choice)
    requires CanStep(c, g, pc, choice)
    ensures Local(c, g, pc, choice).pc.ExpireScan? ==> Local(c, g, pc, choice).pc.at == g.now
  {
    if IsIdle(pc) {
    } else if IsSession(pc) {
    } else {
    }
  }

  /** A session the expirer lists has had no traffic, no datagram and no reply, for 30 seconds
      before the time the expirer read. */
  lemma ExpiredAfterSilence(c: Config, ss: seq<State>, acts: seq<Action>, j: nat, t: nat, pc: Pc, choice: Choice,
                            k: nat, u: nat, at: int, keys: seq<string>, key: string)
    requires IsRun(c, ss, acts) && Leaves(ss, acts, k, u, ExpireScan(at), Order(keys)) && key in keys
    ensures key in ss[k].g.sessions && at <= ss[k].g.now
    ensures j < k && Leaves(ss, acts, j, t, pc, choice) && Touches(ss[j].g, pc, key, ss[k].g.sessions[key].sid) ==>
              ss[j].g.now + 30_000_000_000 <= at
  {
    assert IsStep(c, ss, acts, k);
    ScanAt(c, ss, acts, k, u);
    var i :| 0 <= i < |keys| && keys[i] == key;
    assert IsStale(ss[k].g.sessions, keys[i], at);
    var sid := ss[k].g.sessions[key].sid;
    if j < k && Leaves(ss, acts, j, t, pc, choice) && Touches(ss[j].g, pc, key, sid) {
      assert IsStep(c, ss, acts, j);
      TouchSeen(c, ss[j].g, pc, choice, key, sid);
      ClockStays(c, ss[j].g, pc, choice);
      SidBound(c, ss, acts, j, key);
      SidsGrow(c, ss[j], acts[j]);
      SeenAlong(c, ss, acts, j + 1, k, key, sid, ss[j].g.now);
    }
  }

  /** Nor is it listed sooner than 30 seconds after its backend was dialed. */
  lemma ExpiredAfterDial(c: Config, ss: seq<State>, acts: seq<Action>, m: nat, t: nat, dialed: Pc,
                         k: nat, u: nat, at: int, keys: seq<string>, key: string) returns (d: nat)
    requires IsRun(c, ss, acts) && Leaves(ss, acts, k, u, ExpireScan(at), Order(keys)) && key in keys
    requires m < k && Leaves(ss, acts, m, t, dialed, Go) && dialed.UdpDialed? && dialed.key == key
    requires key !in ss[m].g.sessions && ss[m].g.nextSid == (if key in ss[k].g.sessions then ss[k].g.sessions[key].sid else 0)
    ensures d < m && Leaves(ss, acts, d, t, Ready(Udp(key)), Go) && ss[d].g.now + 30_000_000_000 <= at
  {
    assert IsStep(c, ss, acts, k) && IsStep(c, ss, acts, m);
    var i :| 0 <= i < |keys| && keys[i] == key;
    assert IsStale(ss[k].g.sessions, keys[i], at);
    d := DialedAt(c, ss, acts, m, t);
    ClockStays(c, ss[m].g, dialed, Go);
    SeenAlong(c, ss, acts, m + 1, k, key, ss[m].g.nextSid, dialed.seen);
  }
}
