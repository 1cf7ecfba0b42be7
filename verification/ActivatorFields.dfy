/**
 The mutex-protected fields of one socket activator and its critical sections.

 Every section between `mu.Lock()` and `mu.Unlock()` is a function on the value
 of the fields; the class updates the fields in place and is proved to compute
 exactly that function.  The interleaving of the sections is in ActivatorProtocol.
 */
module ActivatorFields {

  const SECOND: nat := 1_000_000_000

  /** A Go channel, nil or allocated; channels are numbered in allocation order. */
  datatype Chan = NoChan | Chan(id: nat)

  datatype Error = StartFailed | NotHealthy | Cancelled | BackendFailed

  /** A Go `error` result; Success is nil. */
  datatype Outcome = Success | Failure(error: Error)

  /** What the entry's configuration decides: a probe exists iff health checks are
      configured, a monitor iff in addition a supervisor is present. */
  datatype Config = Config(idleTimeout: nat, hasProbe: bool, hasMonitor: bool) {
    /** The idle loop's ticker period. */
    function Interval(): (r: nat)
      ensures r >= 1_000_000_000 && r >= idleTimeout / 4 && (r == 1_000_000_000 || r == idleTimeout / 4)
    {
      if idleTimeout / 4 > SECOND then idleTimeout / 4 else SECOND
    }
  }

  /** The activator's fields. `closes[i]` counts the closes of channel i;
      `watched` says that the unit monitor holds a live watch. */
  datatype Fields = Fields(
    running: bool, starting: bool, stopping: bool,
    startErr: Outcome,
    active: int, lastActive: int,
    startWait: Chan, stopWait: Chan,
    closes: seq<nat>,
    watched: bool)

  const INITIAL := Fields(false, false, false, Success, 0, 0, NoChan, NoChan, [], false)

  predicate IsOpen(closes: seq<nat>, ch: Chan) {
    ch.Chan? && ch.id < |closes| && closes[ch.id] == 0
  }

  predicate IsClosed(closes: seq<nat>, ch: Chan) {
    ch.Chan? && ch.id < |closes| && closes[ch.id] > 0
  }

  function CloseChan(closes: seq<nat>, ch: Chan): seq<nat> {
    if ch.Chan? && ch.id < |closes| then closes[ch.id := closes[ch.id] + 1] else closes
  }

  function ConnOpenedSpec(f: Fields, now: int): Fields {
    f.(active := f.active + 1, lastActive := now)
  }

  function ConnClosedSpec(f: Fields, now: int): Fields {
    f.(active := f.active - 1, lastActive := now)
  }

  function MarkTrafficSpec(f: Fields, now: int): Fields {
    f.(lastActive := now)
  }

  /** What a caller of ensureRunning does after the section at its loop head. */
  datatype Decision = WaitForStop(ch: Chan) | AlreadyUp | WaitForStart(ch: Chan) | BeginStart(ch: Chan)

  function EnterDecision(f: Fields): Decision {
    if f.stopping then WaitForStop(f.stopWait)
    else if f.running then AlreadyUp
    else if f.starting then WaitForStart(f.startWait)
    else BeginStart(Chan(|f.closes|))
  }

  function EnterSpec(f: Fields): Fields {
    if EnterDecision(f).BeginStart?
    then f.(starting := true, startErr := Success, startWait := Chan(|f.closes|), closes := f.closes + [0])
    else f
  }

  /** The section in which the starter publishes the result and wakes the waiters. */
  function FinishStartSpec(c: Config, f: Fields, wait: Chan, result: Outcome): Fields {
    f.(starting := false,
       startErr := result,
       running := f.running || result.Success?,
       watched := f.watched || (result.Success? && c.hasMonitor),
       closes := CloseChan(f.closes, wait))
  }

  /** What a woken waiter returns from the flags it reads. */
  function WokenResult(f: Fields): Outcome {
    if f.running then Success
    else if f.startErr.Failure? then f.startErr
    else Failure(BackendFailed)
  }

  predicate ShouldStop(c: Config, f: Fields, now: int) {
    f.running && !f.starting && !f.stopping && f.active <= 0 && now - f.lastActive >= c.idleTimeout
  }

  function IdleCheckSpec(c: Config, f: Fields, now: int): Fields {
    if ShouldStop(c, f, now)
    then f.(stopping := true, stopWait := Chan(|f.closes|), closes := f.closes + [0],
               watched := f.watched && !c.hasMonitor)
    else f
  }

  function IdleClearSpec(f: Fields): Fields {
    f.(running := false)
  }

  function IdleTailSpec(f: Fields, wait: Chan): Fields {
    f.(stopping := false, closes := CloseChan(f.closes, wait))
  }

  /** The activator object: each method is one critical section of the source. */
  class Activator {
    const cfg: Config
    var running: bool
    var starting: bool
    var stopping: bool
    var startErr: Outcome
    var active: int
    var lastActive: int
    var startWait: Chan
    var stopWait: Chan
    var closes: seq<nat>
    var watched: bool

    ghost function View(): Fields
      reads this
    {
      Fields(running, starting, stopping, startErr, active, lastActive, startWait, stopWait, closes, watched)
    }

    constructor (cfg: Config)
      ensures this.cfg == cfg && View() == INITIAL
    {
      this.cfg := cfg;
      running, starting, stopping, startErr := false, false, false, Success;
      active, lastActive, startWait, stopWait, closes, watched := 0, 0, NoChan, NoChan, [], false;
    }

    method MakeChan() returns (ch: Chan)
      modifies this`closes
      ensures ch == Chan(|old(closes)|) && closes == old(closes) + [0]
    {
      ch := Chan(|closes|);
      closes := closes + [0];
    }

    /** Closing a nil or closed channel panics in Go, hence the precondition. */
    method Close(ch: Chan)
      requires IsOpen(closes, ch)
      modifies this`closes
      ensures closes == CloseChan(old(closes), ch) && IsClosed(closes, ch)
    {
      closes := closes[ch.id := closes[ch.id] + 1];
    }

    method ConnOpened(now: int)
      modifies this
      ensures View() == ConnOpenedSpec(old(View()), now)
    {
      active := active + 1;
      lastActive := now;
    }

    method ConnClosed(now: int)
      modifies this
      ensures View() == ConnClosedSpec(old(View()), now)
    {
      active := active - 1;
      lastActive := now;
    }

    method MarkTraffic(now: int)
      modifies this
      ensures View() == MarkTrafficSpec(old(View()), now)
    {
      lastActive := now;
    }

    method Enter() returns (d: Decision)
      modifies this
      ensures d == EnterDecision(old(View())) && View() == EnterSpec(old(View()))
    {
      if stopping {
        return WaitForStop(stopWait);
      }
      if running {
        return AlreadyUp;
      }
      if starting {
        return WaitForStart(startWait);
      }
      starting := true;
      startErr := Success;
      startWait := MakeChan();
      return BeginStart(startWait);
    }

    method FinishStart(wait: Chan, result: Outcome)
      requires IsOpen(closes, wait)
      modifies this
      ensures View() == FinishStartSpec(cfg, old(View()), wait, result)
    {
      starting := false;
      startErr := result;
      if result.Success? {
        running := true;
        StartMonitor();
      }
      Close(wait);
    }

    method ReadAfterWake() returns (result: Outcome)
      ensures result == WokenResult(View())
    {
      if running {
        return Success;
      }
      if startErr.Failure? {
        return startErr;
      }
      return Failure(BackendFailed);
    }

    method StartMonitor()
      modifies this`watched
      ensures watched == (old(watched) || cfg.hasMonitor)
    {
      if cfg.hasMonitor {
        watched := true;
      }
    }

    method StopMonitor()
      modifies this`watched
      ensures watched == (old(watched) && !cfg.hasMonitor)
    {
      if cfg.hasMonitor {
        watched := false;
      }
    }

    method IdleCheck(now: int) returns (stop: bool, wait: Chan)
      modifies this
      ensures stop == ShouldStop(cfg, old(View()), now)
      ensures View() == IdleCheckSpec(cfg, old(View()), now)
      ensures stop ==> wait == stopWait
    {
      if !running || starting || stopping || active > 0 {
        return false, NoChan;
      }
      var idleFor := now - lastActive;
      if idleFor < cfg.idleTimeout {
        return false, NoChan;
      }
      stopping := true;
      stopWait := MakeChan();
      StopMonitor();
      return true, stopWait;
    }

    method IdleClear()
      modifies this
      ensures View() == IdleClearSpec(old(View()))
    {
      running := false;
    }

    method IdleTail(wait: Chan)
      requires IsOpen(closes, wait)
      modifies this
      ensures View() == IdleTailSpec(old(View()), wait)
    {
      stopping := false;
      Close(wait);
    }
  }
}
