/**
 The health checker: one thread per check probes and updates its failure counter in one
 critical section, then reports the overall status in another.
 */
module HealthChecker {

  import opened Units

  datatype Fields = Fields(failures: seq<nat>, lastErrors: seq<Option<string>>, lastHealthy: Option<bool>)

  /** A result sent to the daemon; `errs` are the joined errors of the failing checks. */
  datatype Result = Result(healthy: bool, errs: seq<Option<string>>)

  function InitFields(n: nat): Fields {
    Fields(seq(n, _ => 0), seq(n, _ => None), None)
  }

  predicate Fits(retries: seq<nat>, f: Fields) {
    |f.failures| == |retries| && |f.lastErrors| == |retries|
  }

  /** Every check is below its retries. */
  predicate AllBelow(retries: seq<nat>, f: Fields)
    requires Fits(retries, f)
  {
    forall i | 0 <= i < |retries| :: f.failures[i] < retries[i]
  }

  /** The errors of the checks that have reached their retries, in check order. */
  function FailingErrors(retries: seq<nat>, f: Fields, n: nat): (errs: seq<Option<string>>)
    requires Fits(retries, f) && n <= |retries|
    ensures errs == [] <==> forall i | 0 <= i < n :: f.failures[i] < retries[i]
  {
    if n == 0 then []
    else FailingErrors(retries, f, n - 1) + if f.failures[n - 1] >= retries[n - 1] then [f.lastErrors[n - 1]] else []
  }

  function FailSpec(f: Fields, i: nat, err: string): Fields
    requires i < |f.failures| && i < |f.lastErrors|
  {
    f.(failures := f.failures[i := f.failures[i] + 1], lastErrors := f.lastErrors[i := Some(err)])
  }

  function PassSpec(f: Fields, i: nat): Fields
    requires i < |f.failures| && i < |f.lastErrors|
  {
    f.(failures := f.failures[i := 0], lastErrors := f.lastErrors[i := None])
  }

  function ReportSpec(retries: seq<nat>, f: Fields): Fields
    requires Fits(retries, f)
  {
    f.(lastHealthy := Some(AllBelow(retries, f)))
  }

  /** What a report sends: nothing when the status is the last one sent. */
  function Sent(retries: seq<nat>, f: Fields): seq<Result>
    requires Fits(retries, f)
  {
    if f.lastHealthy == Some(AllBelow(retries, f)) then []
    else [Result(AllBelow(retries, f), FailingErrors(retries, f, |retries|))]
  }

  /** The checker object; `results` is the channel it sends on. */
  class Checker {
    const retries: seq<nat>
    const failures: array<nat>
    const lastErrors: array<Option<string>>
    var lastHealthy: Option<bool>
    var results: seq<Result>

    ghost function View(): Fields
      reads this, failures, lastErrors
    {
      Fields(failures[..], lastErrors[..], lastHealthy)
    }

    ghost predicate Valid() {
      failures.Length == |retries| && lastErrors.Length == |retries|
    }

    constructor (retries: seq<nat>)
      ensures Valid() && fresh(failures) && fresh(lastErrors)
      ensures this.retries == retries && View() == InitFields(|retries|) && results == []
    {
      this.retries := retries;
      failures := new nat[|retries|](_ => 0);
      lastErrors := new Option<string>[|retries|](_ => None);
      lastHealthy := None;
      results := [];
    }

    /** The first critical section of runCheck after a failed probe. */
    method RecordFailure(idx: nat, err: string) returns (count: nat)
      requires Valid() && idx < |retries|
      modifies failures, lastErrors
      ensures View() == FailSpec(old(View()), idx, err) && count == View().failures[idx]
    {
      failures[idx] := failures[idx] + 1;
      lastErrors[idx] := Some(err);
      count := failures[idx];
    }

    /** The first critical section of runCheck after a successful probe. */
    method RecordPass(idx: nat)
      requires Valid() && idx < |retries|
      modifies failures, lastErrors
      ensures View() == PassSpec(old(View()), idx)
    {
      failures[idx] := 0;
      lastErrors[idx] := None;
    }

    method ReportStatus()
      requires Valid()
      modifies this
      ensures View() == ReportSpec(retries, old(View()))
      ensures results == old(results) + Sent(retries, old(View()))
    {
      var errs := [];
      for i := 0 to |retries|
        invariant errs == FailingErrors(retries, View(), i)
        invariant View() == old(View()) && results == old(results)
      {
        if failures[i] >= retries[i] {
          errs := errs + [lastErrors[i]];
        }
      }
      var healthy := |errs| == 0;
      if lastHealthy == Some(healthy) {
        return;
      }
      lastHealthy := Some(healthy);
      results := results + [Result(healthy, errs)];
    }
  }

  // ---- interleaving the check threads

  /** `pending[i]`: check i's thread is between its two critical sections.
      `probes[i]` is the history of check i's outcomes; None is a pass. */
  datatype State = State(f: Fields, pending: seq<bool>, results: seq<Result>, probes: seq<seq<Option<string>>>)

  datatype Action = Probe(i: nat, outcome: Option<string>) | Report(i: nat)

  function Init(n: nat): State {
    State(InitFields(n), seq(n, _ => false), [], seq(n, _ => []))
  }

  predicate Sized(retries: seq<nat>, s: State) {
    Fits(retries, s.f) && |s.pending| == |retries| && |s.probes| == |retries|
  }

  predicate Enabled(retries: seq<nat>, s: State, a: Action) {
    match a
    case Probe(i, _) => i < |retries| && i < |s.pending| && !s.pending[i]
    case Report(i) => i < |retries| && i < |s.pending| && s.pending[i]
  }

  function Do(retries: seq<nat>, s: State, a: Action): State
    requires Sized(retries, s) && a.i < |retries|
  {
    match a
    case Probe(i, outcome) =>
      var f := if outcome.Some? then FailSpec(s.f, i, outcome.value) else PassSpec(s.f, i);
      State(f,
            s.pending[i := outcome.None? || f.failures[i] >= retries[i]],
            s.results,
            s.probes[i := s.probes[i] + [outcome]])
    case Report(i) =>
      State(ReportSpec(retries, s.f), s.pending[i := false], s.results + Sent(retries, s.f), s.probes)
  }

  /** The length of the run of failures at the end of a check's history. */
  function TrailingFailures(h: seq<Option<string>>): nat {
    if |h| == 0 || h[|h| - 1].None? then 0 else 1 + TrailingFailures(h[..|h| - 1])
  }

  ghost predicate Alternates(rs: seq<Result>) {
    forall i | 0 <= i < |rs| - 1 :: rs[i].healthy != rs[i + 1].healthy
  }

  ghost predicate SomePending(s: State) {
    exists i :: 0 <= i < |s.pending| && s.pending[i]
  }

  ghost predicate CountersOk(retries: seq<nat>, s: State) {
    && Sized(retries, s)
    && (forall i | 0 <= i < |retries| :: s.f.failures[i] == TrailingFailures(s.probes[i]))
    && (forall i | 0 <= i < |retries| && |s.probes[i]| > 0 :: s.f.lastErrors[i] == s.probes[i][|s.probes[i]| - 1])
  }

  ghost predicate ResultsOk(s: State) {
    && Alternates(s.results)
    && s.f.lastHealthy == (if |s.results| == 0 then None else Some(s.results[|s.results| - 1].healthy))
    && forall r <- s.results :: r.healthy <==> r.errs == []
  }

  /** If the last status sent is out of date, or nothing was sent although something is due,
      some thread has a report pending. */
  ghost predicate ReportDue(retries: seq<nat>, s: State)
    requires Sized(retries, s)
  {
    SomePending(s) ||
    (if s.f.lastHealthy.Some? then s.f.lastHealthy.value == AllBelow(retries, s.f)
     else forall i | 0 <= i < |retries| ::
            s.f.failures[i] < retries[i] && forall o <- s.probes[i] :: o.Some?)
  }

  ghost predicate Inv(retries: seq<nat>, s: State) {
    CountersOk(retries, s) && ResultsOk(s) && ReportDue(retries, s)
  }

  lemma ProbeKeepsInv(retries: seq<nat>, s: State, i: nat, outcome: Option<string>)
    requires (forall k | 0 <= k < |retries| :: retries[k] >= 1)
    requires Inv(retries, s) && Enabled(retries, s, Probe(i, outcome))
    ensures Inv(retries, Do(retries, s, Probe(i, outcome)))
  {
    var r := Do(retries, s, Probe(i, outcome));
    var h := r.probes[i];
    assert h[..|h| - 1] == s.probes[i];
    assert CountersOk(retries, r);
    if r.pending[i] {
      assert SomePending(r);
    } else if SomePending(s) {
      var k :| 0 <= k < |s.pending| && s.pending[k];
      assert r.pending[k];
    } else {
      QuietProbe(retries, s, r, i);
    }
  }

  /** A failure below the retries moves no status. */
  lemma QuietProbe(retries: seq<nat>, s: State, r: State, i: nat)
    requires Sized(retries, s) && Sized(retries, r) && i < |retries| && ReportDue(retries, s) && !SomePending(s)
    requires r.f.lastHealthy == s.f.lastHealthy
    requires s.f.failures[i] + 1 == r.f.failures[i] < retries[i]
    requires forall k | 0 <= k < |retries| && k != i :: r.f.failures[k] == s.f.failures[k] && r.probes[k] == s.probes[k]
    requires |r.probes[i]| == |s.probes[i]| + 1 && s.probes[i] == r.probes[i][..|s.probes[i]|]
    requires r.probes[i][|s.probes[i]|].Some?
    ensures ReportDue(retries, r)
  {
    assert AllBelow(retries, r.f) == AllBelow(retries, s.f) by {
      if AllBelow(retries, r.f) { assert AllBelow(retries, s.f); }
      if AllBelow(retries, s.f) { assert AllBelow(retries, r.f); }
    }
    if r.f.lastHealthy.None? {
      forall o <- r.probes[i] ensures o.Some? {
        var k :| 0 <= k < |r.probes[i]| && r.probes[i][k] == o;
        if k < |s.probes[i]| { assert o == s.probes[i][k]; }
      }
    }
  }

  lemma ReportKeepsInv(retries: seq<nat>, s: State, i: nat)
    requires Inv(retries, s) && Enabled(retries, s, Report(i))
    ensures Inv(retries, Do(retries, s, Report(i)))
  {
    var r := Do(retries, s, Report(i));
    var sent := Sent(retries, s.f);
    if sent == [] {
      assert r.results == s.results;
    } else {
      assert r.results == s.results + [sent[0]];
      forall x <- r.results ensures x.healthy <==> x.errs == [] {
        if x !in s.results { assert x == sent[0]; }
      }
    }
    assert AllBelow(retries, r.f) == AllBelow(retries, s.f);
  }

  // ---- runs

  ghost predicate IsStep(retries: seq<nat>, ss: seq<State>, acts: seq<Action>, i: nat)
    requires |ss| == |acts| + 1 && i < |acts|
  {
    Sized(retries, ss[i]) && Enabled(retries, ss[i], acts[i]) && ss[i + 1] == Do(retries, ss[i], acts[i])
  }

  ghost predicate IsRun(retries: seq<nat>, ss: seq<State>, acts: seq<Action>) {
    && |ss| == |acts| + 1
    && ss[0] == Init(|retries|)
    && forall i | 0 <= i < |acts| :: IsStep(retries, ss, acts, i)
  }

  lemma StepKeepsInv(retries: seq<nat>, s: State, a: Action)
    requires (forall k | 0 <= k < |retries| :: retries[k] >= 1)
    requires Inv(retries, s) && Enabled(retries, s, a)
    ensures Inv(retries, Do(retries, s, a))
  {
    match a
    case Probe(i, outcome) => ProbeKeepsInv(retries, s, i, outcome);
    case Report(i) => ReportKeepsInv(retries, s, i);
  }

  lemma {:induction false} RunInv(retries: seq<nat>, ss: seq<State>, acts: seq<Action>, i: nat)
    requires (forall k | 0 <= k < |retries| :: retries[k] >= 1)
    requires IsRun(retries, ss, acts) && i < |ss|
    ensures Inv(retries, ss[i])
  {
    if i > 0 {
      RunInv(retries, ss, acts, i - 1);
      assert IsStep(retries, ss, acts, i - 1);
      StepKeepsInv(retries, ss[i - 1], acts[i - 1]);
    }
  }

  /** In every run: each counter is the length of its check's trailing failure run; the
      results sent strictly alternate; and whenever no report is pending, the last status
      sent is the true one, and nothing sent means no check has passed or reached its retries. */
  lemma Agreement(retries: seq<nat>, ss: seq<State>, acts: seq<Action>, i: nat)
    requires (forall k | 0 <= k < |retries| :: retries[k] >= 1)
    requires IsRun(retries, ss, acts) && i < |ss|
    ensures Sized(retries, ss[i])
    ensures forall k | 0 <= k < |retries| :: ss[i].f.failures[k] == TrailingFailures(ss[i].probes[k])
    ensures Alternates(ss[i].results) && forall r <- ss[i].results :: r.healthy <==> r.errs == []
    ensures !SomePending(ss[i]) && ss[i].f.lastHealthy.Some? ==>
              |ss[i].results| > 0 && ss[i].f.lastHealthy.value == AllBelow(retries, ss[i].f)
              == ss[i].results[|ss[i].results| - 1].healthy
    ensures !SomePending(ss[i]) && ss[i].f.lastHealthy.None? ==>
              forall k | 0 <= k < |retries| :: ss[i].f.failures[k] < retries[k] && forall o <- ss[i].probes[k] :: o.Some?
  {
    RunInv(retries, ss, acts, i);
  }

  // ---- what is sent

  /** The numbers below `n` with the property, in order. */
  function Where(n: nat, p: nat -> bool): seq<nat> {
    if n == 0 then [] else Where(n - 1, p) + if p(n - 1) then [n - 1] else []
  }

  lemma {:induction false} WhereFacts(n: nat, p: nat -> bool)
    ensures forall k | 0 <= k < |Where(n, p)| :: Where(n, p)[k] < n && p(Where(n, p)[k])
    ensures forall k, l | 0 <= k < l < |Where(n, p)| :: Where(n, p)[k] < Where(n, p)[l]
    ensures forall i: nat | i < n && p(i) :: i in Where(n, p)
    decreases n
  {
    if n > 0 { WhereFacts(n - 1, p); }
  }

  /** The check has failed as often as its retries. */
  function Failing(retries: seq<nat>, f: Fields): nat -> bool {
    (i: nat) => i < |retries| && i < |f.failures| && f.failures[i] >= retries[i]
  }

  lemma {:induction false} ErrorsWhere(retries: seq<nat>, f: Fields, n: nat)
    requires Fits(retries, f) && n <= |retries|
    ensures var idx := Where(n, Failing(retries, f));
      && |FailingErrors(retries, f, n)| == |idx|
      && forall k | 0 <= k < |idx| :: idx[k] < n && FailingErrors(retries, f, n)[k] == f.lastErrors[idx[k]]
    decreases n
  {
    if n > 0 { ErrorsWhere(retries, f, n - 1); }
  }

  /** A step sends at most one result, and only a report does. Its errors are, in check order,
      those of the last probes of exactly the checks whose run of failures has reached their
      retries; it is healthy when there are none, and differs from the result before it. */
  lemma SentResult(retries: seq<nat>, ss: seq<State>, acts: seq<Action>, n: nat) returns (idx: seq<nat>)
    requires (forall k | 0 <= k < |retries| :: retries[k] >= 1)
    requires IsRun(retries, ss, acts) && n < |acts| && ss[n + 1].results != ss[n].results
    ensures acts[n].Report? && |ss[n + 1].results| == |ss[n].results| + 1 && ss[n + 1].results[..|ss[n].results|] == ss[n].results
    ensures |ss[n].probes| == |retries|
    ensures var r := ss[n + 1].results[|ss[n].results|];
      && |r.errs| == |idx| && (r.healthy <==> idx == [])
      && (forall k | 0 <= k < |idx| ::
            idx[k] < |retries| && |ss[n].probes[idx[k]]| > 0
            && TrailingFailures(ss[n].probes[idx[k]]) >= retries[idx[k]]
            && r.errs[k] == ss[n].probes[idx[k]][|ss[n].probes[idx[k]]| - 1])
      && (forall k, l | 0 <= k < l < |idx| :: idx[k] < idx[l])
      && (forall i | 0 <= i < |retries| && TrailingFailures(ss[n].probes[i]) >= retries[i] :: i in idx)
  {
    RunInv(retries, ss, acts, n);
    assert IsStep(retries, ss, acts, n);
    var s := ss[n];
    var p := Failing(retries, s.f);
    idx := Where(|retries|, p);
    WhereFacts(|retries|, p);
    ErrorsWhere(retries, s.f, |retries|);
    assert ss[n + 1].results == s.results + Sent(retries, s.f);
    forall i: nat | i < |retries| ensures p(i) <==> TrailingFailures(s.probes[i]) >= retries[i] {
      assert s.f.failures[i] == TrailingFailures(s.probes[i]);
    }
  }

  /** Some probe of the check has passed, or its run of failures has reached its retries. */
  ghost predicate Decided(retries: seq<nat>, s: State, i: nat)
    requires Sized(retries, s) && i < |retries|
  {
    exists n: nat :: n < |s.probes[i]| && DecidedAt(retries[i], s.probes[i], n)
  }

  predicate DecidedAt(retry: nat, h: seq<Option<string>>, n: nat)
    requires n < |h|
  {
    h[n].None? || TrailingFailures(h[..n + 1]) >= retry
  }

  /** A report is only made, and a result only sent, when some check has decided something. */
  ghost predicate ReportsDecided(retries: seq<nat>, s: State)
    requires Sized(retries, s)
  {
    && (forall i | 0 <= i < |retries| && s.pending[i] :: Decided(retries, s, i))
    && (s.results != [] ==> exists i :: 0 <= i < |retries| && Decided(retries, s, i))
  }

  lemma DecidedStays(retries: seq<nat>, s: State, a: Action, i: nat)
    requires Sized(retries, s) && Enabled(retries, s, a) && i < |retries| && Decided(retries, s, i)
    ensures Sized(retries, Do(retries, s, a)) && Decided(retries, Do(retries, s, a), i)
  {
    var r := Do(retries, s, a);
    var n: nat :| n < |s.probes[i]| && DecidedAt(retries[i], s.probes[i], n);
    assert s.probes[i] <= r.probes[i];
    assert r.probes[i][..n + 1] == s.probes[i][..n + 1];
    assert DecidedAt(retries[i], r.probes[i], n);
  }

  lemma ProbeDecides(retries: seq<nat>, s: State, i: nat, outcome: Option<string>)
    requires CountersOk(retries, s) && Enabled(retries, s, Probe(i, outcome))
    ensures var r := Do(retries, s, Probe(i, outcome)); Sized(retries, r) && (r.pending[i] ==> Decided(retries, r, i))
  {
    var r := Do(retries, s, Probe(i, outcome));
    var h := r.probes[i];
    assert h[..|h| - 1] == s.probes[i] && h[..|h|] == h;
    if r.pending[i] { assert DecidedAt(retries[i], h, |h| - 1); }
  }

  lemma StepDecided(retries: seq<nat>, s: State, a: Action)
    requires CountersOk(retries, s) && ReportsDecided(retries, s) && Enabled(retries, s, a)
    ensures Sized(retries, Do(retries, s, a)) && ReportsDecided(retries, Do(retries, s, a))
  {
    var r := Do(retries, s, a);
    if a.Probe? { ProbeDecides(retries, s, a.i, a.outcome); }
    forall i | 0 <= i < |retries| && r.pending[i] ensures Decided(retries, r, i) {
      if s.pending[i] { DecidedStays(retries, s, a, i); }
    }
    if r.results != [] {
      if s.results != [] {
        var i :| 0 <= i < |retries| && Decided(retries, s, i);
        DecidedStays(retries, s, a, i);
      } else {
        DecidedStays(retries, s, a, a.i);
      }
    }
  }

  /** Nothing is reported before some check has passed or has failed as often as its retries. */
  lemma {:induction false} FirstReport(retries: seq<nat>, ss: seq<State>, acts: seq<Action>, n: nat)
    requires (forall k | 0 <= k < |retries| :: retries[k] >= 1)
    requires IsRun(retries, ss, acts) && n < |ss|
    ensures Sized(retries, ss[n]) && ReportsDecided(retries, ss[n])
  {
    if n > 0 {
      FirstReport(retries, ss, acts, n - 1);
      RunInv(retries, ss, acts, n - 1);
      assert IsStep(retries, ss, acts, n - 1);
      StepDecided(retries, ss[n - 1], acts[n - 1]);
    }
  }
}
