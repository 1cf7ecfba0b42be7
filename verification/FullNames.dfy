/**
 Cycles are looked for among bare names, the cascade follows full names: how the two
 graphs are related.
 */
module FullNames {

  import opened Units
  import opened DependencyGraph
  import opened StartOrder
  import D = Dependents

  /** The full names a unit depends on, as the cascade resolves them. */
  function FullDeps(u: UnitConfig): (r: seq<string>)
    ensures |r| == |u.dependsOn|
  {
    seq(|u.dependsOn|, i requires 0 <= i < |u.dependsOn| => D.Resolve(u.dependsOn[i], u))
  }

  /** The graph of real dependencies, by full name. */
  function Needs(units: seq<UnitConfig>): Graph {
    Merge(units, (u: UnitConfig) => u.UnitName(), FullDeps)
  }

  lemma NeedsEdge(units: seq<UnitConfig>, n: string, d: string)
    ensures d in Succ(Needs(units), n) <==> exists u <- units :: u.UnitName() == n && d in FullDeps(u)
  {
    MergeEdges(units, (u: UnitConfig) => u.UnitName(), FullDeps, n, d);
  }

  /** These are the edges of the cascade. */
  lemma {:induction false} NeedsAreCascadeEdges(units: seq<UnitConfig>, n: string, d: string)
    ensures d in Succ(Needs(units), n) <==> D.Edge(d, n) in D.Edges(units)
    decreases |units|
  {
    if |units| > 0 {
      var front, u := units[..|units| - 1], units[|units| - 1];
      NeedsAreCascadeEdges(front, n, d);
      assert u.UnitName() == n && d in FullDeps(u) <==> D.Edge(d, n) in D.UnitEdges(u) by {
        if u.UnitName() == n && d in FullDeps(u) {
          var i :| 0 <= i < |FullDeps(u)| && FullDeps(u)[i] == d;
          assert D.UnitEdges(u)[i] == D.Edge(d, n);
        }
        if D.Edge(d, n) in D.UnitEdges(u) {
          var i :| 0 <= i < |D.UnitEdges(u)| && D.UnitEdges(u)[i] == D.Edge(d, n);
          assert FullDeps(u)[i] == d;
        }
      }
    }
  }

  /** Every unit is a service or a timer, and no service is named like a timer. */
  predicate Plain(units: seq<UnitConfig>) {
    forall u <- units :: u.kind == "timer" || (u.kind == "service" && !HasSuffix(u.name, ".timer"))
  }

  lemma ResolvedBareName(dep: string, u: UnitConfig)
    requires u.kind == "service" || u.kind == "timer"
    ensures DepBareName(D.Resolve(dep, u)) == DepBareName(dep)
  {
    if !IsQualifiedDep(dep) {
      KindSuffixes();
      assert dep + "." + u.kind == dep + ("." + u.kind);
      assert dep + "" == dep;
      if u.kind == "service" {
        SuffixOfConcat(dep, ".service", ".service");
      } else {
        SuffixOfConcat(dep, ".timer", ".timer");
        SuffixesDiffer(dep + ".timer");
      }
    }
  }

  /** Merging namesakes by bare name misses no cycle of real dependencies. */
  lemma MergedCoversNeeds(units: seq<UnitConfig>)
    requires Plain(units) && Acyclic(Merged(units))
    ensures Acyclic(Needs(units))
  {
    forall n, d | d in Succ(Needs(units), n) ensures DepBareName(d) in Succ(Merged(units), DepBareName(n)) {
      NeedsEdge(units, n, d);
      var u :| u in units && u.UnitName() == n && d in FullDeps(u);
      var i :| 0 <= i < |FullDeps(u)| && FullDeps(u)[i] == d;
      ResolvedBareName(u.dependsOn[i], u);
      QualifiedDepResolves(u);
      assert BareDeps(u)[i] == DepBareName(d);
      MergedEdge(units, DepBareName(n), DepBareName(d));
    }
    CyclesMap(Needs(units), Merged(units), DepBareName);
  }

  ghost predicate Kinds(units: seq<UnitConfig>) {
    forall u <- units :: u.kind == "service" || u.kind == "timer"
  }

  ghost predicate DistinctNames(units: seq<UnitConfig>) {
    forall i, j | 0 <= i < j < |units| :: units[i].name != units[j].name
  }

  ghost predicate DistinctFullNames(units: seq<UnitConfig>) {
    forall i, j | 0 <= i < j < |units| :: units[i].UnitName() != units[j].UnitName()
  }

  /** A full name determines the bare name and the kind. */
  lemma FullNameParses(name: string, kind: string, u: UnitConfig)
    requires kind == "service" || kind == "timer"
    requires u.kind == "service" || u.kind == "timer"
    requires name + "." + kind == u.UnitName()
    ensures name == u.name && kind == u.kind
  {
    var full := u.UnitName();
    assert full == name + ("." + kind) && full == u.name + ("." + u.kind);
    KindSuffixes();
    SuffixesDiffer(full);
    SuffixOfConcat(name, "." + kind, "." + kind);
    SuffixOfConcat(u.name, "." + u.kind, "." + u.kind);
    assert full[..|name|] == name && full[..|u.name|] == u.name;
  }

  // ---- dependencies that resolve

  /** Every resolved dependency is a unit. */
  ghost predicate Resolved(units: seq<UnitConfig>) {
    forall u <- units :: forall d <- u.dependsOn :: exists v <- units :: v.UnitName() == D.Resolve(d, u)
  }

  ghost predicate AllKnown(units: seq<UnitConfig>) {
    forall u <- units :: DepsKnown(units, u)
  }

  /** Every unqualified dependency names a unit of the depending unit's own kind. */
  ghost predicate OwnKind(units: seq<UnitConfig>) {
    forall u <- units :: forall d <- u.dependsOn :: !IsQualifiedDep(d) ==> exists v <- units :: v.name == d && v.kind == u.kind
  }

  /** Validation lets an unqualified dependency name a unit of the other kind, which the
      cascade then does not find: the known dependencies all resolve exactly when none does. */
  lemma ResolvedExactly(units: seq<UnitConfig>)
    requires Kinds(units)
    ensures Resolved(units) <==> AllKnown(units) && OwnKind(units)
  {
    forall u <- units, d <- u.dependsOn
      ensures (exists v <- units :: v.UnitName() == D.Resolve(d, u)) <==>
                if IsQualifiedDep(d) then Known(units, d) else exists v <- units :: v.name == d && v.kind == u.kind
    {
      if !IsQualifiedDep(d) {
        forall v <- units ensures v.UnitName() == D.Resolve(d, u) <==> v.name == d && v.kind == u.kind {
          if v.UnitName() == D.Resolve(d, u) { FullNameParses(d, u.kind, v); }
        }
      }
    }
  }

  // ---- the same units with other dependencies

  ghost predicate SameNames(units: seq<UnitConfig>, others: seq<UnitConfig>) {
    && |units| == |others|
    && forall i | 0 <= i < |units| :: others[i].name == units[i].name && others[i].kind == units[i].kind
  }

  /** The unit at `i` depends on `dep`, and no other unit on anything. */
  function OnlyDep(units: seq<UnitConfig>, i: nat, dep: string): (others: seq<UnitConfig>)
    ensures |others| == |units|
    ensures forall k | 0 <= k < |units| :: others[k] == units[k].(dependsOn := if k == i then [dep] else [])
  {
    seq(|units|, k requires 0 <= k < |units| => units[k].(dependsOn := if k == i then [dep] else []))
  }

  /** The unit at `i` is the last of its bare name, so the graph takes its dependencies. */
  ghost predicate Counts(units: seq<UnitConfig>, i: nat)
    requires i < |units|
  {
    forall k | i < k < |units| :: units[k].name != units[i].name
  }

  lemma {:induction false} LastAt(units: seq<UnitConfig>, name: string) returns (i: nat)
    requires LastOf(units, name).Some?
    ensures i < |units| && units[i].name == name && LastOf(units, name) == Some(units[i]) && Counts(units, i)
    decreases |units|
  {
    i := |units| - 1;
    if units[i].name != name {
      i := LastAt(units[..|units| - 1], name);
    }
  }

  lemma {:induction false} CountsIsLast(units: seq<UnitConfig>, i: nat)
    requires i < |units| && Counts(units, i)
    ensures LastOf(units, units[i].name) == Some(units[i])
    decreases |units|
  {
    if i < |units| - 1 {
      assert units[|units| - 1].name != units[i].name;
      CountsIsLast(units[..|units| - 1], i);
    }
  }

  lemma UnitNameQualified(u: UnitConfig)
    requires u.kind == "service" || u.kind == "timer"
    ensures IsQualifiedDep(u.UnitName())
  {
    KindSuffixes();
    assert u.UnitName() == u.name + ("." + u.kind);
    SuffixOfConcat(u.name, "." + u.kind, "." + u.kind);
  }

  /** The one edge of each graph when the only dependency is that of `i` on `j`. */
  lemma OnlyEdges(units: seq<UnitConfig>, i: nat, j: nat)
    requires Kinds(units) && i < |units| && j < |units|
    ensures var others := OnlyDep(units, i, units[j].UnitName());
      && SameNames(units, others) && Kinds(others) && Resolved(others)
      && (forall n, d :: d in Succ(Needs(others), n) <==> n == units[i].UnitName() && d == units[j].UnitName())
      && (forall n, d :: d in Succ(GraphOf(others), n) <==>
            Counts(units, i) && n == units[i].name && d == DepBareName(units[j].UnitName()))
  {
    var dep := units[j].UnitName();
    var others := OnlyDep(units, i, dep);
    UnitNameQualified(units[j]);
    assert others[j] in others && others[j].UnitName() == dep;
    assert others[i] in others && FullDeps(others[i]) == [dep] && BareDeps(others[i]) == [DepBareName(dep)];
    forall n, d ensures d in Succ(Needs(others), n) <==> n == units[i].UnitName() && d == dep {
      NeedsEdge(others, n, d);
    }
    forall n, d ensures d in Succ(GraphOf(others), n) <==> Counts(units, i) && n == units[i].name && d == DepBareName(dep) {
      GraphAt(others, n);
      if n in GraphOf(others) {
        var k := LastAt(others, n);
        assert forall m | 0 <= m < |units| :: units[m].name == others[m].name;
        assert Counts(units, k);
        assert n == units[i].name && Counts(units, i) ==> k == i;
      } else {
        assert others[i].name != n;
      }
    }
  }

  lemma EndsDiffer(g: Graph, from: string, to: string, p: seq<string>)
    requires forall n, d | d in Succ(g, n) :: n == from && d == to
    requires IsPath(g, p) && |p| >= 2
    ensures p[0] == from && p[|p| - 1] == to
  {
    assert p[1] in Succ(g, p[0]);
    var k := |p| - 2;
    assert p[k + 1] in Succ(g, p[k]);
  }

  /** A graph with at most one edge, between different names, has no cycle. */
  lemma OneEdge(g: Graph, from: string, to: string)
    requires from != to && forall n, d | d in Succ(g, n) :: n == from && d == to
    ensures Acyclic(g)
  {
    forall p ensures !IsCycle(g, p) {
      if IsPath(g, p) && |p| >= 2 { EndsDiffer(g, from, to, p); }
    }
  }

  // ---- cycles that are missed

  /** Unless no service is named like a timer and the bare names are distinct, some unit can
      depend on itself unnoticed. */
  lemma MissedCycle(units: seq<UnitConfig>) returns (others: seq<UnitConfig>)
    requires Kinds(units) && DistinctFullNames(units) && !(Plain(units) && DistinctNames(units))
    ensures SameNames(units, others) && Resolved(others) && Acyclic(GraphOf(others)) && !Acyclic(Needs(others))
  {
    var i: nat;
    if !DistinctNames(units) {
      var a, b :| 0 <= a < b < |units| && units[a].name == units[b].name;
      i := a;
      assert !Counts(units, i);
    } else {
      var u :| u in units && u.kind == "service" && HasSuffix(u.name, ".timer");
      var a :| 0 <= a < |units| && units[a] == u;
      i := a;
      QualifiedDepResolves(u);
    }
    var dep := units[i].UnitName();
    others := OnlyDep(units, i, dep);
    OnlyEdges(units, i, i);
    assert IsCycle(Needs(others), [dep, dep]);
    if Counts(units, i) {
      OneEdge(GraphOf(others), units[i].name, DepBareName(dep));
    } else {
      OneEdge(GraphOf(others), "no", "edge");
    }
  }

  lemma SameNamesPlain(units: seq<UnitConfig>, others: seq<UnitConfig>)
    requires SameNames(units, others)
    ensures Plain(units) ==> Plain(others)
    ensures Kinds(units) ==> Kinds(others)
    ensures DistinctNames(units) ==> DistinctNames(others)
  {
    forall v <- others ensures exists u <- units :: u.name == v.name && u.kind == v.kind {
      var i :| 0 <= i < |others| && others[i] == v;
      assert units[i] in units;
    }
  }

  lemma AcceptedIsAcyclic(units: seq<UnitConfig>)
    requires Plain(units) && DistinctNames(units) && Acyclic(GraphOf(units))
    ensures Acyclic(Needs(units))
  {
    forall n, d | d in Succ(Merged(units), n) ensures d in Succ(GraphOf(units), n) {
      MergedEdge(units, n, d);
      var u :| u in units && u.name == n && d in BareDeps(u);
      GraphAt(units, n);
      var i := LastAt(units, n);
      var j :| 0 <= j < |units| && units[j] == u;
      assert i == j;
    }
    CyclesMap(Merged(units), GraphOf(units), n => n);
    MergedCoversNeeds(units);
  }

  /** The promise that circular dependencies are rejected is kept, for these units and
      whatever they depend on, exactly when no service is named like a timer and no two
      units share a bare name. */
  lemma RejectsEveryCycle(units: seq<UnitConfig>)
    requires Kinds(units) && DistinctFullNames(units)
    ensures (forall others | SameNames(units, others) && AllKnown(others) :: Acyclic(GraphOf(others)) ==> Acyclic(Needs(others)))
            <==> Plain(units) && DistinctNames(units)
  {
    if Plain(units) && DistinctNames(units) {
      forall others | SameNames(units, others) && Acyclic(GraphOf(others)) ensures Acyclic(Needs(others)) {
        SameNamesPlain(units, others);
        AcceptedIsAcyclic(others);
      }
    } else {
      var others := MissedCycle(units);
      SameNamesPlain(units, others);
      ResolvedExactly(others);
      assert SameNames(units, others) && AllKnown(others);
    }
  }

  // ---- cycles that are none

  /** No full name resolves to the bare name another unit counts for. */
  ghost predicate NoneMistaken(units: seq<UnitConfig>) {
    forall i, j | 0 <= i < |units| && 0 <= j < |units| && Counts(units, i) && DepBareName(units[j].UnitName()) == units[i].name ::
      i == j
  }

  /** A unit that depends on one mistaken for it seems to depend on itself. */
  lemma FalseCycle(units: seq<UnitConfig>) returns (others: seq<UnitConfig>)
    requires Kinds(units) && DistinctFullNames(units) && !NoneMistaken(units)
    ensures SameNames(units, others) && Resolved(others) && !Acyclic(GraphOf(others)) && Acyclic(Needs(others))
  {
    var i, j :| 0 <= i < |units| && 0 <= j < |units| && Counts(units, i) && DepBareName(units[j].UnitName()) == units[i].name && i != j;
    others := OnlyDep(units, i, units[j].UnitName());
    OnlyEdges(units, i, j);
    assert IsCycle(GraphOf(others), [units[i].name, units[i].name]);
    assert units[i].UnitName() != units[j].UnitName();
    OneEdge(Needs(others), units[i].UnitName(), units[j].UnitName());
  }

  function FullNameOf(units: seq<UnitConfig>, name: string): string {
    if LastOf(units, name).Some? then LastOf(units, name).value.UnitName() else name
  }

  lemma NeedsCoverGraph(units: seq<UnitConfig>)
    requires Kinds(units) && NoneMistaken(units) && Resolved(units) && Acyclic(Needs(units))
    ensures Acyclic(GraphOf(units))
  {
    var f := (n: string) => FullNameOf(units, n);
    forall n, d | d in Succ(GraphOf(units), n) && Succ(GraphOf(units), d) != [] ensures f(d) in Succ(Needs(units), f(n)) {
      GraphAt(units, n);
      GraphAt(units, d);
      NamedInGraph(units, LastOf(units, n).value, d);
      NeedsEdge(units, f(n), f(d));
    }
    CyclesMap(GraphOf(units), Needs(units), f);
  }

  lemma NamedInGraph(units: seq<UnitConfig>, u: UnitConfig, d: string)
    requires Kinds(units) && NoneMistaken(units) && Resolved(units) && u in units && d in BareDeps(u) && LastOf(units, d).Some?
    ensures FullNameOf(units, d) in FullDeps(u)
  {
    var x :| 0 <= x < |u.dependsOn| && BareDeps(u)[x] == d;
    var dep := u.dependsOn[x];
    assert dep in u.dependsOn;
    var v :| v in units && v.UnitName() == D.Resolve(dep, u);
    ResolvedBareName(dep, u);
    var j :| 0 <= j < |units| && units[j] == v;
    var i := LastAt(units, d);
    assert i == j;
    assert FullDeps(u)[x] == v.UnitName();
  }

  /** Nothing is rejected for a cycle that is none, for these units and whatever they depend
      on, exactly when no full name resolves to the bare name another unit counts for. */
  lemma RejectsOnlyCycles(units: seq<UnitConfig>)
    requires Kinds(units) && DistinctFullNames(units)
    ensures (forall others | SameNames(units, others) && Resolved(others) :: Acyclic(Needs(others)) ==> Acyclic(GraphOf(others)))
            <==> NoneMistaken(units)
  {
    if NoneMistaken(units) {
      forall others | SameNames(units, others) && Resolved(others) && Acyclic(Needs(others)) ensures Acyclic(GraphOf(others)) {
        SameNamesPlain(units, others);
        SameNamesMistaken(units, others);
        NeedsCoverGraph(others);
      }
    } else {
      var others := FalseCycle(units);
      assert SameNames(units, others) && Resolved(others);
    }
  }

  lemma SameNamesMistaken(units: seq<UnitConfig>, others: seq<UnitConfig>)
    requires SameNames(units, others) && NoneMistaken(units)
    ensures NoneMistaken(others)
  {
    forall i, j | 0 <= i < |others| && 0 <= j < |others| && Counts(others, i) && DepBareName(others[j].UnitName()) == others[i].name
      ensures i == j
    {
      assert forall k | i < k < |units| :: units[k].name == others[k].name;
      assert Counts(units, i) && units[j].UnitName() == others[j].UnitName();
    }
  }

  // ---- exactness

  lemma PlainIsNotMistaken(units: seq<UnitConfig>)
    requires Plain(units) && DistinctNames(units)
    ensures NoneMistaken(units)
  {
    forall j | 0 <= j < |units| ensures DepBareName(units[j].UnitName()) == units[j].name {
      assert units[j] in units;
      QualifiedDepResolves(units[j]);
    }
  }

  /** The check on bare names gives the right answer, for these units and whatever they
      depend on, exactly when no service is named like a timer and no two units share a
      bare name. */
  lemma BareCheckIsExact(units: seq<UnitConfig>)
    requires Kinds(units) && DistinctFullNames(units)
    ensures (forall others | SameNames(units, others) && Resolved(others) :: Acyclic(GraphOf(others)) <==> Acyclic(Needs(others)))
            <==> Plain(units) && DistinctNames(units)
  {
    RejectsOnlyCycles(units);
    if Plain(units) && DistinctNames(units) {
      PlainIsNotMistaken(units);
      forall others | SameNames(units, others) && Resolved(others) ensures Acyclic(GraphOf(others)) <==> Acyclic(Needs(others)) {
        SameNamesPlain(units, others);
        if Acyclic(GraphOf(others)) { AcceptedIsAcyclic(others); }
      }
    } else {
      var others := MissedCycle(units);
      assert SameNames(units, others) && Resolved(others);
    }
  }

  /** In particular for the dependencies they have. */
  lemma BareNamesAgree(units: seq<UnitConfig>)
    requires Plain(units) && DistinctNames(units) && Resolved(units)
    ensures Acyclic(GraphOf(units)) <==> Acyclic(Needs(units))
  {
    assert Kinds(units);
    forall i, j | 0 <= i < j < |units| ensures units[i].UnitName() != units[j].UnitName() {
      if units[i].UnitName() == units[j].UnitName() {
        FullNameParses(units[i].name, units[i].kind, units[j]);
      }
    }
    BareCheckIsExact(units);
    assert SameNames(units, units);
  }

  /** A configuration is rejected for a cycle when a timer that is the last unit of its bare
      name depends on its own service. */
  lemma TimerOfItsServiceIsRejected(units: seq<UnitConfig>, timer: UnitConfig)
    requires LastOf(units, timer.name) == Some(timer) && !HasSuffix(timer.name, ".timer")
    requires timer.name + ".service" in timer.dependsOn
    ensures !Acyclic(GraphOf(units))
  {
    ServiceBareName(timer.name);
    GraphAt(units, timer.name);
    var i :| 0 <= i < |timer.dependsOn| && timer.dependsOn[i] == timer.name + ".service";
    assert BareDeps(timer)[i] == timer.name;
    assert IsCycle(GraphOf(units), [timer.name, timer.name]);
  }

  lemma ServiceBareName(name: string)
    requires !HasSuffix(name, ".timer")
    ensures DepBareName(name + ".service") == name
  {
    KindSuffixes();
    assert name + "" == name;
    SuffixOfConcat(name, ".service", ".service");
  }

  /** When that is the only dependency there is no cycle, and whether the list is rejected
      depends on the order of the file: exactly when the timer comes last of its name. */
  lemma RejectionDependsOnFileOrder(units: seq<UnitConfig>, i: nat, j: nat)
    requires Kinds(units) && i < |units| && j < |units|
    requires units[i].kind == "timer" && units[j].kind == "service" && units[i].name == units[j].name
    requires !HasSuffix(units[i].name, ".timer")
    ensures var others := OnlyDep(units, i, units[j].UnitName());
      && Resolved(others) && Acyclic(Needs(others))
      && (Acyclic(GraphOf(others)) <==> !Counts(units, i))
  {
    var timer, service := units[i], units[j];
    var others := OnlyDep(units, i, service.UnitName());
    OnlyEdges(units, i, j);
    QualifiedDepResolves(service);
    if timer.UnitName() == service.UnitName() { FullNameParses(timer.name, timer.kind, service); }
    OneEdge(Needs(others), timer.UnitName(), service.UnitName());
    if Counts(units, i) {
      assert IsCycle(GraphOf(others), [timer.name, timer.name]);
    } else {
      OneEdge(GraphOf(others), "no", "edge");
    }
  }

  /** A cycle between two units is missed too, when neither counts for its name. */
  lemma RealCycleIsAccepted()
    ensures var file := [SERVICE_A, TIMER_A, SERVICE_B];
      && (forall u <- file :: DepsKnown(file, u)) && Acyclic(GraphOf(file)) && !Acyclic(Needs(file))
  {
    var file := [SERVICE_A, TIMER_A, SERVICE_B];
    SortCanBreakAcceptedConfig();
    ExampleDeps();
    assert SERVICE_A in file && SERVICE_A.UnitName() == "a.service" && FullDeps(SERVICE_A)[0] == "b.service";
    assert SERVICE_B in file && SERVICE_B.UnitName() == "b.service" && FullDeps(SERVICE_B)[0] == "a.service";
    NeedsEdge(file, "a.service", "b.service");
    NeedsEdge(file, "b.service", "a.service");
    assert IsCycle(Needs(file), ["a.service", "b.service", "a.service"]);
  }
}
