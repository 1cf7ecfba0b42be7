/**
 The start order of a loaded configuration: units are validated in file order, then sorted
 by priority, and only then ordered by their dependencies. What the sort can change, and
 when it changes nothing.
 */
module StartOrder {

  import opened Units
  import opened DependencyGraph
  import opened PrioritySort

  // ---- which unit of a bare name counts

  /** The last unit of that name. */
  function LastOf(units: seq<UnitConfig>, name: string): Option<UnitConfig> {
    if |units| == 0 then None
    else if units[|units| - 1].name == name then Some(units[|units| - 1])
    else LastOf(units[..|units| - 1], name)
  }

  lemma {:induction false} GraphAt(units: seq<UnitConfig>, name: string)
    ensures name in GraphOf(units) <==> LastOf(units, name).Some?
    ensures name in GraphOf(units) ==> GraphOf(units)[name] == BareDeps(LastOf(units, name).value)
    ensures LastOf(units, name).Some? ==> LastOf(units, name).value in units && LastOf(units, name).value.name == name
    ensures LastOf(units, name).None? ==> forall u <- units :: u.name != name
    decreases |units|
  {
    if |units| > 0 {
      GraphAt(units[..|units| - 1], name);
      assert units == units[..|units| - 1] + [units[|units| - 1]];
    }
  }

  /** `name` means the same dependencies in both lists. */
  ghost predicate SameDeps(units: seq<UnitConfig>, others: seq<UnitConfig>, name: string) {
    && LastOf(units, name).Some? && LastOf(others, name).Some?
    && BareDeps(LastOf(units, name).value) == BareDeps(LastOf(others, name).value)
  }

  /** A reordering keeps the graph exactly when, for every name, the last unit of that name
      has the same dependencies in both orders. */
  lemma ReorderingKeepsGraph(units: seq<UnitConfig>, others: seq<UnitConfig>)
    requires Reorders(units, others)
    ensures GraphOf(others) == GraphOf(units) <==> forall u <- units :: SameDeps(units, others, u.name)
  {
    var g, h := GraphOf(units), GraphOf(others);
    SameMembers(units, others);
    forall n ensures n in g <==> n in h {
      GraphAt(units, n);
      GraphAt(others, n);
    }
    forall u <- units
      ensures u.name in g && u.name in h && (SameDeps(units, others, u.name) <==> g[u.name] == h[u.name])
    {
      GraphAt(units, u.name);
      GraphAt(others, u.name);
    }
    if forall u <- units :: SameDeps(units, others, u.name) {
      forall n <- g ensures g[n] == h[n] { GraphAt(units, n); }
      assert g.Keys == h.Keys;
    }
  }

  // ---- every order

  /** Units that share a bare name list the same dependencies. */
  ghost predicate NamesakesAgree(units: seq<UnitConfig>) {
    forall u, v | u in units && v in units && u.name == v.name :: BareDeps(u) == BareDeps(v)
  }

  lemma MoveToEnd(units: seq<UnitConfig>, u: UnitConfig) returns (others: seq<UnitConfig>)
    requires u in units
    ensures Reorders(units, others) && |others| > 0 && others[|others| - 1] == u
  {
    var i :| 0 <= i < |units| && units[i] == u;
    others := units[..i] + units[i + 1..] + [u];
    assert units == units[..i] + [u] + units[i + 1..];
  }

  /** Every order of the units gives the same graph exactly when namesakes agree. */
  lemma OrderMattersNot(units: seq<UnitConfig>)
    ensures (forall others | Reorders(units, others) :: GraphOf(others) == GraphOf(units)) <==> NamesakesAgree(units)
  {
    if NamesakesAgree(units) {
      forall others | Reorders(units, others) ensures GraphOf(others) == GraphOf(units) {
        ReorderingKeepsGraph(units, others);
        SameMembers(units, others);
        forall u <- units ensures SameDeps(units, others, u.name) {
          GraphAt(units, u.name);
          GraphAt(others, u.name);
        }
      }
    }
    if forall others | Reorders(units, others) :: GraphOf(others) == GraphOf(units) {
      forall u, v | u in units && v in units && u.name == v.name ensures BareDeps(u) == BareDeps(v) {
        var first := MoveToEnd(units, u);
        var second := MoveToEnd(units, v);
        assert GraphOf(first) == GraphOf(second) && GraphOf(first)[u.name] == BareDeps(u);
      }
    }
  }

  // ---- merging the units of a name

  /** The graph in which a key has the dependencies of all units with that key. */
  function Merge(units: seq<UnitConfig>, key: UnitConfig -> string, deps: UnitConfig -> seq<string>): Graph {
    if |units| == 0 then map[]
    else
      var u, front := units[|units| - 1], Merge(units[..|units| - 1], key, deps);
      front[key(u) := Succ(front, key(u)) + deps(u)]
  }

  lemma {:induction false} MergeEdges(units: seq<UnitConfig>, key: UnitConfig -> string, deps: UnitConfig -> seq<string>, n: string, d: string)
    ensures d in Succ(Merge(units, key, deps), n) <==> exists u <- units :: key(u) == n && d in deps(u)
    decreases |units|
  {
    if |units| > 0 {
      var front, u := units[..|units| - 1], units[|units| - 1];
      MergeEdges(front, key, deps, n, d);
      assert units == front + [u];
    }
  }

  /** By bare name, all namesakes together. */
  function Merged(units: seq<UnitConfig>): Graph {
    Merge(units, (u: UnitConfig) => u.name, BareDeps)
  }

  lemma MergedEdge(units: seq<UnitConfig>, n: string, d: string)
    ensures d in Succ(Merged(units), n) <==> exists u <- units :: u.name == n && d in BareDeps(u)
  {
    MergeEdges(units, (u: UnitConfig) => u.name, BareDeps, n, d);
  }

  /** A map between graphs that preserves the edges a cycle can use carries cycles along. */
  lemma CyclesMap(g: Graph, h: Graph, f: string -> string)
    requires forall n, d | d in Succ(g, n) && Succ(g, d) != [] :: f(d) in Succ(h, f(n))
    requires Acyclic(h)
    ensures Acyclic(g)
  {
    forall p ensures !IsCycle(g, p) {
      if IsCycle(g, p) {
        var q := seq(|p|, i requires 0 <= i < |p| => f(p[i]));
        forall i | 0 <= i < |q| - 1 ensures q[i + 1] in Succ(h, q[i]) {
          assert p[i + 1] in Succ(g, p[i]);
          if i + 2 < |p| { assert p[i + 2] in Succ(g, p[i + 1]); } else { assert p[1] in Succ(g, p[0]); }
        }
        assert IsCycle(h, q);
      }
    }
  }

  lemma ReorderingWithinMerged(units: seq<UnitConfig>, others: seq<UnitConfig>)
    requires Reorders(units, others) && Acyclic(Merged(units))
    ensures Acyclic(GraphOf(others))
  {
    SameMembers(units, others);
    forall n, d | d in Succ(GraphOf(others), n) ensures d in Succ(Merged(units), n) {
      GraphAt(others, n);
      MergedEdge(units, n, d);
    }
    CyclesMap(GraphOf(others), Merged(units), n => n);
  }

  // ---- a cycle of the merged graph shows in some order

  ghost predicate IsSimpleCycle(g: Graph, p: seq<string>) {
    IsCycle(g, p) && NoDups(p[1..])
  }

  lemma {:induction false} SimpleCycle(g: Graph, p: seq<string>) returns (q: seq<string>)
    requires IsCycle(g, p)
    ensures IsSimpleCycle(g, q)
    decreases |p|
  {
    if NoDups(p[1..]) {
      q := p;
    } else {
      var i, j :| 0 <= i < j < |p[1..]| && p[1..][i] == p[1..][j];
      var r := p[i + 1..j + 2];
      forall k | 0 <= k < |r| - 1 ensures r[k + 1] in Succ(g, r[k]) {
        assert p[i + 1 + k + 1] in Succ(g, p[i + 1 + k]);
      }
      q := SimpleCycle(g, r);
    }
  }

  /** A unit responsible for each edge of the path but the first `k`. */
  ghost predicate Explains(units: seq<UnitConfig>, p: seq<string>, chosen: seq<UnitConfig>) {
    && |chosen| == |p| - 1
    && forall i | 0 <= i < |chosen| :: chosen[i] in units && chosen[i].name == p[i] && p[i + 1] in BareDeps(chosen[i])
  }

  lemma {:induction false} Explain(units: seq<UnitConfig>, p: seq<string>) returns (chosen: seq<UnitConfig>)
    requires |p| >= 1 && IsPath(Merged(units), p)
    ensures Explains(units, p, chosen)
    decreases |p|
  {
    if |p| == 1 {
      chosen := [];
    } else {
      PathSuffix(Merged(units), p, 1);
      var rest := Explain(units, p[1..]);
      assert p[1] in Succ(Merged(units), p[0]);
      MergedEdge(units, p[0], p[1]);
      var u :| u in units && u.name == p[0] && p[1] in BareDeps(u);
      chosen := [u] + rest;
    }
  }

  /** One of the units of `front` can be moved between `front` and `back`. */
  lemma MoveOne(front: seq<UnitConfig>, back: seq<UnitConfig>, u: UnitConfig) returns (rest: seq<UnitConfig>)
    requires u in front
    ensures multiset(rest) + multiset{u} == multiset(front)
    ensures multiset(rest + (back + [u])) == multiset(front + back)
  {
    var i :| 0 <= i < |front| && front[i] == u;
    rest := front[..i] + front[i + 1..];
    assert front == front[..i] + [u] + front[i + 1..];
    var a, b, c := multiset(rest), multiset(back), multiset{u};
    assert multiset(rest + (back + [u])) == a + (b + c);
    assert a + (b + c) == a + c + b;
  }

  /** Distinct units can be moved to the end, in the given order. */
  lemma {:induction false} MoveAllToEnd(units: seq<UnitConfig>, chosen: seq<UnitConfig>) returns (front: seq<UnitConfig>)
    requires forall u <- chosen :: u in units
    requires forall i, j | 0 <= i < j < |chosen| :: chosen[i] != chosen[j]
    ensures Reorders(units, front + chosen)
    decreases |chosen|
  {
    if |chosen| == 0 {
      front := units;
      assert front + chosen == units;
    } else {
      var k := |chosen| - 1;
      var u, before := chosen[k], chosen[..k];
      var f := MoveAllToEnd(units, before);
      SameMembers(units, f + before);
      assert u !in before && u in f + before;
      front := MoveOne(f, before, u);
      assert chosen == before + [u];
    }
  }

  lemma {:induction false} LastAmong(front: seq<UnitConfig>, chosen: seq<UnitConfig>, i: nat)
    requires i < |chosen|
    requires forall i, j | 0 <= i < j < |chosen| :: chosen[i].name != chosen[j].name
    ensures LastOf(front + chosen, chosen[i].name) == Some(chosen[i])
    decreases |chosen|
  {
    var k := |chosen| - 1;
    assert (front + chosen)[..|front + chosen| - 1] == front + chosen[..k];
    if i < k {
      assert chosen[i].name != chosen[k].name;
      LastAmong(front, chosen[..k], i);
    }
  }

  lemma CycleInSomeOrder(units: seq<UnitConfig>, p: seq<string>) returns (others: seq<UnitConfig>)
    requires IsSimpleCycle(Merged(units), p)
    ensures Reorders(units, others) && IsCycle(GraphOf(others), p)
  {
    var chosen := Explain(units, p);
    forall i, j | 0 <= i < j < |chosen| ensures chosen[i].name != chosen[j].name {
      assert p[j] == p[1..][j - 1];
      assert p[i] == if i == 0 then p[1..][|p| - 2] else p[1..][i - 1];
    }
    var front := MoveAllToEnd(units, chosen);
    others := front + chosen;
    forall i | 0 <= i < |p| - 1 ensures p[i + 1] in Succ(GraphOf(others), p[i]) {
      LastAmong(front, chosen, i);
      GraphAt(others, p[i]);
    }
  }

  /** Every order of the units is accepted exactly when the graph that merges namesakes has
      no cycle. */
  lemma EveryOrderAcyclic(units: seq<UnitConfig>)
    ensures (forall others | Reorders(units, others) :: Acyclic(GraphOf(others))) <==> Acyclic(Merged(units))
  {
    if Acyclic(Merged(units)) {
      forall others | Reorders(units, others) ensures Acyclic(GraphOf(others)) {
        ReorderingWithinMerged(units, others);
      }
    } else {
      var p :| IsCycle(Merged(units), p);
      var q := SimpleCycle(Merged(units), p);
      var others := CycleInSomeOrder(units, q);
      assert Reorders(units, others) && !Acyclic(GraphOf(others));
    }
  }

  // ---- the order of priority

  /** The unit of that name with the highest priority, the last one of several. */
  function TopOf(units: seq<UnitConfig>, name: string): Option<UnitConfig> {
    if |units| == 0 then None
    else
      var u, t := units[|units| - 1], TopOf(units[..|units| - 1], name);
      if u.name == name && (t.None? || t.value.priority <= u.priority) then Some(u) else t
  }

  lemma LastSnoc(units: seq<UnitConfig>, u: UnitConfig, name: string)
    ensures LastOf(units + [u], name) == if u.name == name then Some(u) else LastOf(units, name)
  {
    assert (units + [u])[..|units|] == units;
  }

  lemma {:induction false} InsertLast(sorted: seq<UnitConfig>, u: UnitConfig, name: string)
    requires Ascending(sorted)
    ensures var t := LastOf(sorted, name);
      LastOf(InsertByPriority(sorted, u), name) ==
        if u.name == name && (t.None? || t.value.priority <= u.priority) then Some(u) else t
    decreases |sorted|
  {
    GraphAt(sorted, name);
    if |sorted| == 0 || sorted[|sorted| - 1].priority <= u.priority {
      LastSnoc(sorted, u, name);
    } else {
      var front, last := sorted[..|sorted| - 1], sorted[|sorted| - 1];
      InsertLast(front, u, name);
      LastSnoc(InsertByPriority(front, u), last, name);
    }
  }

  lemma {:induction false} SortedLast(units: seq<UnitConfig>, name: string)
    ensures LastOf(SortByPriority(units), name) == TopOf(units, name)
    decreases |units|
  {
    if |units| > 0 {
      var front := units[..|units| - 1];
      SortedLast(front, name);
      SortIsStable(front);
      InsertLast(SortByPriority(front), units[|units| - 1], name);
    }
  }

  /** For every name, the namesake of highest priority has the dependencies of the last one
      in the file. */
  ghost predicate TopIsLast(units: seq<UnitConfig>) {
    forall u <- units ::
      && LastOf(units, u.name).Some? && TopOf(units, u.name).Some?
      && BareDeps(LastOf(units, u.name).value) == BareDeps(TopOf(units, u.name).value)
  }

  /** The sort keeps the graph that was validated exactly when, for every bare name, the unit
      of highest priority lists the dependencies of the unit last in the file. */
  lemma SortKeepsGraph(units: seq<UnitConfig>)
    ensures GraphOf(SortByPriority(units)) == GraphOf(units) <==> TopIsLast(units)
    ensures NamesakesAgree(units) ==> TopIsLast(units)
  {
    var sorted := SortByPriority(units);
    SortIsStable(units);
    ReorderingKeepsGraph(units, sorted);
    OrderMattersNot(units);
    forall u <- units ensures SameDeps(units, sorted, u.name) <==>
        LastOf(units, u.name).Some? && TopOf(units, u.name).Some?
        && BareDeps(LastOf(units, u.name).value) == BareDeps(TopOf(units, u.name).value)
    {
      SortedLast(units, u.name);
    }
  }

  /** Loading a configuration and asking for its start order: validation in file order, the
      sort by priority, the depth-first order. Every name comes after all its dependencies
      exactly when the sorted list has no cycle; so it does when merging namesakes gives no
      cycle, or when the sort keeps the graph that was validated. */
  method LoadedOrder(units: seq<UnitConfig>) returns (err: Option<DepError>, order: seq<string>)
    ensures err.None? <==> (forall u <- units :: DepsKnown(units, u)) && Acyclic(GraphOf(units))
    ensures err.None? ==> NoDups(order) && forall n :: n in order <==> n in Names(GraphOf(SortByPriority(units)))
    ensures err.None? ==> (DepsFirst(GraphOf(SortByPriority(units)), order) <==> Acyclic(GraphOf(SortByPriority(units))))
    ensures err.None? && Acyclic(Merged(units)) ==> DepsFirst(GraphOf(SortByPriority(units)), order)
    ensures err.None? && TopIsLast(units) ==> DepsFirst(GraphOf(units), order)
  {
    err := ValidateDependencies(units);
    if err.Some? {
      return err, [];
    }
    var sorted := SortByPriority(units);
    order := DependencyOrder(sorted);
    SortIsStable(units);
    SortKeepsGraph(units);
    EveryOrderAcyclic(units);
  }

  const TIMER_A := UnitConfig("a", "timer", None, false, 1, [], [], None, None)
  const SERVICE_A := UnitConfig("a", "service", None, false, 2, ["b"], [], None, None)
  const SERVICE_B := UnitConfig("b", "service", None, false, 3, ["a"], [], None, None)

  /** Without the proviso an accepted list can become cyclic by the sort: in file order
      a.timer hides the dependency of a.service, in priority order it does not. */
  lemma SortCanBreakAcceptedConfig()
    ensures var file := [SERVICE_A, TIMER_A, SERVICE_B];
      && (forall u <- file :: DepsKnown(file, u)) && Acyclic(GraphOf(file))
      && SortByPriority(file) == [TIMER_A, SERVICE_A, SERVICE_B] && !Acyclic(GraphOf(SortByPriority(file)))
  {
    var file, sorted := [SERVICE_A, TIMER_A, SERVICE_B], [TIMER_A, SERVICE_A, SERVICE_B];
    ExampleDeps();
    ThreeSorted(SERVICE_A, TIMER_A, SERVICE_B);
    ThreeUnits(SERVICE_A, TIMER_A, SERVICE_B);
    ThreeUnits(TIMER_A, SERVICE_A, SERVICE_B);
    FileOrderAcyclic(GraphOf(file));
    assert IsCycle(GraphOf(sorted), ["a", "b", "a"]);
    assert Known(file, "a") by { assert TIMER_A in file; }
    assert Known(file, "b") by { assert SERVICE_B in file; }
  }

  lemma ThreeSorted(a: UnitConfig, b: UnitConfig, c: UnitConfig)
    requires b.priority < a.priority <= c.priority
    ensures SortByPriority([a, b, c]) == [b, a, c]
  {
    assert [a, b, c][..2] == [a, b];
    assert [a, b][..1] == [a];
    assert [a][..0] == [];
    assert SortByPriority([a]) == [a];
    assert InsertByPriority([], b) == [b];
    assert InsertByPriority([a], b) == [b] + [a];
    assert SortByPriority([a, b]) == [b, a];
  }

  lemma ExampleDeps()
    ensures !IsQualifiedDep("a") && !IsQualifiedDep("b")
    ensures BareDeps(SERVICE_A) == ["b"] && BareDeps(SERVICE_B) == ["a"] && BareDeps(TIMER_A) == []
  {
  }

  lemma FileOrderAcyclic(g: Graph)
    requires g == map["a" := [], "b" := ["a"]]
    ensures Acyclic(g)
  {
    var order := ["a", "b"];
    assert order[..1] == ["a"];
    OrderedIsAcyclic(g, order);
  }

  lemma ThreeUnits(a: UnitConfig, b: UnitConfig, c: UnitConfig)
    ensures GraphOf([a, b, c]) == map[a.name := BareDeps(a)][b.name := BareDeps(b)][c.name := BareDeps(c)]
  {
    assert [a, b, c][..2] == [a, b];
    assert [a, b][..1] == [a];
    assert [a][..0] == [];
    assert GraphOf([a]) == map[a.name := BareDeps(a)];
    assert GraphOf([a, b]) == map[a.name := BareDeps(a)][b.name := BareDeps(b)];
  }

  // ---- names in the order that are no unit

  /** The unit that counts for a name depends on no service named like a timer, unless the
      bare name that leaves is a unit's. */
  ghost predicate NoTrimmedTwice(units: seq<UnitConfig>) {
    forall u <- units :: LastOf(units, u.name) == Some(u) ==>
      forall d <- u.dependsOn | HasSuffix(d, ".timer.service") :: exists v <- units :: v.name == DepBareName(d)
  }

  lemma KnownResolves(units: seq<UnitConfig>, dep: string)
    requires forall u <- units :: u.kind == "service" || u.kind == "timer"
    requires Known(units, dep) && !HasSuffix(dep, ".timer.service")
    ensures exists v <- units :: v.name == DepBareName(dep)
  {
    if IsQualifiedDep(dep) {
      var u :| u in units && u.UnitName() == dep;
      QualifiedDepResolves(u);
      if u.kind == "service" && HasSuffix(u.name, ".timer") {
        TimerService(u.name);
        assert false;
      }
    }
  }

  lemma TimerService(name: string)
    requires HasSuffix(name, ".timer")
    ensures HasSuffix(name + "." + "service", ".timer.service")
  {
    var front := name[..|name| - 6];
    assert name == front + ".timer";
    assert name + "." + "service" == front + ".timer.service";
    SuffixOfConcat(front, ".timer.service", ".timer.service");
  }

  /** In a list whose dependencies are known, the start order lists exactly the unit names,
      and nothing that is no unit, exactly under that condition. */
  lemma AcceptedGraphIsClosed(units: seq<UnitConfig>)
    requires forall u <- units :: DepsKnown(units, u) && (u.kind == "service" || u.kind == "timer")
    ensures Names(GraphOf(units)) == (set u <- units :: u.name) <==> NoTrimmedTwice(units)
  {
    var g := GraphOf(units);
    GraphKeys(units);
    if NoTrimmedTwice(units) {
      forall n, d | n in g && d in g[n] ensures d in g {
        GraphAt(units, n);
        var u := LastOf(units, n).value;
        var j :| 0 <= j < |u.dependsOn| && BareDeps(u)[j] == d;
        assert u.dependsOn[j] in u.dependsOn;
        if !HasSuffix(u.dependsOn[j], ".timer.service") { KnownResolves(units, u.dependsOn[j]); }
      }
    }
    if Names(g) == set u <- units :: u.name {
      forall u <- units, d <- u.dependsOn | LastOf(units, u.name) == Some(u)
        ensures exists v <- units :: v.name == DepBareName(d)
      {
        GraphAt(units, u.name);
        var j :| 0 <= j < |u.dependsOn| && u.dependsOn[j] == d;
        assert BareDeps(u)[j] in g[u.name];
        assert DepBareName(d) in Names(g);
      }
    }
  }
}
