/**
 Dependency graph of a configuration: cycle detection and start order.

 Both algorithms are depth-first searches whose closures update captured maps and
 slices in place; here each is a class holding what its closure captures.
 */
module DependencyGraph {

  import opened Units

  /** Bare unit name to bare dependency names. */
  type Graph = map<string, seq<string>>

  function BareDeps(u: UnitConfig): (r: seq<string>)
    ensures |r| == |u.dependsOn|
  {
    seq(|u.dependsOn|, i requires 0 <= i < |u.dependsOn| => DepBareName(u.dependsOn[i]))
  }

  /** The graph both algorithms build: keyed by bare name, the last unit of a name wins. */
  function GraphOf(units: seq<UnitConfig>): Graph {
    if |units| == 0 then map[]
    else
      var u := units[|units| - 1];
      GraphOf(units[..|units| - 1])[u.name := BareDeps(u)]
  }

  function Succ(g: Graph, n: string): seq<string> {
    if n in g then g[n] else []
  }

  // ---- paths and cycles

  ghost predicate IsPath(g: Graph, p: seq<string>) {
    forall i | 0 <= i < |p| - 1 :: p[i + 1] in Succ(g, p[i])
  }

  ghost predicate IsCycle(g: Graph, p: seq<string>) {
    |p| >= 2 && IsPath(g, p) && p[0] == p[|p| - 1]
  }

  ghost predicate Acyclic(g: Graph) {
    forall p :: !IsCycle(g, p)
  }

  ghost predicate OnCycle(g: Graph, n: string) {
    exists p :: IsCycle(g, p) && p[0] == n
  }

  lemma CycleIsNotAcyclic(g: Graph, n: string)
    requires OnCycle(g, n)
    ensures !Acyclic(g)
  {
  }

  // ---- topological orders

  ghost predicate NoDups(s: seq<string>) {
    forall i, j | 0 <= i < j < |s| :: s[i] != s[j]
  }

  /** Every name of the order comes after all its dependencies. */
  ghost predicate DepsFirst(g: Graph, order: seq<string>) {
    forall i | 0 <= i < |order| :: forall d <- Succ(g, order[i]) :: d in order[..i]
  }

  /** The unit names and the dependency names. */
  ghost function Names(g: Graph): set<string> {
    g.Keys + set n, d | n in g && d in g[n] :: d
  }

  lemma SuccInNames(g: Graph, n: string)
    ensures forall d <- Succ(g, n) :: d in Names(g)
  {
  }

  lemma PathSuffix(g: Graph, p: seq<string>, k: nat)
    requires IsPath(g, p) && k <= |p|
    ensures IsPath(g, p[k..])
  {
    var q := p[k..];
    forall i | 0 <= i < |q| - 1 ensures q[i + 1] in Succ(g, q[i]) {
      assert p[k + i + 1] in Succ(g, p[k + i]);
    }
  }

  /** Along a path, positions in such an order strictly decrease. */
  lemma {:induction false} PathDescends(g: Graph, order: seq<string>, p: seq<string>, i: nat) returns (j: nat)
    requires NoDups(order) && DepsFirst(g, order)
    requires |p| >= 2 && IsPath(g, p) && i < |order| && order[i] == p[0]
    ensures j < i && order[j] == p[|p| - 1]
    decreases |p|
  {
    assert p[1] in Succ(g, order[i]);
    var k :| 0 <= k < i && order[..i][k] == p[1];
    if |p| == 2 {
      j := k;
    } else {
      var q := p[1..];
      PathSuffix(g, p, 1);
      j := PathDescends(g, order, q, k);
    }
  }

  /** A dependency-first order of all units rules out every cycle. */
  lemma OrderedIsAcyclic(g: Graph, order: seq<string>)
    requires NoDups(order) && DepsFirst(g, order) && forall n <- g.Keys :: n in order
    ensures Acyclic(g)
  {
    forall p ensures !IsCycle(g, p) {
      if IsCycle(g, p) {
        assert p[1] in Succ(g, p[0]);
        var i :| 0 <= i < |order| && order[i] == p[0];
        var j := PathDescends(g, order, p, i);
      }
    }
  }

  lemma PathSnoc(g: Graph, p: seq<string>, n: string)
    requires IsPath(g, p) && (|p| > 0 ==> n in Succ(g, p[|p| - 1]))
    ensures IsPath(g, p + [n])
  {
    var q := p + [n];
    forall i | 0 <= i < |q| - 1 ensures q[i + 1] in Succ(g, q[i]) {
      if i + 1 < |p| { assert p[i + 1] in Succ(g, p[i]); }
    }
  }

  /** An edge from the top of a path back into the path closes a cycle. */
  lemma BackEdge(g: Graph, stack: seq<string>, d: string)
    requires IsPath(g, stack) && d in stack && d in Succ(g, stack[|stack| - 1])
    ensures OnCycle(g, d)
  {
    var k :| 0 <= k < |stack| && stack[k] == d;
    var p := stack[k..] + [d];
    var q := stack[k..];
    PathSuffix(g, stack, k);
    PathSnoc(g, q, d);
    assert IsCycle(g, p) && p[0] == d;
  }

  lemma AppendOrdered(g: Graph, order: seq<string>, n: string)
    requires NoDups(order) && DepsFirst(g, order)
    requires n !in order && forall d <- Succ(g, n) :: d in order
    ensures NoDups(order + [n]) && DepsFirst(g, order + [n])
  {
    var r := order + [n];
    forall i | 0 <= i < |r| ensures forall d <- Succ(g, r[i]) :: d in r[..i] {
      assert r[..i] == order[..i];
      if i == |order| { assert order[..i] == order; }
    }
  }

  // ---- cycle detection

  datatype Color = Visiting | Visited

  /** What detectCycle's recursive closure captures. Names absent from `state` are unvisited. */
  class CycleDetector {
    const deps: Graph
    var state: map<string, Color>
    ghost var finished: seq<string>   // the visited names in the order they finished

    constructor (deps: Graph)
      ensures this.deps == deps && state == map[] && finished == []
    {
      this.deps := deps;
      state := map[];
      finished := [];
    }

    /** `stack` is the chain of visiting names, each a dependency of the one before. */
    ghost predicate Valid(stack: seq<string>)
      reads this
    {
      && state.Keys <= Names(deps)
      && (forall n :: n in state && state[n].Visiting? <==> n in stack)
      && (forall n :: n in state && state[n].Visited? <==> n in finished)
      && IsPath(deps, stack)
      && NoDups(finished) && DepsFirst(deps, finished)
    }

    method Visit(name: string, ghost stack: seq<string>) returns (err: Option<string>)
      requires Valid(stack) && name in Names(deps)
      requires |stack| > 0 ==> name in Succ(deps, stack[|stack| - 1])
      modifies this
      ensures old(state.Keys) <= state.Keys <= Names(deps)
      ensures err.None? ==> Valid(stack) && name in finished && forall n <- old(finished) :: n in finished
      ensures err.Some? ==> OnCycle(deps, err.value)
      decreases Names(deps) - state.Keys, 1
    {
      if name in state {
        match state[name] {
          case Visiting =>
            BackEdge(deps, stack, name);
            return Some(name);
          case Visited =>
            return None;
        }
      }
      ghost var white := Names(deps) - state.Keys;
      state := state[name := Visiting];
      assert Names(deps) - state.Keys == white - {name} && name in white;
      ghost var chain := stack + [name];
      PathSnoc(deps, stack, name);
      SuccInNames(deps, name);
      err := VisitDeps(name, chain);
      if err.Some? {
        return err;
      }
      assert name !in finished;
      state := state[name := Visited];
      ghost var before := finished;
      finished := finished + [name];
      AppendOrdered(deps, before, name);
      return None;
    }

    method VisitDeps(name: string, ghost chain: seq<string>) returns (err: Option<string>)
      requires |chain| > 0 && chain[|chain| - 1] == name && name in state && name in Names(deps)
      requires Valid(chain)
      modifies this
      ensures old(state.Keys) <= state.Keys <= Names(deps)
      ensures err.None? ==> Valid(chain) && forall n <- old(finished) :: n in finished
      ensures err.None? ==> forall d <- Succ(deps, name) :: d in finished
      ensures err.Some? ==> OnCycle(deps, err.value)
      decreases Names(deps) - state.Keys, 2
    {
      var ds := if name in deps then deps[name] else [];
      SuccInNames(deps, name);
      for i := 0 to |ds|
        invariant old(state.Keys) <= state.Keys <= Names(deps)
        invariant Valid(chain) && forall n <- old(finished) :: n in finished
        invariant forall k | 0 <= k < i :: ds[k] in finished
      {
        assert Names(deps) - state.Keys <= Names(deps) - old(state.Keys);
        err := Visit(ds[i], chain);
        if err.Some? {
          return err;
        }
      }
      return None;
    }
  }

  lemma {:induction false} GraphKeys(units: seq<UnitConfig>)
    ensures GraphOf(units).Keys == set u <- units :: u.name
    decreases |units|
  {
    if |units| > 0 {
      var front, last := units[..|units| - 1], units[|units| - 1];
      GraphKeys(front);
      assert units == front + [last];
    }
  }

  /** The value at a name is that of some unit of that name. */
  lemma {:induction false} GraphEntry(units: seq<UnitConfig>, n: string) returns (i: nat)
    requires n in GraphOf(units)
    ensures i < |units| && units[i].name == n && GraphOf(units)[n] == BareDeps(units[i])
    decreases |units|
  {
    var last := |units| - 1;
    if units[last].name == n {
      i := last;
    } else {
      i := GraphEntry(units[..last], n);
    }
  }

  method BuildGraph(units: seq<UnitConfig>) returns (deps: Graph)
    ensures deps == GraphOf(units)
  {
    deps := map[];
    for k := 0 to |units|
      invariant deps == GraphOf(units[..k])
    {
      var u := units[k];
      var bareDeps := [];
      for i := 0 to |u.dependsOn|
        invariant |bareDeps| == i && forall j | 0 <= j < i :: bareDeps[j] == DepBareName(u.dependsOn[j])
      {
        bareDeps := bareDeps + [DepBareName(u.dependsOn[i])];
      }
      assert bareDeps == BareDeps(u);
      deps := deps[u.name := bareDeps];
      assert units[..k + 1][..k] == units[..k];
    }
    assert units[..|units|] == units;
  }

  /** Reports an error exactly when the bare-name graph has a cycle, naming a unit on one. */
  method DetectCycle(units: seq<UnitConfig>) returns (err: Option<string>)
    ensures err.None? <==> Acyclic(GraphOf(units))
    ensures err.Some? ==> OnCycle(GraphOf(units), err.value)
  {
    var deps := BuildGraph(units);
    GraphKeys(units);
    var c := new CycleDetector(deps);
    for i := 0 to |units|
      invariant fresh(c) && c.Valid([])
      invariant forall k | 0 <= k < i :: units[k].name in c.finished
    {
      err := c.Visit(units[i].name, []);
      if err.Some? {
        CycleIsNotAcyclic(deps, err.value);
        return err;
      }
    }
    OrderedIsAcyclic(deps, c.finished);
    return None;
  }

  // ---- start order

  /** The depth-first post-order from the given names: what is visited and listed after
      visiting each of `todo` that is not yet visited, its dependencies first. */
  ghost function PostOrder(g: Graph, todo: seq<string>, visited: set<string>, order: seq<string>): (r: (set<string>, seq<string>))
    requires forall n <- todo :: n in Names(g)
    ensures visited <= r.0
    decreases Names(g) - visited, |todo|
  {
    if todo == [] then (visited, order)
    else if todo[0] in visited then PostOrder(g, todo[1..], visited, order)
    else
      SuccInNames(g, todo[0]);
      assert todo[0] in Names(g) - visited && todo[0] !in Names(g) - (visited + {todo[0]});
      var r := PostOrder(g, Succ(g, todo[0]), visited + {todo[0]}, order);
      assert todo[0] !in Names(g) - r.0 && Names(g) - r.0 <= Names(g) - visited;
      PostOrder(g, todo[1..], r.0, r.1 + [todo[0]])
  }

  /** What DependencyOrder's recursive closure captures. */
  class OrderBuilder {
    const deps: Graph
    var visited: set<string>
    var order: seq<string>

    constructor (deps: Graph)
      ensures this.deps == deps && visited == {} && order == []
    {
      this.deps := deps;
      visited, order := {}, [];
    }

    /** `stack` is the chain of visited names whose visit is still in progress. */
    ghost predicate Valid(stack: seq<string>)
      reads this
    {
      && visited <= Names(deps)
      && (forall n :: n in visited <==> n in order || n in stack)
      && (forall n <- stack :: n !in order)
      && IsPath(deps, stack)
      && NoDups(order)
      && (forall n <- order :: forall d <- Succ(deps, n) :: d in visited)
      && (Acyclic(deps) ==> DepsFirst(deps, order))
    }

    method Visit(name: string, ghost stack: seq<string>)
      requires Valid(stack) && name in Names(deps)
      requires |stack| > 0 ==> name in Succ(deps, stack[|stack| - 1])
      modifies this
      ensures Valid(stack) && old(visited) <= visited && name in visited
      ensures (visited, order) == PostOrder(deps, [name], old(visited), old(order))
      decreases Names(deps) - visited, 1
    {
      if name in visited {
        return;
      }
      ghost var white := Names(deps) - visited;
      visited := visited + {name};
      assert Names(deps) - visited == white - {name} && name in white;
      ghost var chain := stack + [name];
      PathSnoc(deps, stack, name);
      SuccInNames(deps, name);
      VisitDeps(name, chain);
      Append(name, stack, chain);
    }

    method VisitDeps(name: string, ghost chain: seq<string>)
      requires |chain| > 0 && chain[|chain| - 1] == name && Valid(chain) && name in Names(deps)
      modifies this
      ensures Valid(chain) && old(visited) <= visited
      ensures forall d <- Succ(deps, name) :: d in visited
      ensures forall d <- Succ(deps, name) :: d in Names(deps)
      ensures (visited, order) == PostOrder(deps, Succ(deps, name), old(visited), old(order))
      decreases Names(deps) - visited, 2
    {
      var ds := if name in deps then deps[name] else [];
      SuccInNames(deps, name);
      for i := 0 to |ds|
        invariant Valid(chain) && old(visited) <= visited
        invariant forall k | 0 <= k < i :: ds[k] in visited
        invariant PostOrder(deps, ds[i..], visited, order) == PostOrder(deps, ds, old(visited), old(order))
      {
        assert Names(deps) - visited <= Names(deps) - old(visited);
        assert ds[i] in Succ(deps, name);
        PostOrderHead(deps, ds[i..], visited, order);
        assert ds[i..][0] == ds[i] && ds[i..][1..] == ds[i + 1..];
        Visit(ds[i], chain);
      }
    }

    method VisitUnits(units: seq<UnitConfig>)
      requires Valid([]) && forall n <- UnitNames(units) :: n in Names(deps)
      modifies this
      ensures Valid([]) && forall n <- UnitNames(units) :: n in visited
      ensures (visited, order) == PostOrder(deps, UnitNames(units), old(visited), old(order))
    {
      ghost var names := UnitNames(units);
      for i := 0 to |units|
        invariant Valid([])
        invariant forall k | 0 <= k < i :: names[k] in visited
        invariant PostOrder(deps, names[i..], visited, order) == PostOrder(deps, names, old(visited), old(order))
      {
        PostOrderHead(deps, names[i..], visited, order);
        assert names[i..][0] == units[i].name && names[i..][1..] == names[i + 1..];
        Visit(units[i].name, []);
      }
    }

    method Append(name: string, ghost stack: seq<string>, ghost chain: seq<string>)
      requires chain == stack + [name] && name !in stack && Valid(chain)
      requires forall d <- Succ(deps, name) :: d in visited
      modifies this`order
      ensures Valid(stack) && order == old(order) + [name]
    {
      if Acyclic(deps) {
        forall d <- Succ(deps, name) ensures d in order {
          if d in chain {
            BackEdge(deps, chain, d);
            assert false;
          }
        }
        AppendOrdered(deps, order, name);
      }
      PathPrefix(deps, stack, chain);
      order := order + [name];
    }
  }

  lemma PostOrderHead(g: Graph, todo: seq<string>, visited: set<string>, order: seq<string>)
    requires todo != [] && forall n <- todo :: n in Names(g)
    ensures var r := PostOrder(g, [todo[0]], visited, order);
            PostOrder(g, todo, visited, order) == PostOrder(g, todo[1..], r.0, r.1)
  {
    assert [todo[0]][1..] == [];
  }

  /** Visiting a list is visiting its first part, then the rest. */
  lemma {:induction false} VisitsInListOrder(g: Graph, todo: seq<string>, more: seq<string>, visited: set<string>, order: seq<string>)
    requires forall n <- todo + more :: n in Names(g)
    ensures (forall n <- todo :: n in Names(g)) && forall n <- more :: n in Names(g)
    ensures var r := PostOrder(g, todo, visited, order);
            PostOrder(g, todo + more, visited, order) == PostOrder(g, more, r.0, r.1)
    decreases |todo|
  {
    forall n | n in todo || n in more ensures n in todo + more {}
    if todo == [] {
      assert todo + more == more;
    } else {
      assert (todo + more)[0] == todo[0] && (todo + more)[1..] == todo[1..] + more;
      PostOrderHead(g, todo, visited, order);
      PostOrderHead(g, todo + more, visited, order);
      var r := PostOrder(g, [todo[0]], visited, order);
      VisitsInListOrder(g, todo[1..], more, r.0, r.1);
    }
  }

  /** Visiting a name lists its dependencies as they are listed, then the name; once. */
  lemma VisitsDepsFirst(g: Graph, n: string, visited: set<string>, order: seq<string>)
    requires n in Names(g)
    ensures forall d <- Succ(g, n) :: d in Names(g)
    ensures n in visited ==> PostOrder(g, [n], visited, order) == (visited, order)
    ensures n !in visited ==>
              var r := PostOrder(g, Succ(g, n), visited + {n}, order);
              PostOrder(g, [n], visited, order) == (r.0, r.1 + [n])
  {
    SuccInNames(g, n);
    assert [n][1..] == [];
  }

  /** For example, two dependencies come in the order in which they are listed. */
  lemma DepsInOrder(a: string, b: string, c: string)
    requires a != b && b != c && a != c
    ensures var g: Graph := map[a := [b, c]];
      a in Names(g) && PostOrder(g, [a], {}, []).1 == [b, c, a]
  {
    var g: Graph := map[a := [b, c]];
    assert g[a][0] == b && g[a][1] == c;
    assert [b, c] == [b] + [c] && {} + {a} == {a} && {a} + {b} == {a, b};
    VisitsDepsFirst(g, a, {}, []);
    VisitsInListOrder(g, [b], [c], {a}, []);
    VisitsDepsFirst(g, b, {a}, []);
    assert Succ(g, b) == [] && Succ(g, c) == [];
    assert [] + [b] == [b] && [b] + [c] == [b, c] && [b, c] + [a] == [b, c, a];
    assert PostOrder(g, [b], {a}, []) == ({a, b}, [b]);
    VisitsDepsFirst(g, c, {a, b}, [b]);
    assert PostOrder(g, [c], {a, b}, [b]).1 == [b, c];
  }

  lemma PathPrefix(g: Graph, p: seq<string>, q: seq<string>)
    requires IsPath(g, q) && p <= q
    ensures IsPath(g, p)
  {
    forall i | 0 <= i < |p| - 1 ensures p[i + 1] in Succ(g, p[i]) {
      assert q[i + 1] in Succ(g, q[i]);
    }
  }

  function UnitNames(units: seq<UnitConfig>): (r: seq<string>)
    ensures |r| == |units| && forall i | 0 <= i < |units| :: r[i] == units[i].name
  {
    seq(|units|, i requires 0 <= i < |units| => units[i].name)
  }

  /** Lists every unit and dependency name exactly once, on any graph, even a cyclic one;
      every name comes after all its dependencies exactly when the graph is acyclic. The
      order is the depth-first post-order from the units in list order. */
  method DependencyOrder(units: seq<UnitConfig>) returns (order: seq<string>)
    ensures NoDups(order) && forall n :: n in order <==> n in Names(GraphOf(units))
    ensures DepsFirst(GraphOf(units), order) <==> Acyclic(GraphOf(units))
    ensures (forall n <- UnitNames(units) :: n in Names(GraphOf(units)))
            && order == PostOrder(GraphOf(units), UnitNames(units), {}, []).1
  {
    var deps := BuildGraph(units);
    var b := new OrderBuilder(deps);
    UnitNamesKnown(units);
    b.VisitUnits(units);
    order := b.order;
    ClosedCoversNames(deps, units, b.visited, order);
    if DepsFirst(deps, order) {
      OrderedIsAcyclic(deps, order);
    }
  }

  lemma UnitNamesKnown(units: seq<UnitConfig>)
    ensures forall n <- UnitNames(units) :: n in Names(GraphOf(units))
    ensures forall n <- GraphOf(units) :: n in UnitNames(units)
  {
    GraphKeys(units);
    forall n <- GraphOf(units) ensures n in UnitNames(units) {
      var i := GraphEntry(units, n);
      assert UnitNames(units)[i] == n;
    }
  }

  /** Names closed under dependencies that include all units are all the names. */
  lemma ClosedCoversNames(g: Graph, units: seq<UnitConfig>, visited: set<string>, order: seq<string>)
    requires visited <= Names(g) && forall n <- g :: n in visited
    requires forall n :: n in visited <==> n in order
    requires forall n <- order :: forall d <- Succ(g, n) :: d in visited
    ensures forall n :: n in order <==> n in Names(g)
  {
    forall n, d | n in g && d in g[n] ensures d in visited {
      assert n in order && d in Succ(g, n);
    }
  }

  // ---- validation

  datatype DepError = UnknownDep(unit: string, dep: string) | Circular(unit: string)

  predicate Known(units: seq<UnitConfig>, dep: string) {
    if IsQualifiedDep(dep) then exists u <- units :: u.UnitName() == dep
    else exists u <- units :: u.name == dep
  }

  predicate DepsKnown(units: seq<UnitConfig>, u: UnitConfig) {
    forall d <- u.dependsOn :: Known(units, d)
  }

  /** `units[i].dependsOn[j]` is the first unknown dependency, in file order. */
  ghost predicate FirstUnknown(units: seq<UnitConfig>, i: nat, j: nat) {
    && i < |units| && j < |units[i].dependsOn|
    && !Known(units, units[i].dependsOn[j])
    && (forall k | 0 <= k < i :: DepsKnown(units, units[k]))
    && (forall l | 0 <= l < j :: Known(units, units[i].dependsOn[l]))
  }

  /** Accepts exactly the configurations whose dependencies all name a unit and whose graph
      is acyclic; otherwise reports the first unknown dependency or a unit on a cycle. */
  method ValidateDependencies(units: seq<UnitConfig>) returns (err: Option<DepError>)
    ensures err.None? <==> (forall u <- units :: DepsKnown(units, u)) && Acyclic(GraphOf(units))
    ensures err.Some? && err.value.UnknownDep? ==>
              exists i: nat, j: nat :: FirstUnknown(units, i, j) && err.value.dep == units[i].dependsOn[j] &&
                err.value.unit == if IsQualifiedDep(err.value.dep) then units[i].UnitName() else units[i].name
    ensures err.Some? && err.value.Circular? ==>
              (forall u <- units :: DepsKnown(units, u)) && OnCycle(GraphOf(units), err.value.unit)
  {
    var bareNames: set<string> := {};
    var qualifiedNames: set<string> := {};
    for i := 0 to |units|
      invariant bareNames == set k | 0 <= k < i :: units[k].name
      invariant qualifiedNames == set k | 0 <= k < i :: units[k].UnitName()
    {
      bareNames := bareNames + {units[i].name};
      qualifiedNames := qualifiedNames + {units[i].UnitName()};
    }
    for i := 0 to |units|
      invariant forall k | 0 <= k < i :: DepsKnown(units, units[k])
    {
      var u := units[i];
      for j := 0 to |u.dependsOn|
        invariant forall l | 0 <= l < j :: Known(units, u.dependsOn[l])
      {
        var dep := u.dependsOn[j];
        assert u in units && dep in u.dependsOn;
        if IsQualifiedDep(dep) {
          if dep !in qualifiedNames {
            assert FirstUnknown(units, i, j);
            return Some(UnknownDep(u.UnitName(), dep));
          }
        } else if dep !in bareNames {
          assert FirstUnknown(units, i, j);
          return Some(UnknownDep(u.name, dep));
        }
      }
    }
    var cycle := DetectCycle(units);
    if cycle.Some? {
      return Some(Circular(cycle.value));
    }
    return None;
  }
}
