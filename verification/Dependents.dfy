/** The reverse-dependency index that drives the cascade. */
module Dependents {

  import opened Units

  type Index = map<string, seq<string>>

  /** The full unit name a dependency of `u` refers to. */
  function Resolve(dep: string, u: UnitConfig): string {
    if IsQualifiedDep(dep) then dep else dep + "." + u.kind
  }

  /** One resolved dependency: `user` depends on `on`. */
  datatype Edge = Edge(on: string, user: string)

  /** The resolved dependencies of a unit, in the order it lists them. */
  function UnitEdges(u: UnitConfig): (r: seq<Edge>)
    ensures |r| == |u.dependsOn|
  {
    seq(|u.dependsOn|, i requires 0 <= i < |u.dependsOn| => Edge(Resolve(u.dependsOn[i], u), u.UnitName()))
  }

  function Edges(units: seq<UnitConfig>): seq<Edge> {
    if |units| == 0 then [] else Edges(units[..|units| - 1]) + UnitEdges(units[|units| - 1])
  }

  /** The users of `on` among the edges, in order and with multiplicity. */
  function UsersOf(on: string, es: seq<Edge>): seq<string> {
    if |es| == 0 then []
    else
      UsersOf(on, es[..|es| - 1]) + if es[|es| - 1].on == on then [es[|es| - 1].user] else []
  }

  ghost predicate Inverts(m: Index, es: seq<Edge>) {
    && (forall d <- m :: m[d] == UsersOf(d, es) && m[d] != [])
    && (forall e <- es :: e.on in m)
  }

  lemma UsersSnoc(on: string, es: seq<Edge>, e: Edge)
    ensures UsersOf(on, es + [e]) == UsersOf(on, es) + if e.on == on then [e.user] else []
  {
    assert (es + [e])[..|es|] == es;
  }

  lemma {:induction false} NoUsers(on: string, es: seq<Edge>)
    requires forall e <- es :: e.on != on
    ensures UsersOf(on, es) == []
    decreases |es|
  {
    if |es| > 0 {
      assert es[|es| - 1] in es;
      NoUsers(on, es[..|es| - 1]);
    }
  }

  lemma InvertsSnoc(m: Index, es: seq<Edge>, e: Edge)
    requires Inverts(m, es)
    ensures Inverts(m[e.on := (if e.on in m then m[e.on] else []) + [e.user]], es + [e])
  {
    var r := m[e.on := (if e.on in m then m[e.on] else []) + [e.user]];
    if e.on !in m { NoUsers(e.on, es); }
    forall d <- r ensures r[d] == UsersOf(d, es + [e]) && r[d] != [] {
      UsersSnoc(d, es, e);
    }
    forall x <- es + [e] ensures x.on in r {
      if x !in es { assert x == e; }
    }
  }

  // ---- the index in terms of the configuration alone

  /** The `j`-th dependency of the `i`-th unit. */
  datatype Pos = Pos(i: nat, j: nat)

  predicate Before(p: Pos, q: Pos) {
    p.i < q.i || (p.i == q.i && p.j < q.j)
  }

  /** That dependency means the unit `on`: as it stands if qualified, else with the type of
      the unit that has it. */
  predicate PointsTo(units: seq<UnitConfig>, p: Pos, on: string) {
    && p.i < |units| && p.j < |units[p.i].dependsOn|
    && var d := units[p.i].dependsOn[p.j];
       on == if HasSuffix(d, ".service") || HasSuffix(d, ".timer") then d else d + "." + units[p.i].kind
  }

  /** `ps` are the positions between `from` and `to` with the property, in order, and `users`
      what stands there. */
  ghost predicate Lists(at: Pos -> bool, name: Pos -> string, from: Pos, to: Pos, users: seq<string>, ps: seq<Pos>) {
    && |ps| == |users|
    && (forall k | 0 <= k < |ps| :: at(ps[k]) && !Before(ps[k], from) && Before(ps[k], to) && users[k] == name(ps[k]))
    && (forall k, l | 0 <= k < l < |ps| :: Before(ps[k], ps[l]))
    && (forall p | at(p) && !Before(p, from) && Before(p, to) :: p in ps)
  }

  ghost function At(units: seq<UnitConfig>, on: string): Pos -> bool {
    (p: Pos) => PointsTo(units, p, on)
  }

  function UserAt(units: seq<UnitConfig>): Pos -> string {
    (p: Pos) => if p.i < |units| then units[p.i].name + "." + units[p.i].kind else ""
  }

  /** `users` are the full names of the units with a dependency on `on`, in configuration
      order, once per dependency. */
  ghost predicate ListsUsers(units: seq<UnitConfig>, on: string, users: seq<string>, ps: seq<Pos>) {
    Lists(At(units, on), UserAt(units), Pos(0, 0), Pos(|units|, 0), users, ps)
  }

  /** For each unit depended on, and no other name, its users in configuration order, once per
      dependency. */
  ghost predicate IsIndex(units: seq<UnitConfig>, index: Index) {
    && (forall on :: on in index <==> exists p :: PointsTo(units, p, on))
    && (forall on <- index :: exists ps :: ListsUsers(units, on, index[on], ps))
  }

  lemma {:induction false} UsersAppend(on: string, es: seq<Edge>, fs: seq<Edge>)
    ensures UsersOf(on, es + fs) == UsersOf(on, es) + UsersOf(on, fs)
    decreases |fs|
  {
    if |fs| == 0 {
      assert es + fs == es;
    } else {
      var front, f := fs[..|fs| - 1], fs[|fs| - 1];
      UsersAppend(on, es, front);
      assert es + fs == es + front + [f] && fs == front + [f];
      UsersSnoc(on, es + front, f);
      UsersSnoc(on, front, f);
    }
  }

  lemma Join(at: Pos -> bool, name: Pos -> string, a: Pos, b: Pos, c: Pos, us: seq<string>, ps: seq<Pos>, vs: seq<string>, qs: seq<Pos>)
    requires Lists(at, name, a, b, us, ps) && Lists(at, name, b, c, vs, qs) && !Before(b, a) && !Before(c, b)
    ensures Lists(at, name, a, c, us + vs, ps + qs)
  {
    var rs := ps + qs;
    forall k, l | 0 <= k < l < |rs| ensures Before(rs[k], rs[l]) {
      if k < |ps| <= l { assert Before(rs[k], b) && !Before(rs[l], b); }
    }
  }

  lemma One(at: Pos -> bool, name: Pos -> string, i: nat, j: nat)
    ensures Lists(at, name, Pos(i, j), Pos(i, j + 1), if at(Pos(i, j)) then [name(Pos(i, j))] else [], if at(Pos(i, j)) then [Pos(i, j)] else [])
  {
    assert forall p :: !Before(p, Pos(i, j)) && Before(p, Pos(i, j + 1)) ==> p == Pos(i, j);
  }

  lemma PointIsEdge(units: seq<UnitConfig>, i: nat, j: nat, on: string)
    requires i < |units| && j < |units[i].dependsOn|
    ensures At(units, on)(Pos(i, j)) <==> UnitEdges(units[i])[j].on == on
    ensures UserAt(units)(Pos(i, j)) == UnitEdges(units[i])[j].user
  {
  }

  /** The dependencies of one unit that mean `on`. */
  lemma {:induction false} UnitPositions(units: seq<UnitConfig>, i: nat, on: string, n: nat) returns (ps: seq<Pos>)
    requires i < |units| && n <= |units[i].dependsOn|
    ensures Lists(At(units, on), UserAt(units), Pos(i, 0), Pos(i, n), UsersOf(on, UnitEdges(units[i])[..n]), ps)
    decreases n
  {
    if n == 0 {
      ps := [];
    } else {
      var es := UnitEdges(units[i]);
      var at, name := At(units, on), UserAt(units);
      var qs := UnitPositions(units, i, on, n - 1);
      assert es[..n] == es[..n - 1] + [es[n - 1]];
      UsersSnoc(on, es[..n - 1], es[n - 1]);
      PointIsEdge(units, i, n - 1, on);
      One(at, name, i, n - 1);
      var us := if at(Pos(i, n - 1)) then [name(Pos(i, n - 1))] else [];
      var rs := if at(Pos(i, n - 1)) then [Pos(i, n - 1)] else [];
      Join(at, name, Pos(i, 0), Pos(i, n - 1), Pos(i, n), UsersOf(on, es[..n - 1]), qs, us, rs);
      ps := qs + rs;
    }
  }

  lemma UnitEnds(units: seq<UnitConfig>, i: nat, on: string, users: seq<string>, ps: seq<Pos>)
    requires i < |units| && Lists(At(units, on), UserAt(units), Pos(i, 0), Pos(i, |units[i].dependsOn|), users, ps)
    ensures Lists(At(units, on), UserAt(units), Pos(i, 0), Pos(i + 1, 0), users, ps)
  {
    var at := At(units, on);
    forall p | at(p) && p.i == i ensures p.j < |units[i].dependsOn| {
      assert PointsTo(units, p, on);
    }
  }

  lemma {:induction false} Positions(units: seq<UnitConfig>, n: nat, on: string) returns (ps: seq<Pos>)
    requires n <= |units|
    ensures Lists(At(units, on), UserAt(units), Pos(0, 0), Pos(n, 0), UsersOf(on, Edges(units[..n])), ps)
    decreases n
  {
    if n == 0 {
      ps := [];
    } else {
      var i := n - 1;
      var es := UnitEdges(units[i]);
      var qs := Positions(units, i, on);
      var rs := UnitPositions(units, i, on, |units[i].dependsOn|);
      assert es[..|units[i].dependsOn|] == es && units[..n][..i] == units[..i];
      UnitEnds(units, i, on, UsersOf(on, es), rs);
      UsersAppend(on, Edges(units[..i]), es);
      Join(At(units, on), UserAt(units), Pos(0, 0), Pos(i, 0), Pos(n, 0), UsersOf(on, Edges(units[..i])), qs, UsersOf(on, es), rs);
      ps := qs + rs;
    }
  }

  lemma AllPositions(units: seq<UnitConfig>, on: string) returns (ps: seq<Pos>)
    ensures ListsUsers(units, on, UsersOf(on, Edges(units)), ps)
    ensures ps == [] <==> forall p :: !PointsTo(units, p, on)
  {
    ps := Positions(units, |units|, on);
    assert units[..|units|] == units;
    var at := At(units, on);
    forall p ensures at(p) <==> PointsTo(units, p, on) {}
    if ps != [] { assert at(ps[0]); }
  }

  lemma InvertsIsIndex(units: seq<UnitConfig>, index: Index)
    requires Inverts(index, Edges(units))
    ensures IsIndex(units, index)
  {
    forall on
      ensures on in index <==> exists p :: PointsTo(units, p, on)
      ensures on in index ==> exists ps :: ListsUsers(units, on, index[on], ps)
    {
      var ps := AllPositions(units, on);
      if on !in index { NoUsers(on, Edges(units)); }
    }
  }

  /** The index lists, for each dependency, exactly the units whose resolved depends_on edges
      point to it, in configuration order and once per edge; no other key appears. */
  method BuildDependents(units: seq<UnitConfig>) returns (dependents: Index)
    ensures forall d <- dependents :: dependents[d] == UsersOf(d, Edges(units)) && dependents[d] != []
    ensures forall e <- Edges(units) :: e.on in dependents
    ensures IsIndex(units, dependents)
  {
    dependents := map[];
    for k := 0 to |units|
      invariant Inverts(dependents, Edges(units[..k]))
    {
      var u := units[k];
      var es := UnitEdges(u);
      ghost var before := Edges(units[..k]);
      assert before + es[..0] == before;
      for i := 0 to |u.dependsOn|
        invariant Inverts(dependents, before + es[..i])
      {
        var depUnit := if IsQualifiedDep(u.dependsOn[i]) then u.dependsOn[i] else u.dependsOn[i] + "." + u.kind;
        InvertsSnoc(dependents, before + es[..i], es[i]);
        assert before + es[..i] + [es[i]] == before + es[..i + 1];
        dependents := dependents[depUnit := (if depUnit in dependents then dependents[depUnit] else []) + [u.UnitName()]];
      }
      assert es[..|u.dependsOn|] == es;
      assert units[..k + 1][..k] == units[..k];
    }
    assert units[..|units|] == units;
    InvertsIsIndex(units, dependents);
  }

  lemma {:induction false} UsersCount(on: string, user: string, es: seq<Edge>)
    ensures multiset(UsersOf(on, es))[user] == multiset(es)[Edge(on, user)]
    decreases |es|
  {
    if |es| > 0 {
      var front, e := es[..|es| - 1], es[|es| - 1];
      assert es == front + [e];
      UsersCount(on, user, front);
    }
  }

  /** How often a unit appears among the dependents is how many of its edges point there. */
  lemma DependentsMultiplicity(units: seq<UnitConfig>, on: string, user: string)
    ensures multiset(UsersOf(on, Edges(units)))[user] == multiset(Edges(units))[Edge(on, user)]
    ensures user in UsersOf(on, Edges(units)) <==> Edge(on, user) in Edges(units)
  {
    UsersCount(on, user, Edges(units));
    assert user in UsersOf(on, Edges(units)) <==> user in multiset(UsersOf(on, Edges(units)));
    assert Edge(on, user) in Edges(units) <==> Edge(on, user) in multiset(Edges(units));
  }
}
