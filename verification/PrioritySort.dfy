/**
 The stable sort by priority a loaded configuration goes through, and why its result is
 the only one a stable sort can have.
 */
module PrioritySort {

  import opened Units

  ghost predicate Reorders(units: seq<UnitConfig>, others: seq<UnitConfig>) {
    multiset(units) == multiset(others)
  }

  lemma SameMembers(units: seq<UnitConfig>, others: seq<UnitConfig>)
    requires Reorders(units, others)
    ensures forall u :: u in units <==> u in others
  {
    forall u ensures u in units <==> u in others {
      assert u in units <==> u in multiset(units);
      assert u in others <==> u in multiset(others);
    }
  }

  function InsertByPriority(sorted: seq<UnitConfig>, u: UnitConfig): seq<UnitConfig> {
    if |sorted| == 0 || sorted[|sorted| - 1].priority <= u.priority then sorted + [u]
    else InsertByPriority(sorted[..|sorted| - 1], u) + [sorted[|sorted| - 1]]
  }

  /** The units in order of priority, those of one priority in file order. */
  function SortByPriority(units: seq<UnitConfig>): seq<UnitConfig> {
    if |units| == 0 then []
    else InsertByPriority(SortByPriority(units[..|units| - 1]), units[|units| - 1])
  }

  ghost predicate Ascending(units: seq<UnitConfig>) {
    forall i, j | 0 <= i < j < |units| :: units[i].priority <= units[j].priority
  }

  function OfPriority(units: seq<UnitConfig>, p: int): seq<UnitConfig> {
    if |units| == 0 then []
    else
      var u := units[|units| - 1];
      OfPriority(units[..|units| - 1], p) + if u.priority == p then [u] else []
  }

  /** What a stable sort by priority promises. */
  ghost predicate IsStableSort(units: seq<UnitConfig>, sorted: seq<UnitConfig>) {
    Ascending(sorted) && forall p :: OfPriority(sorted, p) == OfPriority(units, p)
  }

  lemma OfPrioritySnoc(units: seq<UnitConfig>, u: UnitConfig, p: int)
    ensures OfPriority(units + [u], p) == OfPriority(units, p) + if u.priority == p then [u] else []
  {
    assert (units + [u])[..|units|] == units;
  }

  lemma {:induction false} InsertAdds(sorted: seq<UnitConfig>, u: UnitConfig)
    ensures multiset(InsertByPriority(sorted, u)) == multiset(sorted) + multiset{u}
    decreases |sorted|
  {
    if |sorted| > 0 {
      assert sorted == sorted[..|sorted| - 1] + [sorted[|sorted| - 1]];
      InsertAdds(sorted[..|sorted| - 1], u);
    }
  }

  lemma AscendingSnoc(units: seq<UnitConfig>, u: UnitConfig)
    requires Ascending(units) && forall x <- units :: x.priority <= u.priority
    ensures Ascending(units + [u])
  {
  }

  lemma {:induction false} InsertAscending(sorted: seq<UnitConfig>, u: UnitConfig)
    requires Ascending(sorted)
    ensures Ascending(InsertByPriority(sorted, u))
    decreases |sorted|
  {
    if |sorted| == 0 || sorted[|sorted| - 1].priority <= u.priority {
      AscendingSnoc(sorted, u);
    } else {
      var front, last := sorted[..|sorted| - 1], sorted[|sorted| - 1];
      var r := InsertByPriority(front, u);
      InsertAscending(front, u);
      InsertAdds(front, u);
      forall x <- r ensures x.priority <= last.priority {
        assert x in multiset(r);
        assert x == u || x in front;
      }
      AscendingSnoc(r, last);
    }
  }

  lemma {:induction false} InsertStable(sorted: seq<UnitConfig>, u: UnitConfig, p: int)
    requires Ascending(sorted)
    ensures OfPriority(InsertByPriority(sorted, u), p) == OfPriority(sorted, p) + if u.priority == p then [u] else []
    decreases |sorted|
  {
    if |sorted| == 0 || sorted[|sorted| - 1].priority <= u.priority {
      OfPrioritySnoc(sorted, u, p);
    } else {
      var front, last := sorted[..|sorted| - 1], sorted[|sorted| - 1];
      var r := InsertByPriority(front, u);
      InsertStable(front, u, p);
      assert sorted == front + [last];
      OfPrioritySnoc(front, last, p);
      OfPrioritySnoc(r, last, p);
      EitherOrder(OfPriority(front, p), if u.priority == p then [u] else [], if last.priority == p then [last] else []);
    }
  }

  lemma EitherOrder(a: seq<UnitConfig>, b: seq<UnitConfig>, c: seq<UnitConfig>)
    requires b == [] || c == []
    ensures a + b + c == a + c + b
  {
  }

  lemma {:induction false} SortIsStable(units: seq<UnitConfig>)
    ensures IsStableSort(units, SortByPriority(units)) && Reorders(units, SortByPriority(units))
    decreases |units|
  {
    if |units| > 0 {
      var front, u := units[..|units| - 1], units[|units| - 1];
      SortIsStable(front);
      InsertAdds(SortByPriority(front), u);
      InsertAscending(SortByPriority(front), u);
      forall p ensures OfPriority(SortByPriority(units), p) == OfPriority(units, p) {
        InsertStable(SortByPriority(front), u, p);
      }
      assert units == front + [u];
    }
  }

  lemma {:induction false} NoneOfPriority(units: seq<UnitConfig>, p: int)
    ensures OfPriority(units, p) == [] <==> forall u <- units :: u.priority != p
    decreases |units|
  {
    if |units| > 0 {
      NoneOfPriority(units[..|units| - 1], p);
      assert units == units[..|units| - 1] + [units[|units| - 1]];
    }
  }

  /** The last priority of an ascending list is no less than any other. */
  lemma LastPriority(a: seq<UnitConfig>, b: seq<UnitConfig>)
    requires Ascending(a) && Ascending(b) && |a| > 0 && forall p :: OfPriority(a, p) == OfPriority(b, p)
    ensures |b| > 0 && a[|a| - 1].priority <= b[|b| - 1].priority
  {
    var p := a[|a| - 1].priority;
    NoneOfPriority(a, p);
    NoneOfPriority(b, p);
    assert a[|a| - 1] in a;
    var u :| u in b && u.priority == p;
  }

  /** There is only one such list, so whatever algorithm sorts stably computes it. */
  lemma {:induction false} StableSortUnique(a: seq<UnitConfig>, b: seq<UnitConfig>)
    requires Ascending(a) && Ascending(b) && forall p :: OfPriority(a, p) == OfPriority(b, p)
    ensures a == b
    decreases |a|
  {
    if |a| == 0 {
      if |b| > 0 { LastPriority(b, a); }
    } else {
      LastPriority(a, b);
      LastPriority(b, a);
      var a0, u := a[..|a| - 1], a[|a| - 1];
      var b0, v := b[..|b| - 1], b[|b| - 1];
      assert OfPriority(a, u.priority) == OfPriority(b, u.priority);
      assert OfPriority(a0, u.priority) + [u] == OfPriority(b0, u.priority) + [v];
      forall p ensures OfPriority(a0, p) == OfPriority(b0, p) {
        assert OfPriority(a, p) == OfPriority(b, p);
        if p == u.priority {
          SameFront(OfPriority(a0, p), u, OfPriority(b0, p), v);
        } else {
          assert OfPriority(a0, p) + [] == OfPriority(a0, p) && OfPriority(b0, p) + [] == OfPriority(b0, p);
        }
      }
      SameFront(OfPriority(a0, u.priority), u, OfPriority(b0, u.priority), v);
      StableSortUnique(a0, b0);
      assert a == a0 + [u] && b == b0 + [v];
    }
  }

  lemma SameFront(a: seq<UnitConfig>, u: UnitConfig, b: seq<UnitConfig>, v: UnitConfig)
    requires a + [u] == b + [v]
    ensures a == b && u == v
  {
    assert (a + [u])[|a|] == u && (b + [v])[|b|] == v && |a + [u]| == |b + [v]|;
    assert (a + [u])[..|a|] == a && (b + [v])[..|b|] == b;
  }
}
