/** Weighted sums over a sequence, used to count threads by what they hold. */
module Counting {

  /** The total weight of the elements of `ts`. */
  function Sum<T(!new)>(f: T -> nat, ts: seq<T>): nat {
    if |ts| == 0 then 0 else Sum(f, ts[..|ts| - 1]) + f(ts[|ts| - 1])
  }

  lemma {:induction false} SumAppend<T(!new)>(f: T -> nat, ts: seq<T>, us: seq<T>)
    ensures Sum(f, ts + us) == Sum(f, ts) + Sum(f, us)
    decreases |us|
  {
    if |us| == 0 {
      assert ts + us == ts;
    } else {
      var front := us[..|us| - 1];
      assert (ts + us)[..|ts + us| - 1] == ts + front;
      SumAppend(f, ts, front);
    }
  }

  lemma {:induction false} SumUpdate<T(!new)>(f: T -> nat, ts: seq<T>, i: nat, p: T)
    requires i < |ts|
    ensures Sum(f, ts[i := p]) == Sum(f, ts) - f(ts[i]) + f(p)
    decreases |ts|
  {
    var us := ts[i := p];
    if i == |ts| - 1 {
      assert us[..|us| - 1] == ts[..|ts| - 1];
    } else {
      SumUpdate(f, ts[..|ts| - 1], i, p);
      assert us[..|us| - 1] == ts[..|ts| - 1][i := p];
    }
  }

  lemma {:induction false} SumAtLeast<T(!new)>(f: T -> nat, ts: seq<T>, i: nat)
    requires i < |ts|
    ensures f(ts[i]) <= Sum(f, ts)
    decreases |ts|
  {
    if i < |ts| - 1 {
      SumAtLeast(f, ts[..|ts| - 1], i);
    }
  }

  /** Two different positions contribute both their weights. */
  lemma {:induction false} SumAtLeastTwo<T(!new)>(f: T -> nat, ts: seq<T>, i: nat, j: nat)
    requires i < j < |ts|
    ensures f(ts[i]) + f(ts[j]) <= Sum(f, ts)
    decreases |ts|
  {
    if j == |ts| - 1 {
      SumAtLeast(f, ts[..|ts| - 1], i);
    } else {
      SumAtLeastTwo(f, ts[..|ts| - 1], i, j);
    }
  }

  /** A positive total has a positive contributor. */
  lemma {:induction false} SumPositive<T(!new)>(f: T -> nat, ts: seq<T>) returns (i: nat)
    requires Sum(f, ts) > 0
    ensures i < |ts| && f(ts[i]) > 0
    decreases |ts|
  {
    if f(ts[|ts| - 1]) > 0 {
      i := |ts| - 1;
    } else {
      i := SumPositive(f, ts[..|ts| - 1]);
    }
  }
}
