/** The weighted choice of one destination from a routing pool. */
module Picker {
  import opened Models
  import opened Sets

  /** The weights of the first `n` entries added up. */
  function WeightBefore(pool: seq<Destination>, n: nat): int
    requires n <= |pool|
  {
    if n == 0 then 0 else WeightBefore(pool, n - 1) + pool[n - 1].weight
  }

  function Total(pool: seq<Destination>): int { WeightBefore(pool, |pool|) }

  ghost predicate PositiveWeights(pool: seq<Destination>) {
    forall i :: 0 <= i < |pool| ==> pool[i].weight >= 1
  }

  lemma {:induction false} WeightsGrow(pool: seq<Destination>, m: nat, n: nat)
    requires PositiveWeights(pool) && m <= n <= |pool|
    ensures WeightBefore(pool, m) + (n - m) <= WeightBefore(pool, n)
  {
    if m < n {
      WeightsGrow(pool, m, n - 1);
    }
  }

  /** The entry a draw in [0, total) lands on: the first whose cumulated weight exceeds it. */
  function Landing(pool: seq<Destination>, r: int, from: nat): nat
    requires from <= |pool|
    decreases |pool| - from
  {
    if from == |pool| then from
    else if r < WeightBefore(pool, from + 1) then from
    else Landing(pool, r, from + 1)
  }

  /** A draw lands on entry i exactly when it falls in i's own slice of [0, total). */
  lemma {:induction false} LandingSlice(pool: seq<Destination>, r: int, from: nat, i: nat)
    requires PositiveWeights(pool) && from <= |pool| && i < |pool|
    requires WeightBefore(pool, from) <= r < Total(pool)
    ensures from <= Landing(pool, r, from) < |pool|
    ensures Landing(pool, r, from) == i <==> from <= i && WeightBefore(pool, i) <= r < WeightBefore(pool, i + 1)
    decreases |pool| - from
  {
    if r < WeightBefore(pool, from + 1) {
      if from < i {
        WeightsGrow(pool, from + 1, i);
      } else if i < from {
        WeightsGrow(pool, i + 1, from);
      }
    } else {
      LandingSlice(pool, r, from + 1, i);
    }
  }

  /** `rng.IntN(total)` is `r`; the loop after it always returns, so the last-entry
      fallback behind it is never reached. */
  method PickDestination(pool: seq<Destination>, rng: int -> int) returns (picked: Option<Destination>)
    requires PositiveWeights(pool)
    requires forall n :: n > 0 ==> 0 <= rng(n) < n
    ensures pool == [] ==> picked.None?
    ensures pool != [] ==> 0 <= rng(Total(pool)) < Total(pool)
    ensures pool != [] ==>
      && Landing(pool, rng(Total(pool)), 0) < |pool|
      && picked == Some(pool[Landing(pool, rng(Total(pool)), 0)])
  {
    if |pool| == 0 {
      return None;
    }
    WeightsGrow(pool, 0, |pool|);
    LandingSlice(pool, rng(Total(pool)), 0, 0);
    if |pool| == 1 {
      return Some(pool[0]);
    }
    var total := 0;
    for i := 0 to |pool|
      invariant total == WeightBefore(pool, i)
    {
      total := total + pool[i].weight;
    }
    var r := rng(total);
    var cum := 0;
    for i := 0 to |pool|
      invariant cum == WeightBefore(pool, i) && cum <= r
      invariant Landing(pool, r, 0) == Landing(pool, r, i)
    {
      cum := cum + pool[i].weight;
      if r < cum {
        return Some(pool[i]);
      }
    }
    assert false;
  }

  /** The draws that select entry i. */
  ghost function Draws(pool: seq<Destination>, i: nat): set<int> {
    set r | 0 <= r < Total(pool) && Landing(pool, r, 0) == i
  }

  /** Exactly Weight_i of the total draws select entry i, and every draw selects one entry. */
  lemma WeightedFairly(pool: seq<Destination>)
    requires PositiveWeights(pool) && pool != []
    ensures forall i :: 0 <= i < |pool| ==> |Draws(pool, i)| == pool[i].weight
    ensures forall r :: 0 <= r < Total(pool) ==>
      Landing(pool, r, 0) < |pool| && r in Draws(pool, Landing(pool, r, 0))
    ensures forall i, k :: 0 <= i < k < |pool| ==> Draws(pool, i) !! Draws(pool, k)
  {
    forall i | 0 <= i < |pool| ensures |Draws(pool, i)| == pool[i].weight {
      var lo, hi := WeightBefore(pool, i), WeightBefore(pool, i + 1);
      WeightsGrow(pool, 0, i);
      WeightsGrow(pool, i + 1, |pool|);
      forall r | 0 <= r < Total(pool) ensures r in Draws(pool, i) <==> lo <= r < hi {
        LandingSlice(pool, r, 0, i);
      }
      assert Draws(pool, i) == Interval(lo, hi);
    }
    forall r | 0 <= r < Total(pool) ensures Landing(pool, r, 0) < |pool| {
      LandingSlice(pool, r, 0, 0);
    }
  }
}
