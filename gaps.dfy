/** The skill-balance measure both scripts use: absolute differences between the averages
    of teams that are ADJACENT in team index order, `|avg_i - avg_{i+1}|`. Teams further
    apart are never compared directly. */
module Gaps {

  /** Z3's `Abs` on integers. */
  function Abs(x: int): (r: nat)
    ensures r == x || r == -x
  {
    if x < 0 then -x else x
  }

  /** `Abs(avg_skills[i] - avg_skills[i + 1])`. */
  function AdjacentGap(avgs: seq<int>, i: nat): nat
    requires i + 1 < |avgs|
  {
    Abs(avgs[i] - avgs[i + 1])
  }

  /** Every adjacent pair is within `g` (`constraints.py`, lines 31-32). With fewer than two
      teams there is no pair and this holds for every `g`. */
  predicate WithinGap(avgs: seq<int>, g: int)
  {
    forall i :: 0 <= i < |avgs| - 1 ==> AdjacentGap(avgs, i) <= g
  }

  /** The largest adjacent gap: the least `max_gap` that satisfies every
      `max_gap >= Abs(avg_i - avg_{i+1})` of `OMT.py`. */
  function MaxAdjacentGap(avgs: seq<int>): (m: nat)
    requires |avgs| >= 2
    ensures forall i :: 0 <= i < |avgs| - 1 ==> AdjacentGap(avgs, i) <= m
    ensures exists i :: 0 <= i < |avgs| - 1 && AdjacentGap(avgs, i) == m
  {
    var last := AdjacentGap(avgs, |avgs| - 2);
    if |avgs| == 2 then last
    else
      var p := avgs[..|avgs| - 1];
      assert forall i :: 0 <= i < |p| - 1 ==> AdjacentGap(p, i) == AdjacentGap(avgs, i);
      var rest := MaxAdjacentGap(p);
      if rest < last then last else rest
  }

  /** Both modes agree on what "within g" means: every adjacent pair is within `g` exactly when
      the largest adjacent gap is. */
  lemma WithinGapIffMax(avgs: seq<int>, g: int)
    requires |avgs| >= 2
    ensures WithinGap(avgs, g) <==> MaxAdjacentGap(avgs) <= g
  {
    var i :| 0 <= i < |avgs| - 1 && AdjacentGap(avgs, i) == MaxAdjacentGap(avgs);
  }

  /** A threshold that accepts also accepts every larger threshold. */
  lemma WithinGapMonotone(avgs: seq<int>, g: int, g': int)
    requires WithinGap(avgs, g)
    requires g <= g'
    ensures WithinGap(avgs, g')
  {
  }

  /** With two or more teams, no negative threshold can be met. */
  lemma NegativeGapRejects(avgs: seq<int>, g: int)
    requires |avgs| >= 2
    requires g < 0
    ensures !WithinGap(avgs, g)
  {
    assert AdjacentGap(avgs, 0) >= 0;
  }

  /** What the adjacent-pair bound does say about teams further apart: teams `k - i` places
      apart differ by at most `k - i` times the largest adjacent gap. */
  lemma {:induction false} SpreadBound(avgs: seq<int>, i: nat, k: nat)
    requires |avgs| >= 2
    requires i <= k < |avgs|
    ensures Abs(avgs[i] - avgs[k]) <= (k - i) * MaxAdjacentGap(avgs)
  {
    if i < k {
      SpreadBound(avgs, i, k - 1);
      var m := MaxAdjacentGap(avgs);
      assert AdjacentGap(avgs, k - 1) <= m;
      assert (k - i) * m == (k - 1 - i) * m + m;
    }
  }

  /** The bound is not more than that: three averages 0, 5, 10 have adjacent gaps of 5
      while the first and the last team differ by 10. */
  lemma NonAdjacentUnbounded()
    ensures MaxAdjacentGap([0, 5, 10]) == 5
    ensures Abs(0 - 10) > MaxAdjacentGap([0, 5, 10])
    ensures WithinGap([0, 5, 10], 5)
  {
    var avgs := [0, 5, 10];
    assert AdjacentGap(avgs, 0) == 5 && AdjacentGap(avgs, 1) == 5;
  }
}
