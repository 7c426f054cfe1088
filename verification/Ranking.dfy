/** Discounted sums over ranked lists, shared by the Python and the C++ NDCG.

    `Discounted(x, d, n)` is the loop `for i < n: acc += x[i] * d(i)`; `TopSum(x, n)`
    adds the first n entries. The discount is any positive, strictly decreasing
    sequence of reals and stands for 1 / log2(i + 2).
 */
module Ranking {
  import opened Reals
  import opened Sorting

  ghost predicate IsDiscount(d: nat -> real) {
    forall i: nat, j: nat :: i < j ==> d(i) > d(j) > 0.0
  }

  lemma DiscountPositive(d: nat -> real, i: nat)
    requires IsDiscount(d)
    ensures d(i) > d(i + 1) > 0.0
  {
  }

  function Discounted(x: seq<real>, d: nat -> real, n: nat): real
    requires n <= |x|
  {
    if n == 0 then 0.0 else Discounted(x, d, n - 1) + Product(x[n - 1], d(n - 1))
  }

  function TopSum(x: seq<real>, n: nat): real
    requires n <= |x|
  {
    if n == 0 then 0.0 else TopSum(x, n - 1) + x[n - 1]
  }

  lemma {:induction false} SameSummands(x: seq<real>, y: seq<real>, d: nat -> real, n: nat)
    requires n <= |x| && n <= |y| && forall i :: 0 <= i < n ==> x[i] == y[i]
    ensures Discounted(x, d, n) == Discounted(y, d, n)
  {
    if n > 0 {
      SameSummands(x, y, d, n - 1);
    }
  }

  ghost predicate Dominated(x: seq<real>, y: seq<real>, n: nat)
    requires n <= |x| && n <= |y|
  {
    forall m: nat :: m <= n ==> TopSum(x, m) <= TopSum(y, m)
  }

  // One step of the summation, over plain reals.
  lemma AbelStep(gap: real, x: real, y: real, before: real, weight: real, diff: real)
    requires gap >= 0.0 && before > weight
    requires diff >= Product(gap, before)
    ensures diff + (Product(y, weight) - Product(x, weight)) >= Product(gap + y - x, weight)
    ensures gap > 0.0 || diff > Product(gap, before) ==>
              diff + (Product(y, weight) - Product(x, weight)) > Product(gap + y - x, weight)
  {
    assert (gap + y - x) * weight == gap * weight + (y * weight - x * weight);
    assert gap * before - gap * weight == gap * (before - weight);
    ProductSign(gap, before - weight);
  }

  /** One of the prefixes shorter than n is strictly behind. */
  ghost predicate StrictBefore(x: seq<real>, y: seq<real>, n: nat)
    requires n <= |x| + 1 && n <= |y| + 1
  {
    exists m: nat :: m < n && TopSum(x, m) < TopSum(y, m)
  }

  lemma StrictBeforeStep(x: seq<real>, y: seq<real>, n: nat)
    requires n <= |x| && n <= |y|
    ensures StrictBefore(x, y, n + 1) <==> StrictBefore(x, y, n) || TopSum(x, n) < TopSum(y, n)
  {
  }

  /** Abel summation as an inequality: the gap between the discounted sums is at least
      the gap between the plain sums, discounted by the last weight; and strictly more
      when an earlier gap was positive. */
  lemma {:induction false} AbelGap(x: seq<real>, y: seq<real>, d: nat -> real, n: nat)
    requires IsDiscount(d) && 0 < n <= |x| && n <= |y| && Dominated(x, y, n)
    ensures Discounted(y, d, n) - Discounted(x, d, n) >= Product(TopSum(y, n) - TopSum(x, n), d(n - 1))
    ensures StrictBefore(x, y, n) ==>
              Discounted(y, d, n) - Discounted(x, d, n) > Product(TopSum(y, n) - TopSum(x, n), d(n - 1))
  {
    var gap := TopSum(y, n - 1) - TopSum(x, n - 1);
    assert TopSum(x, n - 1) <= TopSum(y, n - 1);
    assert TopSum(y, n) - TopSum(x, n) == gap + y[n - 1] - x[n - 1];
    var diff := Discounted(y, d, n - 1) - Discounted(x, d, n - 1);
    StrictBeforeStep(x, y, n - 1);
    if n == 1 {
      AbelStep(gap, x[0], y[0], d(0) + 1.0, d(0), diff);
    } else {
      AbelGap(x, y, d, n - 1);
      AbelStep(gap, x[n - 1], y[n - 1], d(n - 2), d(n - 1), diff);
    }
  }

  /** Prefix dominance carries over to every discounted sum, strictly if it is strict. */
  lemma DominanceLiftsToDiscounted(x: seq<real>, y: seq<real>, d: nat -> real, n: nat)
    requires IsDiscount(d) && n <= |x| && n <= |y| && Dominated(x, y, n)
    ensures Discounted(x, d, n) <= Discounted(y, d, n)
    ensures StrictBefore(x, y, n + 1) ==> Discounted(x, d, n) < Discounted(y, d, n)
  {
    StrictBeforeStep(x, y, n);
    if n > 0 {
      AbelGap(x, y, d, n);
      DiscountPositive(d, n - 1);
      assert TopSum(x, n) <= TopSum(y, n);
      GapSign(TopSum(y, n) - TopSum(x, n), d(n - 1), Discounted(y, d, n) - Discounted(x, d, n));
    }
  }

  lemma GapSign(gap: real, weight: real, diff: real)
    requires gap >= 0.0 && weight > 0.0 && diff >= Product(gap, weight)
    ensures diff >= 0.0
    ensures gap > 0.0 || diff > Product(gap, weight) ==> diff > 0.0
  {
    ProductSign(gap, weight);
  }

  /** Under dominance the discounted sums coincide only when the lists do. */
  lemma EqualDiscountedEqualLists(x: seq<real>, y: seq<real>, d: nat -> real, n: nat)
    requires IsDiscount(d) && n <= |x| && n <= |y| && Dominated(x, y, n)
    ensures Discounted(x, d, n) == Discounted(y, d, n) <==> x[..n] == y[..n]
  {
    DominanceLiftsToDiscounted(x, y, d, n);
    if x[..n] == y[..n] {
      SamePrefixSameSums(x, y, d, n);
    } else {
      var i :| 0 <= i < n && x[i] != y[i];
      if TopSum(x, i) == TopSum(y, i) {
        assert TopSum(x, i + 1) <= TopSum(y, i + 1);
      } else {
        assert TopSum(x, i) <= TopSum(y, i);
      }
    }
  }

  lemma {:induction false} SamePrefixSameSums(x: seq<real>, y: seq<real>, d: nat -> real, n: nat)
    requires n <= |x| && n <= |y| && x[..n] == y[..n]
    ensures Discounted(x, d, n) == Discounted(y, d, n)
    ensures TopSum(x, n) == TopSum(y, n)
  {
    if n > 0 {
      assert x[n - 1] == x[..n][n - 1] == y[n - 1];
      assert x[..n - 1] == x[..n][..n - 1] == y[..n - 1];
      SamePrefixSameSums(x, y, d, n - 1);
    }
  }

  /* The first n of a permutation never add up to more than the n largest: both sides
     are compared with n times t plus everything that sticks out above t. */

  function Excess(x: seq<real>, t: real): (r: real)
    ensures r >= 0.0
  {
    if x == [] then 0.0 else (if x[0] > t then x[0] - t else 0.0) + Excess(x[1..], t)
  }

  lemma {:induction false} ExcessRemove(x: seq<real>, t: real, k: nat)
    requires k < |x|
    ensures Excess(x, t) == Excess(x[..k] + x[k + 1..], t) + (if x[k] > t then x[k] - t else 0.0)
  {
    if k == 0 {
      assert x[..0] + x[1..] == x[1..];
    } else {
      var r := x[..k] + x[k + 1..];
      assert r[1..] == x[1..][..k - 1] + x[1..][k..];
      ExcessRemove(x[1..], t, k - 1);
    }
  }

  lemma {:induction false} ExcessPermutes(x: seq<real>, y: seq<real>, t: real)
    requires multiset(x) == multiset(y)
    ensures Excess(x, t) == Excess(y, t)
    decreases |x|
  {
    SameLength(x, y);
    if x != [] {
      var k := MatchingIndex(x, y);
      ExcessPermutes(x[..0] + x[1..], y[..k] + y[k + 1..], t);
      ExcessRemove(x, t, 0);
      ExcessRemove(y, t, k);
    }
  }

  lemma {:induction false} TopSumFront(x: seq<real>, n: nat)
    requires 0 < n <= |x|
    ensures TopSum(x, n) == x[0] + TopSum(x[1..], n - 1)
  {
    if n > 1 {
      TopSumFront(x, n - 1);
    }
  }

  function Times(n: nat, t: real): real { if n == 0 then 0.0 else Times(n - 1, t) + t }

  lemma {:induction false} TimesZero(n: nat)
    ensures Times(n, 0.0) == 0.0
  {
    if n > 0 {
      TimesZero(n - 1);
    }
  }

  lemma {:induction false} TopSumBelow(x: seq<real>, n: nat, t: real)
    requires n <= |x|
    ensures TopSum(x, n) <= Times(n, t) + Excess(x, t)
  {
    if n > 0 {
      TopSumFront(x, n);
      TopSumBelow(x[1..], n - 1, t);
    }
  }

  lemma {:induction false} TopSumAtThreshold(x: seq<real>, n: nat, t: real)
    requires n <= |x|
    requires forall i :: 0 <= i < n ==> x[i] >= t
    requires forall i :: n <= i < |x| ==> x[i] <= t
    ensures TopSum(x, n) == Times(n, t) + Excess(x, t)
  {
    if n > 0 {
      TopSumFront(x, n);
      TopSumAtThreshold(x[1..], n - 1, t);
    } else if x != [] {
      TopSumAtThreshold(x[1..], 0, t);
    }
  }

  /** A descending arrangement dominates every permutation of it. */
  lemma SortedDominates(x: seq<real>, y: seq<real>, n: nat)
    requires multiset(x) == multiset(y) && n <= |x|
    requires forall i, j :: 0 <= i < j < |y| ==> y[i] >= y[j]
    ensures n <= |y| && Dominated(x, y, n)
  {
    SameLength(x, y);
    forall m: nat | m <= n ensures TopSum(x, m) <= TopSum(y, m) {
      if m > 0 {
        ExcessPermutes(x, y, y[m - 1]);
        TopSumBelow(x, m, y[m - 1]);
        TopSumAtThreshold(y, m, y[m - 1]);
      }
    }
  }
}
