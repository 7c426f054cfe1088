/** NDCG@k of benchmarks/reranking/bench_quality.py, over exact reals.

    Scores are reals (no NaN), relevances naturals. The discount 1 / log2(i + 2) is a
    parameter; the theorems hold for every positive, strictly decreasing one.
 */
module Ndcg {
  import opened Reals
  import opened Sequences
  import opened Sorting
  import opened Ranking

  datatype Judged = Judged(score: real, relevance: nat)

  function ScoreOf(p: Judged): real { p.score }

  function RelevanceOf(p: Judged): nat { p.relevance }

  function AsReal(r: nat): real { r as real }

  function Pow2(n: nat): nat {
    if n == 0 then 1 else 2 * Pow2(n - 1)
  }

  function Gain(rel: nat): real { Pow2(rel) as real - 1.0 }

  function Dcg(rels: seq<nat>, k: int, d: nat -> real): real {
    Discounted(Map(Gain, rels), d, Cut(|rels|, k))
  }

  method ComputeDcg(rels: seq<nat>, k: int, d: nat -> real) returns (dcg: real)
    ensures dcg == Dcg(rels, k, d)
  {
    dcg := 0.0;
    ghost var gains := Map(Gain, rels);
    for i := 0 to Cut(|rels|, k)
      invariant dcg == Discounted(gains, d, i)
    {
      dcg := dcg + Gain(rels[i]) * d(i);
    }
  }

  /** Relevances in the order the reranker ranks the documents. */
  function ByScore(pairs: seq<Judged>): seq<nat> {
    Map(RelevanceOf, SortDesc(pairs, ScoreOf))
  }

  function Ideal(pairs: seq<Judged>): seq<nat> {
    SortDesc(Map(RelevanceOf, pairs), AsReal)
  }

  function Ndcg(pairs: seq<Judged>, k: int, d: nat -> real): real {
    var idcg := Dcg(Ideal(pairs), k, d);
    if idcg > 0.0 then Dcg(ByScore(pairs), k, d) / idcg else 0.0
  }

  method ComputeNdcg(pairs: seq<Judged>, k: int, d: nat -> real) returns (ndcg: real)
    requires IsDiscount(d)
    ensures ndcg == Ndcg(pairs, k, d)
    ensures 0.0 <= ndcg <= 1.0
  {
    var relevances := Map(RelevanceOf, SortDesc(pairs, ScoreOf));
    var ideal := SortDesc(Map(RelevanceOf, pairs), AsReal);
    var dcg := ComputeDcg(relevances, k, d);
    var idcg := ComputeDcg(ideal, k, d);
    ndcg := if idcg > 0.0 then dcg / idcg else 0.0;
    NdcgInUnitInterval(pairs, k, d);
  }

  /* ---- The formulas, pinned down ---- */

  /** The gain is 2^rel - 1. */
  lemma GainDoubles(rel: nat)
    ensures Gain(0) == 0.0 && Gain(rel + 1) == 2.0 * Gain(rel) + 1.0
  {
  }

  /** DCG@k sums (2^rel - 1) * d(i) over the slice [:k]: nothing for an empty slice, one
      summand more for one more place, and only the slice counts. */
  lemma DcgIs(rels: seq<nat>, r: nat, k: int, d: nat -> real)
    ensures Dcg([], 0, d) == 0.0
    ensures Dcg(rels + [0], |rels| + 1, d) == Dcg(rels, |rels|, d)
    ensures Dcg(rels + [r + 1], |rels| + 1, d) - Dcg(rels, |rels|, d)
            == 2.0 * (Dcg(rels + [r], |rels| + 1, d) - Dcg(rels, |rels|, d)) + d(|rels|)
    ensures var n := if k < 0 then |rels| + k else k;
            Dcg(rels, k, d) == if n < 0 then 0.0 else if n > |rels| then Dcg(rels, |rels|, d) else Dcg(rels[..n], n, d)
  {
    LastPlace(rels, 0, d);
    LastPlace(rels, r, d);
    LastPlace(rels, r + 1, d);
    ProductOfDoubled(Gain(r), d(|rels|));
    SliceOnly(rels, k, d);
  }

  lemma SliceOnly(rels: seq<nat>, k: int, d: nat -> real)
    ensures var n := if k < 0 then |rels| + k else k;
            Dcg(rels, k, d) == if n < 0 then 0.0 else if n > |rels| then Dcg(rels, |rels|, d) else Dcg(rels[..n], n, d)
  {
    var n := Cut(|rels|, k);
    SameSummands(Map(Gain, rels), Map(Gain, rels[..n]), d, n);
  }

  lemma ProductOfDoubled(g: real, w: real)
    ensures Product(2.0 * g + 1.0, w) == 2.0 * Product(g, w) + w
    ensures Product(0.0, w) == 0.0
  {
  }

  lemma LastPlace(rels: seq<nat>, r: nat, d: nat -> real)
    ensures Dcg(rels + [r], |rels| + 1, d) == Dcg(rels, |rels|, d) + Product(Gain(r), d(|rels|))
  {
    SameSummands(Map(Gain, rels + [r]), Map(Gain, rels), d, |rels|);
  }

  /** NDCG@k is the DCG of the relevances in descending order of score over that of the
      relevances in descending order, and 0 when the latter is 0. */
  lemma NdcgIsRatio(pairs: seq<Judged>, score: Judged -> real, rels: seq<nat>,
                    all: seq<nat>, ideal: seq<nat>, k: int, d: nat -> real)
    requires IsDiscount(d) && (forall p :: score(p) == p.score)
    requires Column(SortDesc(pairs, score), rels)
    requires forall i, j :: 0 <= i < j < |ideal| ==> ideal[i] >= ideal[j]
    requires Column(pairs, all) && multiset(ideal) == multiset(all)
    ensures Ndcg(pairs, k, d) * Dcg(ideal, k, d) == Dcg(rels, k, d)
    ensures Dcg(ideal, k, d) == 0.0 ==> Ndcg(pairs, k, d) == 0.0
  {
    ByScoreIs(pairs, score, rels);
    IdealIs(pairs, all, ideal);
    RatioOf(pairs, k, d);
  }

  /** The relevances of a list of pairs. */
  predicate Column(pairs: seq<Judged>, rels: seq<nat>) {
    |rels| == |pairs| && forall i :: 0 <= i < |pairs| ==> rels[i] == pairs[i].relevance
  }

  lemma ByScoreIs(pairs: seq<Judged>, score: Judged -> real, rels: seq<nat>)
    requires (forall p :: score(p) == p.score) && Column(SortDesc(pairs, score), rels)
    ensures rels == ByScore(pairs)
  {
    SameOrderSameSort(pairs, score, ScoreOf);
  }

  lemma IdealIs(pairs: seq<Judged>, all: seq<nat>, ideal: seq<nat>)
    requires forall i, j :: 0 <= i < j < |ideal| ==> ideal[i] >= ideal[j]
    requires Column(pairs, all) && multiset(ideal) == multiset(all)
    ensures ideal == Ideal(pairs)
  {
    assert all == Map(RelevanceOf, pairs);
    SortDescSorts(all, AsReal);
    SortIsUnique(ideal, Ideal(pairs), AsReal);
  }

  lemma RatioOf(pairs: seq<Judged>, k: int, d: nat -> real)
    requires IsDiscount(d)
    ensures Ndcg(pairs, k, d) * Dcg(Ideal(pairs), k, d) == Dcg(ByScore(pairs), k, d)
    ensures Dcg(Ideal(pairs), k, d) == 0.0 ==> Ndcg(pairs, k, d) == 0.0
  {
    DcgAtMostIdeal(pairs, k, d);
    DcgNonNegative(ByScore(pairs), k, d);
    if Dcg(Ideal(pairs), k, d) > 0.0 {
      Quotient(Dcg(ByScore(pairs), k, d), Dcg(Ideal(pairs), k, d));
    }
  }

  lemma {:induction false} GainMonotone(a: nat, b: nat)
    requires a < b
    ensures 0.0 <= Gain(a) < Gain(b)
  {
    if a == 0 {
      Pow2Positive(b - 1);
    } else {
      GainMonotone(a - 1, b - 1);
    }
  }

  lemma {:induction false} Pow2Positive(n: nat)
    ensures Pow2(n) >= 1
  {
    if n > 0 {
      Pow2Positive(n - 1);
    }
  }

  lemma GainInjective(a: nat, b: nat)
    ensures Gain(a) == Gain(b) <==> a == b
    ensures a >= b <==> Gain(a) >= Gain(b)
  {
    if a < b {
      GainMonotone(a, b);
    } else if b < a {
      GainMonotone(b, a);
    }
  }

  lemma SameLengths(pairs: seq<Judged>)
    ensures |ByScore(pairs)| == |Ideal(pairs)| == |pairs|
    ensures multiset(ByScore(pairs)) == multiset(Ideal(pairs)) == multiset(Map(RelevanceOf, pairs))
  {
    SortDescSorts(pairs, ScoreOf);
    SortDescSorts(Map(RelevanceOf, pairs), AsReal);
    MapPermutes(RelevanceOf, SortDesc(pairs, ScoreOf), pairs);
  }

  /** The score order is dominated by the ideal order, prefix by prefix. */
  lemma IdealDominates(pairs: seq<Judged>, n: nat)
    requires n <= |pairs|
    ensures |ByScore(pairs)| == |Ideal(pairs)| == |pairs|
    ensures Dominated(Map(Gain, ByScore(pairs)), Map(Gain, Ideal(pairs)), n)
  {
    SameLengths(pairs);
    var ideal := Ideal(pairs);
    var gains := Map(Gain, ideal);
    MapPermutes(Gain, ByScore(pairs), ideal);
    SortDescSorts(Map(RelevanceOf, pairs), AsReal);
    forall i, j | 0 <= i < j < |gains| ensures gains[i] >= gains[j] {
      assert AsReal(ideal[i]) >= AsReal(ideal[j]);
      GainInjective(ideal[i], ideal[j]);
    }
    SortedDominates(Map(Gain, ByScore(pairs)), gains, n);
  }

  /** DCG@k of the score order never exceeds the ideal DCG@k; they agree exactly when
      the first k relevances are the ideal first k. */
  lemma DcgAtMostIdeal(pairs: seq<Judged>, k: int, d: nat -> real)
    requires IsDiscount(d)
    ensures |ByScore(pairs)| == |Ideal(pairs)| == |pairs|
    ensures Dcg(ByScore(pairs), k, d) <= Dcg(Ideal(pairs), k, d)
    ensures Dcg(ByScore(pairs), k, d) == Dcg(Ideal(pairs), k, d)
            <==> ByScore(pairs)[..Cut(|pairs|, k)] == Ideal(pairs)[..Cut(|pairs|, k)]
  {
    var n := Cut(|pairs|, k);
    IdealDominates(pairs, n);
    var x, y := ByScore(pairs), Ideal(pairs);
    var gx, gy := Map(Gain, x), Map(Gain, y);
    DominanceLiftsToDiscounted(gx, gy, d, n);
    EqualDiscountedEqualLists(gx, gy, d, n);
    if gx[..n] == gy[..n] {
      forall i | 0 <= i < n ensures x[i] == y[i] {
        assert gx[..n][i] == gy[..n][i];
        GainInjective(x[i], y[i]);
      }
    }
    if x[..n] == y[..n] {
      forall i | 0 <= i < n ensures gx[i] == gy[i] {
        assert x[..n][i] == y[..n][i];
      }
    }
  }

  lemma {:induction false} DcgSign(gains: seq<real>, d: nat -> real, n: nat)
    requires IsDiscount(d) && n <= |gains|
    requires forall i :: 0 <= i < n ==> gains[i] >= 0.0
    ensures Discounted(gains, d, n) >= 0.0
    ensures Discounted(gains, d, n) == 0.0 <==> forall i :: 0 <= i < n ==> gains[i] == 0.0
  {
    if n > 0 {
      DcgSign(gains, d, n - 1);
      DiscountPositive(d, n - 1);
      ProductSign(gains[n - 1], d(n - 1));
    }
  }

  lemma DcgNonNegative(rels: seq<nat>, k: int, d: nat -> real)
    requires IsDiscount(d)
    ensures Dcg(rels, k, d) >= 0.0
    ensures Dcg(rels, k, d) == 0.0 <==> forall i :: 0 <= i < Cut(|rels|, k) ==> rels[i] == 0
  {
    var gains := Map(Gain, rels);
    assert Gain(0) == 0.0;
    forall i | 0 <= i < |rels| ensures gains[i] >= 0.0 && (gains[i] == 0.0 <==> rels[i] == 0) {
      GainInjective(rels[i], 0);
    }
    DcgSign(gains, d, Cut(|rels|, k));
  }

  lemma NdcgInUnitInterval(pairs: seq<Judged>, k: int, d: nat -> real)
    requires IsDiscount(d)
    ensures 0.0 <= Ndcg(pairs, k, d) <= 1.0
  {
    DcgAtMostIdeal(pairs, k, d);
    DcgNonNegative(ByScore(pairs), k, d);
    if Dcg(Ideal(pairs), k, d) > 0.0 {
      RatioInUnit(Dcg(ByScore(pairs), k, d), Dcg(Ideal(pairs), k, d));
    }
  }

  lemma RatioInUnit(a: real, b: real)
    requires 0.0 <= a <= b && b > 0.0
    ensures 0.0 <= a / b <= 1.0
    ensures a / b == 1.0 <==> a == b
    ensures a / b == 0.0 <==> a == 0.0
  {
    Quotient(a, b);
    DivideOrder(a, 0.0, b);
    DivideOrder(b, a, b);
    Quotient(b, b);
  }

  /** NDCG is 1 exactly when something relevant is within reach of k and the first k
      relevances are the ideal ones. */
  lemma NdcgIsOneIff(pairs: seq<Judged>, k: int, d: nat -> real)
    requires IsDiscount(d)
    ensures |ByScore(pairs)| == |Ideal(pairs)| == |pairs|
    ensures var n := Cut(|pairs|, k);
            Ndcg(pairs, k, d) == 1.0 <==>
              ByScore(pairs)[..n] == Ideal(pairs)[..n] && exists i :: 0 <= i < n && Ideal(pairs)[i] > 0
  {
    DcgAtMostIdeal(pairs, k, d);
    DcgNonNegative(ByScore(pairs), k, d);
    DcgNonNegative(Ideal(pairs), k, d);
    if Dcg(Ideal(pairs), k, d) > 0.0 {
      RatioInUnit(Dcg(ByScore(pairs), k, d), Dcg(Ideal(pairs), k, d));
    }
  }

  /** NDCG is 0 exactly when no relevant document reaches the first k. */
  lemma NdcgIsZeroIff(pairs: seq<Judged>, k: int, d: nat -> real)
    requires IsDiscount(d)
    ensures |ByScore(pairs)| == |pairs|
    ensures Ndcg(pairs, k, d) == 0.0 <==> forall i :: 0 <= i < Cut(|pairs|, k) ==> ByScore(pairs)[i] == 0
  {
    DcgAtMostIdeal(pairs, k, d);
    DcgNonNegative(ByScore(pairs), k, d);
    DcgNonNegative(Ideal(pairs), k, d);
    if Dcg(Ideal(pairs), k, d) > 0.0 {
      RatioInUnit(Dcg(ByScore(pairs), k, d), Dcg(Ideal(pairs), k, d));
    }
  }

  /** Exchanging two documents so that the more relevant one comes first raises DCG@k,
      strictly if the earlier place is within k. */
  lemma PromotionRaisesDcg(rels: seq<nat>, i: nat, j: nat, k: int, d: nat -> real)
    requires IsDiscount(d) && i < j < |rels| && rels[i] < rels[j]
    ensures Dcg(rels, k, d) <= Dcg(rels[i := rels[j]][j := rels[i]], k, d)
    ensures i < Cut(|rels|, k) ==> Dcg(rels, k, d) < Dcg(rels[i := rels[j]][j := rels[i]], k, d)
  {
    var n := Cut(|rels|, k);
    var promoted := rels[i := rels[j]][j := rels[i]];
    var x, y := Map(Gain, rels), Map(Gain, promoted);
    GainMonotone(rels[i], rels[j]);
    forall m: nat | m <= |x|
      ensures TopSum(y, m) == TopSum(x, m) + if i < m <= j then y[i] - x[i] else 0.0
    {
      ExchangeTopSum(x, y, i, j, m);
    }
    DominanceLiftsToDiscounted(x, y, d, n);
    if i < n {
      assert TopSum(x, i + 1) < TopSum(y, i + 1);
    }
  }

  lemma {:induction false} ExchangeTopSum(x: seq<real>, y: seq<real>, i: nat, j: nat, m: nat)
    requires i < j < |x| && m <= |x| && y == x[i := x[j]][j := x[i]]
    ensures TopSum(y, m) == TopSum(x, m) + if i < m <= j then y[i] - x[i] else 0.0
  {
    if m > 0 {
      ExchangeTopSum(x, y, i, j, m - 1);
    }
  }
}
