/** NDCG@10 and MRR of benchmarks/bench_reranker_compare.cpp.

    `results` is the list of document indices the reranker returned; the code guards
    against indices outside the relevance vector, and so does the model.
 */
module RerankerCompare {
  import opened Options
  import opened Reals
  import opened Sequences
  import opened Sorting
  import opened Ranking
  import Ndcg
  import Retrieval

  function Limit(results: seq<int>): (n: nat)
    ensures n <= |results| && n <= 10
  {
    if |results| < 10 then |results| else 10
  }

  predicate IsHit(relevance: seq<int>, idx: int) {
    0 <= idx < |relevance| && relevance[idx] > 0
  }

  function One(b: bool): real { if b then 1.0 else 0.0 }

  function IntAsReal(r: int): real { r as real }

  function Positive(r: int): real { One(r > 0) }

  function HitGains(relevance: seq<int>, results: seq<int>): (g: seq<real>)
    ensures |g| == |results|
  {
    seq(|results|, i requires 0 <= i < |results| => One(IsHit(relevance, results[i])))
  }

  function IdealGains(relevance: seq<int>): seq<real> {
    Map(Positive, SortDesc(relevance, IntAsReal))
  }

  lemma IdealGainsLength(relevance: seq<int>)
    ensures |IdealGains(relevance)| == |relevance|
  {
    SortDescSorts(relevance, IntAsReal);
  }

  function NdcgAt10(relevance: seq<int>, results: seq<int>, d: nat -> real): real
    requires Limit(results) <= |IdealGains(relevance)|
  {
    var idcg := Discounted(IdealGains(relevance), d, Limit(results));
    if idcg > 0.0 then Discounted(HitGains(relevance, results), d, Limit(results)) / idcg else 0.0
  }

  /** The second loop reads ideal[i] for every i below the limit. When the relevance vector is
      shorter than that, the original reads past its end; None stands for this. */
  method ComputeNdcgAt10(relevance: seq<int>, results: seq<int>, d: nat -> real) returns (ndcg: Option<real>)
    ensures |IdealGains(relevance)| == |relevance|
    ensures ndcg.Some? <==> Limit(results) <= |relevance|
    ensures ndcg.Some? ==> ndcg.value == NdcgAt10(relevance, results, d)
  {
    IdealGainsLength(relevance);
    if |results| == 0 {
      return Some(0.0);
    }
    var dcg := 0.0;
    var limit := Limit(results);
    for i := 0 to limit
      invariant dcg == Discounted(HitGains(relevance, results), d, i)
    {
      var idx := results[i];
      if 0 <= idx < |relevance| {
        var rel := relevance[idx];
        dcg := dcg + if rel > 0 then d(i) else 0.0;
      }
    }
    var ideal := SortDesc(relevance, IntAsReal);
    var idcg := 0.0;
    for i := 0 to limit
      invariant i <= |ideal|
      invariant idcg == Discounted(IdealGains(relevance), d, i)
    {
      if i >= |ideal| {
        return None;
      }
      idcg := idcg + if ideal[i] > 0 then d(i) else 0.0;
    }
    return Some(if idcg > 0.0 then dcg / idcg else 0.0);
  }

  /** Distinct results that all name a judged document never lead there. */
  lemma ValidResultsStayInBounds(relevance: seq<int>, results: seq<int>)
    requires DistinctUpTo(results, Limit(results))
    requires forall i :: 0 <= i < Limit(results) ==> 0 <= results[i] < |relevance|
    ensures Limit(results) <= |relevance|
  {
    var n := Limit(results);
    var used, all := set i | 0 <= i < n :: results[i], set i: int | 0 <= i < |relevance| :: Range(|relevance|)[i];
    DistinctSet(results, n);
    DistinctSet(Range(|relevance|), |relevance|);
    forall x | x in used ensures x in all {
      assert Range(|relevance|)[x] == x;
    }
    SubsetSize(used, all);
  }

  /** The result at place i is the first that names a document of positive relevance. */
  predicate FirstRelevant(relevance: seq<int>, results: seq<int>, i: nat) {
    && i < |results| && 0 <= results[i] < |relevance| && relevance[results[i]] > 0
    && forall j :: 0 <= j < i && 0 <= results[j] < |relevance| ==> relevance[results[j]] <= 0
  }

  method ComputeMrr(relevance: seq<int>, results: seq<int>) returns (mrr: real)
    ensures mrr == Retrieval.ReciprocalRank(seq(|results|, i requires 0 <= i < |results| => IsHit(relevance, results[i])))
    ensures if forall i :: 0 <= i < |results| && 0 <= results[i] < |relevance| ==> relevance[results[i]] <= 0 then mrr == 0.0
            else exists i :: FirstRelevant(relevance, results, i) && mrr * (i + 1) as real == 1.0
  {
    ghost var f := seq(|results|, i requires 0 <= i < |results| => IsHit(relevance, results[i]));
    for i := 0 to |results|
      invariant forall j :: 0 <= j < i ==> !f[j] && (0 <= results[j] < |relevance| ==> relevance[results[j]] <= 0)
    {
      var idx := results[i];
      if 0 <= idx < |relevance| && relevance[idx] > 0 {
        assert f[i] && Retrieval.FirstHit(f) == i;
        Retrieval.OneOver(i + 1);
        mrr := 1.0 / (i + 1) as real;
        assert FirstRelevant(relevance, results, i) && mrr * (i + 1) as real == 1.0;
        return;
      }
    }
    return 0.0;
  }

  /* ---- Counting hits and positives ---- */

  function HitCount(relevance: seq<int>, results: seq<int>, m: nat): (n: nat)
    requires m <= |results|
    ensures n <= m
  {
    if m == 0 then 0 else HitCount(relevance, results, m - 1) + if IsHit(relevance, results[m - 1]) then 1 else 0
  }

  function PositiveCount(relevance: seq<int>, n: nat): (c: nat)
    requires n <= |relevance|
    ensures c <= n
  {
    if n == 0 then 0 else PositiveCount(relevance, n - 1) + if relevance[n - 1] > 0 then 1 else 0
  }

  function Positives(relevance: seq<int>): nat { PositiveCount(relevance, |relevance|) }

  lemma {:induction false} HitTopSum(relevance: seq<int>, results: seq<int>, m: nat)
    requires m <= |results|
    ensures TopSum(HitGains(relevance, results), m) == HitCount(relevance, results, m) as real
  {
    if m > 0 {
      HitTopSum(relevance, results, m - 1);
    }
  }

  lemma {:induction false} HitCountGrows(relevance: seq<int>, results: seq<int>, m: nat, n: nat)
    requires m <= n <= |results|
    ensures HitCount(relevance, results, m) <= HitCount(relevance, results, n)
  {
    if m < n {
      HitCountGrows(relevance, results, m, n - 1);
    }
  }

  lemma {:induction false} PositiveTopSum(relevance: seq<int>, n: nat)
    requires n <= |relevance|
    ensures TopSum(Map(Positive, relevance), n) == PositiveCount(relevance, n) as real
  {
    if n > 0 {
      PositiveTopSum(relevance, n - 1);
    }
  }

  ghost function HitSet(relevance: seq<int>, results: seq<int>, m: nat): set<int>
    requires m <= |results|
  {
    set i | 0 <= i < m && IsHit(relevance, results[i]) :: results[i]
  }

  ghost function PositiveSet(relevance: seq<int>, n: nat): set<int>
    requires n <= |relevance|
  {
    set i | 0 <= i < n && relevance[i] > 0
  }

  predicate DistinctUpTo(results: seq<int>, m: nat)
    requires m <= |results|
  {
    forall i, j :: 0 <= i < j < m ==> results[i] != results[j]
  }

  lemma {:induction false} HitsCounted(relevance: seq<int>, results: seq<int>, m: nat)
    requires m <= |results| && DistinctUpTo(results, m)
    ensures HitCount(relevance, results, m) == |HitSet(relevance, results, m)|
  {
    if m > 0 {
      HitsCounted(relevance, results, m - 1);
      HitSetNext(relevance, results, m - 1);
    }
  }

  lemma HitSetNext(relevance: seq<int>, results: seq<int>, m: nat)
    requires m < |results| && DistinctUpTo(results, m + 1)
    ensures results[m] !in HitSet(relevance, results, m)
    ensures HitSet(relevance, results, m + 1)
            == if IsHit(relevance, results[m]) then HitSet(relevance, results, m) + {results[m]}
               else HitSet(relevance, results, m)
  {
  }

  lemma {:induction false} PositivesCounted(relevance: seq<int>, n: nat)
    requires n <= |relevance|
    ensures PositiveCount(relevance, n) == |PositiveSet(relevance, n)|
  {
    if n > 0 {
      PositivesCounted(relevance, n - 1);
      var before, after := PositiveSet(relevance, n - 1), PositiveSet(relevance, n);
      if relevance[n - 1] > 0 {
        assert after == before + {n - 1};
      } else {
        assert after == before;
      }
    }
  }

  /** Distinct results cannot hit more often than there are positives. */
  lemma DistinctHitsFit(relevance: seq<int>, results: seq<int>, m: nat)
    requires m <= |results| && DistinctUpTo(results, m)
    ensures HitCount(relevance, results, m) <= Positives(relevance)
  {
    HitsCounted(relevance, results, m);
    PositivesCounted(relevance, |relevance|);
    SubsetSize(HitSet(relevance, results, m), PositiveSet(relevance, |relevance|));
  }

  lemma SubsetSize(a: set<int>, b: set<int>)
    requires a <= b
    ensures |a| <= |b|
  {
    assert b == a + (b - a);
  }

  lemma {:induction false} AtMostOnes(x: seq<real>, m: nat)
    requires m <= |x| && forall i :: 0 <= i < |x| ==> x[i] <= 1.0
    ensures TopSum(x, m) <= m as real
  {
    if m > 0 {
      AtMostOnes(x, m - 1);
    }
  }

  lemma {:induction false} AllOnes(x: seq<real>, m: nat)
    requires m <= |x| && forall i :: 0 <= i < m ==> x[i] == 1.0
    ensures TopSum(x, m) == m as real
  {
    if m > 0 {
      AllOnes(x, m - 1);
    }
  }

  lemma IdealGainsDescend(relevance: seq<int>)
    ensures var y := IdealGains(relevance); forall i, j :: 0 <= i < j < |y| ==> y[i] >= y[j]
    ensures multiset(IdealGains(relevance)) == multiset(Map(Positive, relevance))
  {
    SortDescSorts(relevance, IntAsReal);
    var ideal := SortDesc(relevance, IntAsReal);
    MapPermutes(Positive, ideal, relevance);
    forall i, j | 0 <= i < j < |ideal| ensures Positive(ideal[i]) >= Positive(ideal[j]) {
      assert IntAsReal(ideal[i]) >= IntAsReal(ideal[j]);
    }
  }

  /** The ideal order has its positives in front. */
  lemma IdealTopSum(relevance: seq<int>, m: nat)
    requires m <= |relevance|
    ensures |IdealGains(relevance)| == |relevance|
    ensures TopSum(IdealGains(relevance), m)
            == if m <= Positives(relevance) then m as real else Positives(relevance) as real
  {
    IdealGainsLength(relevance);
    IdealGainsDescend(relevance);
    var y, flags := IdealGains(relevance), Map(Positive, relevance);
    PositiveTopSum(relevance, |relevance|);
    TimesZero(|flags|);
    TimesZero(m);
    TopSumAtThreshold(flags, |flags|, 0.0);
    ExcessPermutes(y, flags, 0.0);
    if m == 0 || y[m - 1] == 1.0 {
      AllOnes(y, m);
      TopSumBelow(y, m, 0.0);
    } else {
      TopSumAtThreshold(y, m, 0.0);
      AtMostOnes(y, m);
    }
  }

  /** With no more hits than positives, no prefix of the results collects more than the ideal order. */
  lemma HitsDominated(relevance: seq<int>, results: seq<int>, n: nat)
    requires n <= |results| && n <= |relevance| && HitCount(relevance, results, n) <= Positives(relevance)
    ensures |IdealGains(relevance)| == |relevance|
    ensures Dominated(HitGains(relevance, results), IdealGains(relevance), n)
  {
    IdealGainsLength(relevance);
    forall m: nat | m <= n ensures TopSum(HitGains(relevance, results), m) <= TopSum(IdealGains(relevance), m) {
      HitTopSum(relevance, results, m);
      HitCountGrows(relevance, results, m, n);
      IdealTopSum(relevance, m);
    }
  }

  ghost predicate IdealPlaces(relevance: seq<int>, results: seq<int>)
    requires Limit(results) <= |SortDesc(relevance, IntAsReal)|
  {
    forall i :: 0 <= i < Limit(results) ==>
      IsHit(relevance, results[i]) == (SortDesc(relevance, IntAsReal)[i] > 0)
  }

  /** With no more hits than positives NDCG@10 stays in [0, 1], and reaches 1 exactly when a
      positive is in reach and the hits sit where the ideal order has them. */
  lemma NdcgAt10Bounds(relevance: seq<int>, results: seq<int>, d: nat -> real)
    requires IsDiscount(d) && Limit(results) <= |relevance|
    requires HitCount(relevance, results, Limit(results)) <= Positives(relevance)
    ensures |IdealGains(relevance)| == |SortDesc(relevance, IntAsReal)| == |relevance|
    ensures 0.0 <= NdcgAt10(relevance, results, d) <= 1.0
    ensures NdcgAt10(relevance, results, d) == 1.0 <==>
              (exists i :: 0 <= i < |relevance| && relevance[i] > 0) && Limit(results) > 0
              && IdealPlaces(relevance, results)
  {
    IdealGainsLength(relevance);
    var n := Limit(results);
    var x, y := HitGains(relevance, results), IdealGains(relevance);
    DcgAtMostIdeal(relevance, results, d);
    Ndcg.DcgSign(y, d, n);
    IdealInReach(relevance, n);
    if Discounted(y, d, n) > 0.0 {
      Ndcg.RatioInUnit(Discounted(x, d, n), Discounted(y, d, n));
    }
  }

  lemma DcgAtMostIdeal(relevance: seq<int>, results: seq<int>, d: nat -> real)
    requires IsDiscount(d) && Limit(results) <= |relevance|
    requires HitCount(relevance, results, Limit(results)) <= Positives(relevance)
    ensures |IdealGains(relevance)| == |SortDesc(relevance, IntAsReal)| == |relevance|
    ensures var dcg := Discounted(HitGains(relevance, results), d, Limit(results));
            var idcg := Discounted(IdealGains(relevance), d, Limit(results));
            0.0 <= dcg <= idcg && (dcg == idcg <==> IdealPlaces(relevance, results))
  {
    IdealGainsLength(relevance);
    var n := Limit(results);
    var x, y := HitGains(relevance, results), IdealGains(relevance);
    HitsDominated(relevance, results, n);
    DominanceLiftsToDiscounted(x, y, d, n);
    EqualDiscountedEqualLists(x, y, d, n);
    Ndcg.DcgSign(x, d, n);
    SamePlaces(relevance, results);
  }

  lemma SamePlaces(relevance: seq<int>, results: seq<int>)
    requires Limit(results) <= |relevance|
    ensures |IdealGains(relevance)| == |SortDesc(relevance, IntAsReal)| == |relevance|
    ensures var n := Limit(results);
            HitGains(relevance, results)[..n] == IdealGains(relevance)[..n] <==> IdealPlaces(relevance, results)
  {
    IdealGainsLength(relevance);
    var n := Limit(results);
    var x, y, ideal := HitGains(relevance, results), IdealGains(relevance), SortDesc(relevance, IntAsReal);
    forall i | 0 <= i < n ensures x[i] == y[i] <==> IsHit(relevance, results[i]) == (ideal[i] > 0) {
    }
    if x[..n] == y[..n] {
      forall i | 0 <= i < n ensures x[i] == y[i] { assert x[..n][i] == y[..n][i]; }
    }
  }

  /* ---- Exactly when the value stays below 1 ---- */

  /** A discount that is nearly flat: the number of positives, plus 1 / (i + 1). */
  function Flat(p: nat): nat -> real { (i: nat) => p as real + 1.0 / (i + 1) as real }

  lemma FlatIsDiscount(p: nat)
    ensures IsDiscount(Flat(p))
    ensures forall i: nat :: p as real < Flat(p)(i) <= p as real + 1.0
  {
    forall i: nat, j: nat | i < j ensures Flat(p)(i) > Flat(p)(j) > 0.0 {
      Retrieval.SmallerDivisor(1, i + 1, j + 1);
    }
    forall i: nat ensures p as real < Flat(p)(i) <= p as real + 1.0 {
      Retrieval.SmallerDivisor(1, 1, i + 1);
    }
  }

  lemma ProductBetween(x: real, w: real, lo: real, hi: real)
    requires x >= 0.0 && lo < w <= hi
    ensures Product(x, lo) <= Product(x, w) <= Product(x, hi)
    ensures x > 0.0 ==> Product(x, lo) < Product(x, w)
  {
    ProductGap(x, lo, w);
    ProductGap(x, w, hi);
  }

  lemma ProductGap(x: real, a: real, b: real)
    requires x >= 0.0 && a <= b
    ensures Product(x, a) <= Product(x, b)
    ensures x > 0.0 && a < b ==> Product(x, a) < Product(x, b)
  {
    ProductMinus(x, a, b);
    ProductPositive(x, b - a);
  }

  lemma ProductSum(a: real, b: real, w: real)
    ensures Product(a + b, w) == Product(a, w) + Product(b, w)
  {
  }

  // Discounts between lo and hi leave a discounted sum between lo and hi times the plain one.
  lemma {:induction false} DiscountedBetween(x: seq<real>, d: nat -> real, n: nat, lo: real, hi: real)
    requires n <= |x| && (forall i :: 0 <= i < |x| ==> x[i] >= 0.0) && forall i: nat :: lo < d(i) <= hi
    ensures TopSum(x, n) >= 0.0
    ensures Product(TopSum(x, n), lo) <= Discounted(x, d, n) <= Product(TopSum(x, n), hi)
    ensures TopSum(x, n) > 0.0 ==> Product(TopSum(x, n), lo) < Discounted(x, d, n)
  {
    if n > 0 {
      DiscountedBetween(x, d, n - 1, lo, hi);
      ProductBetween(x[n - 1], d(n - 1), lo, hi);
      ProductSum(TopSum(x, n - 1), x[n - 1], lo);
      ProductSum(TopSum(x, n - 1), x[n - 1], hi);
    }
  }

  lemma TooManyHits(p: real, hits: real, dcg: real, idcg: real)
    requires p >= 1.0 && hits >= p + 1.0 && dcg > Product(hits, p) && 0.0 < idcg <= Product(p, p + 1.0)
    ensures dcg / idcg > 1.0
  {
    ProductOrder(p + 1.0, hits, p);
    assert dcg > idcg;
    DivideOrder(dcg, idcg, idcg);
    Quotient(idcg, idcg);
  }

  lemma HitsUnderFlat(relevance: seq<int>, results: seq<int>, n: nat, p: nat)
    requires n <= |results| && HitCount(relevance, results, n) > 0
    ensures Discounted(HitGains(relevance, results), Flat(p), n) > Product(HitCount(relevance, results, n) as real, p as real)
  {
    FlatIsDiscount(p);
    HitTopSum(relevance, results, n);
    DiscountedBetween(HitGains(relevance, results), Flat(p), n, p as real, p as real + 1.0);
  }

  lemma IdealUnderFlat(relevance: seq<int>, n: nat)
    requires n <= |relevance| && 0 < Positives(relevance) <= n
    ensures |IdealGains(relevance)| == |relevance|
    ensures var p := Positives(relevance);
            0.0 < Discounted(IdealGains(relevance), Flat(p), n) <= Product(p as real, p as real + 1.0)
  {
    var p := Positives(relevance);
    FlatIsDiscount(p);
    IdealTopSum(relevance, n);
    DiscountedBetween(IdealGains(relevance), Flat(p), n, p as real, p as real + 1.0);
    ProductSign(p as real, p as real);
  }

  lemma MoreHitsThanPositives(relevance: seq<int>, results: seq<int>)
    requires Limit(results) <= |relevance|
    requires HitCount(relevance, results, Limit(results)) > Positives(relevance)
    ensures |IdealGains(relevance)| == |relevance|
    ensures NdcgAt10(relevance, results, Flat(Positives(relevance))) > 1.0
  {
    IdealGainsLength(relevance);
    var n, p := Limit(results), Positives(relevance);
    SomePositive(relevance, results, n);
    HitCountWithin(relevance, results, n);
    HitsUnderFlat(relevance, results, n, p);
    IdealUnderFlat(relevance, n);
    TooManyHits(p as real, HitCount(relevance, results, n) as real,
                Discounted(HitGains(relevance, results), Flat(p), n), Discounted(IdealGains(relevance), Flat(p), n));
  }

  lemma {:induction false} HitCountWithin(relevance: seq<int>, results: seq<int>, n: nat)
    requires n <= |results|
    ensures HitCount(relevance, results, n) <= n
  {
    if n > 0 {
      HitCountWithin(relevance, results, n - 1);
    }
  }

  lemma {:induction false} SomePositive(relevance: seq<int>, results: seq<int>, m: nat)
    requires m <= |results| && HitCount(relevance, results, m) > 0
    ensures Positives(relevance) > 0
  {
    if IsHit(relevance, results[m - 1]) {
      PositiveAt(relevance, |relevance|, results[m - 1]);
    } else {
      SomePositive(relevance, results, m - 1);
    }
  }

  lemma {:induction false} PositiveAt(relevance: seq<int>, n: nat, i: int)
    requires 0 <= i < n <= |relevance| && relevance[i] > 0
    ensures PositiveCount(relevance, n) > 0
  {
    if i < n - 1 {
      PositiveAt(relevance, n - 1, i);
    }
  }

  /** NDCG@10 is at most 1 for every discount exactly when the hits within the limit are no
      more than the positives. */
  lemma NdcgAt10AtMostOneIff(relevance: seq<int>, results: seq<int>)
    requires Limit(results) <= |relevance|
    ensures |IdealGains(relevance)| == |relevance|
    ensures (forall d :: IsDiscount(d) ==> NdcgAt10(relevance, results, d) <= 1.0)
            <==> HitCount(relevance, results, Limit(results)) <= Positives(relevance)
  {
    IdealGainsLength(relevance);
    if HitCount(relevance, results, Limit(results)) <= Positives(relevance) {
      forall d | IsDiscount(d) ensures NdcgAt10(relevance, results, d) <= 1.0 {
        NdcgAt10Bounds(relevance, results, d);
      }
    } else {
      FlatIsDiscount(Positives(relevance));
      MoreHitsThanPositives(relevance, results);
    }
  }

  /** Distinct results meet the condition. */
  lemma DistinctResultsInUnit(relevance: seq<int>, results: seq<int>, d: nat -> real)
    requires IsDiscount(d) && Limit(results) <= |relevance| && DistinctUpTo(results, Limit(results))
    ensures |IdealGains(relevance)| == |relevance|
    ensures 0.0 <= NdcgAt10(relevance, results, d) <= 1.0
  {
    DistinctHitsFit(relevance, results, Limit(results));
    NdcgAt10Bounds(relevance, results, d);
  }

  /** NDCG@10 in plain terms: one point for every result in the first ten that names a document
      of positive relevance, against one point for as many first places as there are such
      documents; 0 when there is none. */
  lemma NdcgAt10IsRatio(relevance: seq<int>, results: seq<int>, positives: nat, hits: seq<real>, ideal: seq<real>,
                        d: nat -> real, dcg: real, idcg: real)
    requires IsDiscount(d) && |hits| == |ideal| == (if |results| < 10 then |results| else 10) <= |relevance|
    requires forall i :: 0 <= i < |hits| ==>
                           hits[i] == if 0 <= results[i] < |relevance| && relevance[results[i]] > 0 then 1.0 else 0.0
    requires positives == |set j | 0 <= j < |relevance| && relevance[j] > 0|
    requires forall i :: 0 <= i < |ideal| ==> ideal[i] == if i < positives then 1.0 else 0.0
    requires dcg == Discounted(hits, d, |hits|) && idcg == Discounted(ideal, d, |ideal|)
    ensures |IdealGains(relevance)| == |relevance|
    ensures NdcgAt10(relevance, results, d) * idcg == dcg
    ensures idcg == 0.0 ==> NdcgAt10(relevance, results, d) == 0.0
  {
    IdealGainsLength(relevance);
    PositivesCounted(relevance, |relevance|);
    assert PositiveSet(relevance, |relevance|) == set j | 0 <= j < |relevance| && relevance[j] > 0;
    IdealSum(relevance, ideal, d);
    SameSummands(HitGains(relevance, results), hits, d, |hits|);
    RatioOfSums(relevance, results, d, idcg, dcg);
  }

  lemma IdealSum(relevance: seq<int>, ideal: seq<real>, d: nat -> real)
    requires |ideal| <= |relevance|
    requires forall i :: 0 <= i < |ideal| ==> ideal[i] == if i < Positives(relevance) then 1.0 else 0.0
    ensures |IdealGains(relevance)| == |relevance|
    ensures Discounted(ideal, d, |ideal|) == Discounted(IdealGains(relevance), d, |ideal|)
  {
    IdealGainsLength(relevance);
    forall i: nat | i < |ideal| ensures IdealGains(relevance)[i] == ideal[i] {
      IdealGainAt(relevance, i);
    }
    SameSummands(IdealGains(relevance), ideal, d, |ideal|);
  }

  lemma IdealGainAt(relevance: seq<int>, i: nat)
    requires i < |relevance|
    ensures |IdealGains(relevance)| == |relevance|
    ensures IdealGains(relevance)[i] == if i < Positives(relevance) then 1.0 else 0.0
  {
    IdealTopSum(relevance, i);
    IdealTopSum(relevance, i + 1);
  }

  lemma RatioOfSums(relevance: seq<int>, results: seq<int>, d: nat -> real, idcg: real, dcg: real)
    requires IsDiscount(d) && Limit(results) <= |IdealGains(relevance)| == |relevance|
    requires idcg == Discounted(IdealGains(relevance), d, Limit(results))
    requires dcg == Discounted(HitGains(relevance, results), d, Limit(results))
    ensures NdcgAt10(relevance, results, d) * idcg == dcg
    ensures idcg == 0.0 ==> NdcgAt10(relevance, results, d) == 0.0
  {
    Ndcg.DcgSign(IdealGains(relevance), d, Limit(results));
    if idcg > 0.0 {
      Quotient(dcg, idcg);
    } else {
      NoHitsWithoutPositives(relevance, results, d);
    }
  }

  lemma NoHitsWithoutPositives(relevance: seq<int>, results: seq<int>, d: nat -> real)
    requires IsDiscount(d) && Limit(results) <= |IdealGains(relevance)| == |relevance|
    requires Discounted(IdealGains(relevance), d, Limit(results)) == 0.0
    ensures Discounted(HitGains(relevance, results), d, Limit(results)) == 0.0
  {
    var n := Limit(results);
    Ndcg.DcgSign(IdealGains(relevance), d, n);
    if n > 0 {
      IdealTopSum(relevance, 1);
      assert TopSum(IdealGains(relevance), 1) == IdealGains(relevance)[0] == 0.0;
      forall i | 0 <= i < n ensures HitGains(relevance, results)[i] == 0.0 {
        if IsHit(relevance, results[i]) {
          PositiveAt(relevance, |relevance|, results[i]);
        }
      }
      Ndcg.DcgSign(HitGains(relevance, results), d, n);
    }
  }

  lemma IdealInReach(relevance: seq<int>, n: nat)
    requires n <= |relevance|
    ensures |IdealGains(relevance)| == |relevance|
    ensures (forall i :: 0 <= i < n ==> IdealGains(relevance)[i] == 0.0)
            <==> n == 0 || forall i :: 0 <= i < |relevance| ==> relevance[i] <= 0
  {
    IdealGainsLength(relevance);
    SortDescSorts(relevance, IntAsReal);
    var ideal := SortDesc(relevance, IntAsReal);
    var y := IdealGains(relevance);
    if n > 0 {
      assert y[0] == Positive(ideal[0]);
      if y[0] == 0.0 {
        forall i | 0 <= i < |relevance| ensures relevance[i] <= 0 {
          InBoth(relevance[i], relevance, ideal);
          var k :| 0 <= k < |ideal| && ideal[k] == relevance[i];
          assert IntAsReal(ideal[0]) >= IntAsReal(ideal[k]);
        }
      }
      if forall i :: 0 <= i < |relevance| ==> relevance[i] <= 0 {
        forall i | 0 <= i < n ensures y[i] == 0.0 {
          InBoth(ideal[i], ideal, relevance);
        }
      }
    }
  }

  /** The only relevant document, returned twice: two hits, one positive, and more than 1 for
      every discount. */
  lemma RepeatedResultExceedsOne(d: nat -> real)
    requires IsDiscount(d)
    ensures Limit([0, 0]) <= |IdealGains([1, 0])|
    ensures NdcgAt10([1, 0], [0, 0], d) > 1.0
  {
    assert SortDesc([1, 0], IntAsReal) == [1, 0];
    var x, y := HitGains([1, 0], [0, 0]), IdealGains([1, 0]);
    DiscountPositive(d, 0);
    DiscountPositive(d, 1);
    assert Discounted(y, d, 1) == d(0) && Discounted(y, d, 2) == d(0);
    assert Discounted(x, d, 1) == d(0) && Discounted(x, d, 2) == d(0) + d(1);
    DivideOrder(d(0) + d(1), d(0), d(0));
    Quotient(d(0), d(0));
  }

  /* ---- Permutations of indices ---- */

  function At<T>(s: seq<T>, i: int, default: T): T {
    if 0 <= i < |s| then s[i] else default
  }

  function Range(n: nat): (r: seq<int>)
    ensures |r| == n && forall i :: 0 <= i < n ==> r[i] == i
  {
    seq(n, i => i)
  }

  ghost predicate IsPermutation(results: seq<int>) {
    DistinctUpTo(results, |results|) && forall i :: 0 <= i < |results| ==> 0 <= results[i] < |results|
  }

  lemma {:induction false} DistinctSet(s: seq<int>, n: nat)
    requires n <= |s| && DistinctUpTo(s, n)
    ensures |set i | 0 <= i < n :: s[i]| == n
  {
    if n > 0 {
      DistinctSet(s, n - 1);
      assert (set i | 0 <= i < n :: s[i]) == (set i | 0 <= i < n - 1 :: s[i]) + {s[n - 1]};
    }
  }

  // n distinct indices below n are all of them.
  lemma PermutationCovers(results: seq<int>)
    requires IsPermutation(results)
    ensures multiset(results) == multiset(Range(|results|))
  {
    var n := |results|;
    var used := set i | 0 <= i < n :: results[i];
    var all := set i: int | 0 <= i < n :: Range(n)[i];
    DistinctSet(results, n);
    DistinctSet(Range(n), n);
    forall x | x in used ensures x in all {
      assert Range(n)[x] == x;
    }
    assert used == all by {
      if exists x :: x in all && x !in used {
        var x :| x in all && x !in used;
        SubsetSize(used, all - {x});
      }
    }
    OncePerIndex(results);
    OncePerIndex(Range(n));
    forall x: int ensures multiset(results)[x] == multiset(Range(n))[x] {
      assert x in used <==> x in results;
      assert x in all <==> x in Range(n);
    }
  }

  lemma {:induction false} OncePerIndex(s: seq<int>)
    requires DistinctUpTo(s, |s|)
    ensures forall x :: x in s ==> multiset(s)[x] == 1
    ensures forall x :: x !in s ==> multiset(s)[x] == 0
  {
    if s != [] {
      var last := s[|s| - 1];
      var rest := s[..|s| - 1];
      OncePerIndex(rest);
      assert s == rest + [last];
    }
  }
}
