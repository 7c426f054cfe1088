/** Average precision, reciprocal rank and recall@k of benchmarks/image/bench_multimodal.py
    (the reranking benchmark has the same MRR and recall, with threshold 1).

    A ranking is read as one flag per rank: does the document there reach the relevance
    threshold? All three metrics are then functions of the 1-based positions of the
    relevant documents, and that view is what the proofs work with.
 */
module Retrieval {
  import opened Reals
  import opened Sequences
  import opened Sorting

  datatype Scored = Scored(score: real, relevance: real)

  function ScoreOf(p: Scored): real { p.score }

  function Flags(pairs: seq<Scored>, threshold: real): (f: seq<bool>)
    ensures |f| == |SortDesc(pairs, ScoreOf)|
  {
    var ranked := SortDesc(pairs, ScoreOf);
    seq(|ranked|, i requires 0 <= i < |ranked| => ranked[i].relevance >= threshold)
  }

  function Hits(f: seq<bool>, n: nat): (h: nat)
    requires n <= |f|
    ensures h <= n
  {
    if n == 0 then 0 else Hits(f, n - 1) + if f[n - 1] then 1 else 0
  }

  function Relevant(f: seq<bool>): nat { Hits(f, |f|) }

  function PrecisionSum(f: seq<bool>, n: nat): real
    requires n <= |f|
  {
    if n == 0 then 0.0
    else PrecisionSum(f, n - 1) + if f[n - 1] then Hits(f, n) as real / n as real else 0.0
  }

  function AveragePrecision(f: seq<bool>): real {
    if Relevant(f) == 0 then 0.0 else PrecisionSum(f, |f|) / Relevant(f) as real
  }

  function FirstHit(f: seq<bool>): (i: nat)
    ensures i <= |f|
    ensures i < |f| ==> f[i]
    ensures forall j :: 0 <= j < i ==> !f[j]
  {
    if f == [] || f[0] then 0 else 1 + FirstHit(f[1..])
  }

  function ReciprocalRank(f: seq<bool>): real {
    if FirstHit(f) == |f| then 0.0 else 1.0 / (FirstHit(f) + 1) as real
  }

  function Recall(f: seq<bool>, k: int): real {
    if Relevant(f) == 0 then 0.0 else Hits(f, Cut(|f|, k)) as real / Relevant(f) as real
  }

  method ComputeMap(pairs: seq<Scored>, threshold: real) returns (precision: real)
    ensures precision == AveragePrecision(Flags(pairs, threshold))
    ensures forall f: seq<bool> :: Marks(SortDesc(pairs, ScoreOf), threshold, f) ==> precision == AveragePrecision(f)
  {
    FlagsAre(pairs, threshold);
    var ranked := SortDesc(pairs, ScoreOf);
    ghost var f := Flags(pairs, threshold);
    var numRelevant := 0;
    for i := 0 to |ranked|
      invariant numRelevant == Hits(f, i)
    {
      if ranked[i].relevance >= threshold {
        numRelevant := numRelevant + 1;
      }
    }
    if numRelevant == 0 {
      return 0.0;
    }
    var ap := 0.0;
    var relevantSoFar := 0;
    for i := 0 to |ranked|
      invariant relevantSoFar == Hits(f, i)
      invariant ap == PrecisionSum(f, i)
    {
      if ranked[i].relevance >= threshold {
        relevantSoFar := relevantSoFar + 1;
        ap := ap + relevantSoFar as real / (i + 1) as real;
      }
    }
    return ap / numRelevant as real;
  }

  method ComputeMrr(pairs: seq<Scored>, threshold: real) returns (mrr: real)
    ensures mrr == ReciprocalRank(Flags(pairs, threshold))
    ensures var ranked := SortDesc(pairs, ScoreOf);
            IsReciprocalRank(ranked, threshold, mrr)
  {
    var ranked := SortDesc(pairs, ScoreOf);
    ghost var f := Flags(pairs, threshold);
    ReciprocalRankIs(ranked, threshold, f);
    for i := 0 to |ranked|
      invariant forall j :: 0 <= j < i ==> !f[j]
    {
      if ranked[i].relevance >= threshold {
        assert f[i] && FirstHit(f) == i;
        mrr := 1.0 / (i + 1) as real;
        assert mrr == ReciprocalRank(f);
        return;
      }
    }
    mrr := 0.0;
  }

  /** The document at place i is the first that reaches the threshold. */
  predicate FirstReaching(ranked: seq<Scored>, threshold: real, i: nat) {
    i < |ranked| && ranked[i].relevance >= threshold && forall j :: 0 <= j < i ==> ranked[j].relevance < threshold
  }

  /** 1 over the place of the first document that reaches the threshold, and 0 if none does. */
  ghost predicate IsReciprocalRank(ranked: seq<Scored>, threshold: real, mrr: real) {
    if forall i :: 0 <= i < |ranked| ==> ranked[i].relevance < threshold then mrr == 0.0
    else exists i :: FirstReaching(ranked, threshold, i) && mrr * (i + 1) as real == 1.0
  }

  lemma ReciprocalRankIs(ranked: seq<Scored>, threshold: real, f: seq<bool>)
    requires Marks(ranked, threshold, f)
    ensures IsReciprocalRank(ranked, threshold, ReciprocalRank(f))
  {
    var i := FirstHit(f);
    if i < |f| {
      assert FirstReaching(ranked, threshold, i);
      OneOver(i + 1);
    }
  }

  lemma OneOver(n: nat)
    requires n > 0
    ensures (1.0 / n as real) * n as real == 1.0
  {
    Quotient(1.0, n as real);
  }

  method ComputeRecall(pairs: seq<Scored>, k: int, threshold: real) returns (recall: real)
    ensures recall == Recall(Flags(pairs, threshold), k)
    ensures forall f: seq<bool> :: Marks(SortDesc(pairs, ScoreOf), threshold, f) ==> recall == Recall(f, k)
  {
    FlagsAre(pairs, threshold);
    var ranked := SortDesc(pairs, ScoreOf);
    ghost var f := Flags(pairs, threshold);
    SortDescSorts(pairs, ScoreOf);
    var totalRelevant := 0;
    for i := 0 to |pairs|
      invariant totalRelevant == Reaching(pairs, threshold, i)
    {
      if pairs[i].relevance >= threshold {
        totalRelevant := totalRelevant + 1;
      }
    }
    RelevantPermutes(pairs, threshold);
    if totalRelevant == 0 {
      return 0.0;
    }
    var cut := Cut(|ranked|, k);
    var hits := 0;
    for i := 0 to cut
      invariant hits == Hits(f, i)
    {
      if ranked[i].relevance >= threshold {
        hits := hits + 1;
      }
    }
    return hits as real / totalRelevant as real;
  }

  /** f says which documents of a list reach the threshold. */
  predicate Marks(ranked: seq<Scored>, threshold: real, f: seq<bool>) {
    |f| == |ranked| && forall i :: 0 <= i < |f| ==> (f[i] <==> ranked[i].relevance >= threshold)
  }

  lemma FlagsAre(pairs: seq<Scored>, threshold: real)
    ensures forall f: seq<bool> :: Marks(SortDesc(pairs, ScoreOf), threshold, f) <==> f == Flags(pairs, threshold)
  {
  }

  /** The documents are ranked by score, descending; ties keep their order, as in every SortDesc. */
  lemma RankedByScore(pairs: seq<Scored>, score: Scored -> real)
    requires forall p :: score(p) == p.score
    ensures SortDesc(pairs, ScoreOf) == SortDesc(pairs, score)
  {
    SameOrderSameSort(pairs, ScoreOf, score);
  }

  /** The relevant places before n. */
  function Places(f: seq<bool>, n: int): set<int> { set i | 0 <= i < |f| && i < n && f[i] }

  lemma {:induction false} HitsCounted(f: seq<bool>, n: nat)
    requires n <= |f|
    ensures Hits(f, n) == |Places(f, n)|
  {
    if n > 0 {
      HitsCounted(f, n - 1);
      assert Places(f, n) == Places(f, n - 1) + if f[n - 1] then {n - 1} else {};
    } else {
      assert Places(f, n) == {};
    }
  }

  /** Recall@k counts the relevant places in the slice [:k] against all of them; a negative k
      counts from the end. */
  lemma RecallIs(f: seq<bool>, k: int, total: nat, top: nat)
    requires total == |Places(f, |f|)| && top == |Places(f, if k < 0 then |f| + k else k)|
    ensures total == 0 ==> Recall(f, k) == 0.0
    ensures Recall(f, k) * total as real == top as real
  {
    HitsCounted(f, |f|);
    HitsInSlice(f, k);
    RecallTimes(f, k, total, top);
  }

  lemma HitsInSlice(f: seq<bool>, k: int)
    ensures Hits(f, Cut(|f|, k)) == |Places(f, if k < 0 then |f| + k else k)|
  {
    HitsCounted(f, Cut(|f|, k));
    assert Places(f, Cut(|f|, k)) == Places(f, if k < 0 then |f| + k else k);
  }

  lemma RecallTimes(f: seq<bool>, k: int, total: nat, top: nat)
    requires total == Relevant(f) && top == Hits(f, Cut(|f|, k))
    ensures total == 0 ==> Recall(f, k) == 0.0
    ensures Recall(f, k) * total as real == top as real
  {
    if total > 0 {
      Quotient(top as real, total as real);
    } else {
      HitsMonotone(f, Cut(|f|, k), |f|);
    }
  }

  /** Average precision, one place after the other: an irrelevant document adds nothing, and
      the R-th relevant one at place n adds R / n to R times the average. */
  lemma ApIs(f: seq<bool>)
    ensures AveragePrecision([]) == 0.0 && AveragePrecision(f + [false]) == AveragePrecision(f)
    ensures var R := |Places(f, |f|)|;
            AveragePrecision(f + [true]) * (R + 1) as real
            == AveragePrecision(f) * R as real + (R + 1) as real / (|f| + 1) as real
  {
    HitsCounted(f, |f|);
    ApTimesRelevant(f);
    OneMorePlace(f, false);
    OneMorePlace(f, true);
    ApTimesRelevant(f + [true]);
  }

  lemma OneMorePlace(f: seq<bool>, b: bool)
    ensures Relevant(f + [b]) == Relevant(f) + if b then 1 else 0
    ensures PrecisionSum(f + [b], |f| + 1)
            == PrecisionSum(f, |f|) + if b then (Relevant(f) + 1) as real / (|f| + 1) as real else 0.0
  {
    SamePrecision(f + [b], f, |f|);
  }

  lemma ApTimesRelevant(f: seq<bool>)
    ensures AveragePrecision(f) * Relevant(f) as real == PrecisionSum(f, |f|)
  {
    if Relevant(f) == 0 {
      NoPrecision(f, |f|);
    } else {
      Quotient(PrecisionSum(f, |f|), Relevant(f) as real);
    }
  }

  lemma {:induction false} NoPrecision(f: seq<bool>, n: nat)
    requires n <= |f| && Hits(f, n) == 0
    ensures PrecisionSum(f, n) == 0.0
  {
    if n > 0 {
      NoPrecision(f, n - 1);
    }
  }

  lemma {:induction false} SamePrecision(f: seq<bool>, g: seq<bool>, n: nat)
    requires n <= |f| && n <= |g| && forall i :: 0 <= i < n ==> f[i] == g[i]
    ensures Hits(f, n) == Hits(g, n) && PrecisionSum(f, n) == PrecisionSum(g, n)
  {
    if n > 0 {
      SamePrecision(f, g, n - 1);
    }
  }

  // The relevant documents counted in input order, as compute_recall does.
  function Reaching(pairs: seq<Scored>, threshold: real, n: nat): nat
    requires n <= |pairs|
  {
    if n == 0 then 0
    else Reaching(pairs, threshold, n - 1) + if pairs[n - 1].relevance >= threshold then 1 else 0
  }

  lemma {:induction false} ReachingRemove(pairs: seq<Scored>, threshold: real, k: nat, n: nat)
    requires k < n <= |pairs|
    ensures Reaching(pairs, threshold, n) == Reaching(pairs[..k] + pairs[k + 1..], threshold, n - 1)
                                             + if pairs[k].relevance >= threshold then 1 else 0
  {
    if k == n - 1 {
      SamePrefixReaching(pairs, pairs[..k] + pairs[k + 1..], threshold, k);
    } else {
      ReachingRemove(pairs, threshold, k, n - 1);
    }
  }

  lemma {:induction false} SamePrefixReaching(a: seq<Scored>, b: seq<Scored>, threshold: real, n: nat)
    requires n <= |a| && n <= |b| && forall i :: 0 <= i < n ==> a[i] == b[i]
    ensures Reaching(a, threshold, n) == Reaching(b, threshold, n)
  {
    if n > 0 {
      SamePrefixReaching(a, b, threshold, n - 1);
    }
  }

  lemma {:induction false} ReachingPermutes(a: seq<Scored>, b: seq<Scored>, threshold: real)
    requires multiset(a) == multiset(b)
    ensures |a| == |b| && Reaching(a, threshold, |a|) == Reaching(b, threshold, |b|)
    decreases |a|
  {
    SameLength(a, b);
    if a != [] {
      var k := MatchingIndex(a, b);
      ReachingPermutes(a[..0] + a[1..], b[..k] + b[k + 1..], threshold);
      ReachingRemove(a, threshold, 0, |a|);
      ReachingRemove(b, threshold, k, |b|);
    }
  }

  lemma {:induction false} HitsAreReaching(ranked: seq<Scored>, f: seq<bool>, threshold: real, n: nat)
    requires n <= |ranked| == |f|
    requires forall i :: 0 <= i < |f| ==> f[i] == (ranked[i].relevance >= threshold)
    ensures Hits(f, n) == Reaching(ranked, threshold, n)
  {
    if n > 0 {
      HitsAreReaching(ranked, f, threshold, n - 1);
    }
  }

  /** Counting the relevant documents before or after the sort gives the same number. */
  lemma RelevantPermutes(pairs: seq<Scored>, threshold: real)
    ensures Relevant(Flags(pairs, threshold)) == Reaching(pairs, threshold, |pairs|)
  {
    var ranked := SortDesc(pairs, ScoreOf);
    SortDescSorts(pairs, ScoreOf);
    HitsAreReaching(ranked, Flags(pairs, threshold), threshold, |ranked|);
    ReachingPermutes(ranked, pairs, threshold);
  }

  /* ---- The positions of the relevant documents ---- */

  function Positions(f: seq<bool>, n: nat): (p: seq<nat>)
    requires n <= |f|
    ensures |p| == Hits(f, n)
    ensures forall j :: 0 <= j < |p| ==> j < p[j] <= n
  {
    if n == 0 then [] else Positions(f, n - 1) + if f[n - 1] then [n] else []
  }

  function PositionSum(p: seq<nat>, n: nat): real
    requires n <= |p| && forall j :: 0 <= j < |p| ==> p[j] > 0
  {
    if n == 0 then 0.0 else PositionSum(p, n - 1) + n as real / p[n - 1] as real
  }

  lemma {:induction false} PositionSumPrefix(p: seq<nat>, q: seq<nat>, n: nat)
    requires n <= |p| && n <= |q| && p[..n] == q[..n]
    requires (forall j :: 0 <= j < |p| ==> p[j] > 0) && (forall j :: 0 <= j < |q| ==> q[j] > 0)
    ensures PositionSum(p, n) == PositionSum(q, n)
  {
    if n > 0 {
      assert p[n - 1] == p[..n][n - 1] == q[n - 1];
      assert p[..n - 1] == p[..n][..n - 1] == q[..n - 1];
      PositionSumPrefix(p, q, n - 1);
    }
  }

  /** The precision sum visits exactly the relevant positions: the j-th of them adds j / position. */
  lemma {:induction false} PrecisionByPositions(f: seq<bool>, n: nat)
    requires n <= |f|
    ensures PrecisionSum(f, n) == PositionSum(Positions(f, n), Hits(f, n))
  {
    if n > 0 {
      PrecisionByPositions(f, n - 1);
      var before := Positions(f, n - 1);
      if f[n - 1] {
        PositionSumAppend(before, n);
        assert Positions(f, n) == before + [n] && Hits(f, n) == |before| + 1;
      } else {
        assert before + [] == before;
        assert Positions(f, n) == before && Hits(f, n) == |before|;
      }
    }
  }

  lemma PositionSumAppend(p: seq<nat>, at: nat)
    requires at > 0 && forall j :: 0 <= j < |p| ==> p[j] > 0
    ensures PositionSum(p + [at], |p| + 1) == PositionSum(p, |p|) + (|p| + 1) as real / at as real
  {
    assert (p + [at])[..|p|] == p[..|p|];
    PositionSumPrefix(p, p + [at], |p|);
  }

  lemma {:induction false} PositionHits(f: seq<bool>, n: nat, j: nat)
    requires n <= |f| && j < Hits(f, n)
    ensures var at := Positions(f, n)[j]; f[at - 1] && Hits(f, at) == j + 1 && Hits(f, at - 1) == j
  {
    if j < Hits(f, n - 1) {
      PositionHits(f, n - 1, j);
    }
  }

  lemma {:induction false} HitsMonotone(f: seq<bool>, m: nat, n: nat)
    requires m <= n <= |f|
    ensures Hits(f, m) <= Hits(f, n) <= Hits(f, m) + (n - m)
  {
    if m < n {
      HitsMonotone(f, m, n - 1);
    }
  }

  /* ---- One ranking outranks another ---- */

  /** f has at least as many relevant documents as g within every prefix. */
  ghost predicate Outranks(f: seq<bool>, g: seq<bool>) {
    |f| == |g| && Relevant(f) == Relevant(g) && forall m: nat :: m <= |f| ==> Hits(f, m) >= Hits(g, m)
  }

  lemma OutranksPositions(f: seq<bool>, g: seq<bool>)
    requires Outranks(f, g)
    ensures forall j :: 0 <= j < Relevant(f) ==> Positions(f, |f|)[j] <= Positions(g, |g|)[j]
  {
    forall j: nat | j < Relevant(f) ensures Positions(f, |f|)[j] <= Positions(g, |g|)[j] {
      EarlierPosition(f, g, j);
    }
  }

  lemma EarlierPosition(f: seq<bool>, g: seq<bool>, j: nat)
    requires Outranks(f, g) && j < Relevant(f)
    ensures Positions(f, |f|)[j] <= Positions(g, |g|)[j]
  {
    var pf := PlaceOf(f, j);
    var pg := PlaceOf(g, j);
    NoLater(f, g, pf, pg);
  }

  lemma PlaceOf(f: seq<bool>, j: nat) returns (at: nat)
    requires j < Relevant(f)
    ensures at == Positions(f, |f|)[j] && 0 < at <= |f| && Hits(f, at) == j + 1 && Hits(f, at - 1) == j
  {
    at := Positions(f, |f|)[j];
    PositionHits(f, |f|, j);
  }

  lemma NoLater(f: seq<bool>, g: seq<bool>, pf: nat, pg: nat)
    requires Outranks(f, g) && 0 < pf <= |f| && pg <= |g| && Hits(g, pg) > Hits(f, pf - 1)
    ensures pf <= pg
  {
    MoreHitsLater(f, pg, pf - 1);
  }

  lemma MoreHitsLater(f: seq<bool>, m: nat, n: nat)
    requires m <= |f| && n <= |f| && Hits(f, m) > Hits(f, n)
    ensures m > n
  {
    if m <= n {
      HitsMonotone(f, m, n);
    }
  }

  lemma SmallerDivisor(n: nat, p: nat, q: nat)
    requires 0 < n && 0 < p <= q
    ensures n as real / p as real >= n as real / q as real > 0.0
    ensures p < q ==> n as real / p as real > n as real / q as real
  {
    var a, b := n as real / p as real, n as real / q as real;
    assert a * p as real == n as real == b * q as real;
  }

  lemma {:induction false} PositionSumOrder(p: seq<nat>, q: seq<nat>, n: nat)
    requires n <= |p| && n <= |q|
    requires forall j :: 0 <= j < |p| ==> p[j] > 0
    requires forall j :: 0 <= j < |q| ==> q[j] > 0
    requires forall j :: 0 <= j < n ==> p[j] <= q[j]
    ensures PositionSum(p, n) >= PositionSum(q, n)
    ensures p[..n] != q[..n] ==> PositionSum(p, n) > PositionSum(q, n)
  {
    if n > 0 {
      PositionSumOrder(p, q, n - 1);
      SmallerDivisor(n, p[n - 1], q[n - 1]);
      if p[n - 1] == q[n - 1] && p[..n - 1] == q[..n - 1] {
        assert p[..n] == p[..n - 1] + [p[n - 1]] == q[..n];
      }
    }
  }

  /** Equal positions, equal rankings. */
  lemma {:induction false} PositionsDetermine(f: seq<bool>, g: seq<bool>, n: nat)
    requires n <= |f| && n <= |g| && Positions(f, n) == Positions(g, n)
    ensures f[..n] == g[..n]
  {
    if n > 0 {
      var pf, pg := Positions(f, n - 1), Positions(g, n - 1);
      assert f[n - 1] ==> Positions(f, n)[|pf|] == n;
      assert g[n - 1] ==> Positions(g, n)[|pg|] == n;
      assert f[n - 1] == g[n - 1];
      if f[n - 1] {
        assert pf == Positions(f, n)[..|pf|] && pg == Positions(g, n)[..|pg|];
      } else {
        assert Positions(f, n) == pf && Positions(g, n) == pg;
      }
      PositionsDetermine(f, g, n - 1);
      assert f[..n] == f[..n - 1] + [f[n - 1]] && g[..n] == g[..n - 1] + [g[n - 1]];
    }
  }

  /** A ranking that outranks another scores at least as high in all three metrics, and
      strictly higher in average precision unless the two are the same ranking. */
  lemma OutranksScoresHigher(f: seq<bool>, g: seq<bool>, k: int)
    requires Outranks(f, g)
    ensures AveragePrecision(f) >= AveragePrecision(g)
    ensures AveragePrecision(f) == AveragePrecision(g) <==> f == g
    ensures ReciprocalRank(f) >= ReciprocalRank(g)
    ensures Recall(f, k) >= Recall(g, k)
  {
    OutranksPrecision(f, g);
    OutranksReciprocal(f, g);
    OutranksRecall(f, g, k);
  }

  lemma OutranksPrecision(f: seq<bool>, g: seq<bool>)
    requires Outranks(f, g)
    ensures AveragePrecision(f) >= AveragePrecision(g)
    ensures AveragePrecision(f) == AveragePrecision(g) <==> f == g
  {
    var pf, pg, r := Positions(f, |f|), Positions(g, |g|), Relevant(f);
    OutranksPositions(f, g);
    PrecisionByPositions(f, |f|);
    PrecisionByPositions(g, |g|);
    PositionSumOrder(pf, pg, r);
    if pf == pg {
      PositionsDetermine(f, g, |f|);
      assert f == f[..|f|] && g == g[..|g|];
    }
    assert pf == pf[..r] && pg == pg[..r];
    if r > 0 {
      DivideOrder(PositionSum(pf, r), PositionSum(pg, r), r as real);
    }
  }

  lemma OutranksReciprocal(f: seq<bool>, g: seq<bool>)
    requires Outranks(f, g)
    ensures ReciprocalRank(f) >= ReciprocalRank(g)
  {
    FirstHitIsFirstPosition(f);
    FirstHitIsFirstPosition(g);
    if Relevant(f) > 0 {
      OutranksPositions(f, g);
      SmallerDivisor(1, Positions(f, |f|)[0], Positions(g, |g|)[0]);
    }
  }

  lemma OutranksRecall(f: seq<bool>, g: seq<bool>, k: int)
    requires Outranks(f, g)
    ensures Recall(f, k) >= Recall(g, k)
  {
    var cut := Cut(|f|, k);
    assert Hits(f, cut) >= Hits(g, cut);
    if Relevant(f) > 0 {
      DivideOrder(Hits(f, cut) as real, Hits(g, cut) as real, Relevant(f) as real);
    }
  }

  lemma FirstHitIsFirstPosition(f: seq<bool>)
    ensures Relevant(f) == 0 <==> FirstHit(f) == |f|
    ensures Relevant(f) > 0 ==> FirstHit(f) + 1 == Positions(f, |f|)[0]
  {
    var i := FirstHit(f);
    NoHits(f, i);
    if i < |f| {
      HitsMonotone(f, i + 1, |f|);
    }
    if Relevant(f) > 0 {
      PositionHits(f, |f|, 0);
      var at := Positions(f, |f|)[0];
      if i + 1 < at {
        HitsMonotone(f, i + 1, at - 1);
      } else if at - 1 < i {
        assert false;
      }
    }
  }

  lemma {:induction false} NoHits(f: seq<bool>, n: nat)
    requires n <= |f| && forall j :: 0 <= j < n ==> !f[j]
    ensures Hits(f, n) == 0
  {
    if n > 0 {
      NoHits(f, n - 1);
    }
  }

  /** Average precision lies between MRR / R and 1. */
  lemma ApBetweenMrrAndOne(f: seq<bool>)
    requires Relevant(f) > 0
    ensures ReciprocalRank(f) / Relevant(f) as real <= AveragePrecision(f) <= 1.0
    ensures AveragePrecision(f) > 0.0
  {
    var p, r := Positions(f, |f|), Relevant(f);
    PrecisionByPositions(f, |f|);
    FirstHitIsFirstPosition(f);
    PositionSumBounds(p, r);
    var rr, sum := ReciprocalRank(f), PositionSum(p, r);
    assert rr == 1.0 / p[0] as real;
    DivideBetween(rr, sum, r as real);
  }

  lemma DivideBetween(a: real, b: real, c: real)
    requires 0.0 < a <= b <= c
    ensures a / c <= b / c <= 1.0 && b / c > 0.0
    ensures b / c == 1.0 <==> b == c
  {
    DivideOrder(b, a, c);
    DivideOrder(c, b, c);
    DivideOrder(a, 0.0, c);
    Quotient(b, c);
    Quotient(c, c);
  }

  lemma {:induction false} PositionSumBounds(p: seq<nat>, n: nat)
    requires 0 < n <= |p| && forall j :: 0 <= j < |p| ==> p[j] > j
    ensures 0.0 < 1.0 / p[0] as real <= PositionSum(p, n) <= n as real
  {
    SmallerDivisor(n, n, p[n - 1]);
    if n > 1 {
      PositionSumBounds(p, n - 1);
    } else {
      assert PositionSum(p, 0) == 0.0;
    }
  }

  /** The ranking with all r relevant documents on top. */
  function RelevantFirst(r: nat, n: nat): seq<bool>
    requires r <= n
  {
    seq(n, i => i < r)
  }

  lemma {:induction false} RelevantFirstHits(r: nat, n: nat, m: nat)
    requires r <= n && m <= n
    ensures Hits(RelevantFirst(r, n), m) == if m < r then m else r
  {
    if m > 0 {
      RelevantFirstHits(r, n, m - 1);
    }
  }

  lemma RelevantFirstOutranks(f: seq<bool>)
    ensures Outranks(RelevantFirst(Relevant(f), |f|), f)
  {
    var r := Relevant(f);
    RelevantFirstHits(r, |f|, |f|);
    forall m: nat | m <= |f| ensures Hits(RelevantFirst(r, |f|), m) >= Hits(f, m) {
      RelevantFirstHits(r, |f|, m);
      HitsMonotone(f, m, |f|);
    }
  }

  /** Average precision is 1 exactly when the first R places hold the R relevant documents. */
  lemma ApIsOneIff(f: seq<bool>)
    requires Relevant(f) > 0
    ensures AveragePrecision(f) == 1.0 <==> forall i :: 0 <= i < Relevant(f) ==> f[i]
  {
    var r := Relevant(f);
    var best := RelevantFirst(r, |f|);
    RelevantFirstOutranks(f);
    OutranksScoresHigher(best, f, 0);
    ApOfRelevantFirst(r, |f|);
    if forall i :: 0 <= i < r ==> f[i] {
      AllHits(f, r);
      forall i | r <= i < |f| ensures !f[i] {
        HitsMonotone(f, r, i);
        HitsMonotone(f, i + 1, |f|);
      }
      assert f == best;
    }
  }

  lemma ApOfRelevantFirst(r: nat, n: nat)
    requires 0 < r <= n
    ensures AveragePrecision(RelevantFirst(r, n)) == 1.0
  {
    var best := RelevantFirst(r, n);
    RelevantFirstHits(r, n, n);
    var p := Positions(best, n);
    forall j: nat | j < r ensures p[j] == j + 1 {
      PositionHits(best, n, j);
      RelevantFirstHits(r, n, p[j]);
      RelevantFirstHits(r, n, p[j] - 1);
    }
    AllOnTop(p, r);
    PrecisionByPositions(best, n);
    DivideBetween(r as real, r as real, r as real);
  }

  lemma {:induction false} AllOnTop(p: seq<nat>, n: nat)
    requires n <= |p|
    requires forall j :: 0 <= j < |p| ==> p[j] == j + 1
    ensures PositionSum(p, n) == n as real
  {
    if n > 0 {
      AllOnTop(p, n - 1);
      assert n as real / p[n - 1] as real == 1.0;
    }
  }

  lemma {:induction false} AllHits(f: seq<bool>, n: nat)
    requires n <= |f| && forall i :: 0 <= i < n ==> f[i]
    ensures Hits(f, n) == n
  {
    if n > 0 {
      AllHits(f, n - 1);
    }
  }

  /** A ranking with the relevant documents on top maximises all three metrics over every
      ranking of the same documents. */
  lemma RelevantFirstIsBest(f: seq<bool>, k: int)
    ensures var best := RelevantFirst(Relevant(f), |f|);
            AveragePrecision(f) <= AveragePrecision(best)
            && ReciprocalRank(f) <= ReciprocalRank(best)
            && Recall(f, k) <= Recall(best, k)
  {
    RelevantFirstOutranks(f);
    OutranksScoresHigher(RelevantFirst(Relevant(f), |f|), f, k);
  }

  /** Moving a relevant document one place up, past an irrelevant one, lowers no metric
      and raises average precision. */
  lemma PromotionNeverLowers(f: seq<bool>, i: nat, k: int)
    requires i + 1 < |f| && !f[i] && f[i + 1]
    ensures var g := f[i := true][i + 1 := false];
            Relevant(g) == Relevant(f) && AveragePrecision(g) > AveragePrecision(f)
            && ReciprocalRank(g) >= ReciprocalRank(f) && Recall(g, k) >= Recall(f, k)
  {
    var g := f[i := true][i + 1 := false];
    forall m: nat | m <= |f| ensures Hits(g, m) == Hits(f, m) + if m == i + 1 then 1 else 0 {
      SwapHits(f, g, i, m);
    }
    assert Outranks(g, f);
    OutranksScoresHigher(g, f, k);
    assert g[i] != f[i];
  }

  lemma {:induction false} SwapHits(f: seq<bool>, g: seq<bool>, i: nat, m: nat)
    requires i + 1 < |f| && !f[i] && f[i + 1] && g == f[i := true][i + 1 := false] && m <= |f|
    ensures Hits(g, m) == Hits(f, m) + if m == i + 1 then 1 else 0
  {
    if m > 0 {
      SwapHits(f, g, i, m - 1);
    }
  }

  /** Recall@k orders two rankings of the same documents for every k exactly when one
      outranks the other. */
  lemma RecallOrdersIffOutranks(f: seq<bool>, g: seq<bool>)
    requires |f| == |g| && Relevant(f) == Relevant(g) > 0
    ensures (forall k: int :: Recall(f, k) >= Recall(g, k)) <==> Outranks(f, g)
  {
    var r := Relevant(f) as real;
    if Outranks(f, g) {
      forall k: int ensures Recall(f, k) >= Recall(g, k) {
        OutranksScoresHigher(f, g, k);
      }
    }
    if forall k: int :: Recall(f, k) >= Recall(g, k) {
      forall m: nat | m <= |f| ensures Hits(f, m) >= Hits(g, m) {
        assert Recall(f, m) >= Recall(g, m) && Cut(|f|, m) == m;
        if Hits(f, m) < Hits(g, m) {
          DivideOrder(Hits(g, m) as real, Hits(f, m) as real, r);
        }
      }
    }
  }
}
