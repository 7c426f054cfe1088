/** When the C++ NDCG@10 of benchmarks/bench_reranker_compare.cpp is the Python one of
    benchmarks/reranking/bench_quality.py.

    `pairs` are the scored documents with 0/1 relevance. An admissible result list ranks all
    of them by descending score; documents of equal score may come in any order in it,
    while Python's stable sort keeps their input order.
 */
module RerankerAgreement {
  import opened Reals
  import opened Sequences
  import opened Sorting
  import opened Ranking
  import opened RerankerCompare
  import Ndcg

  predicate Binary(pairs: seq<Ndcg.Judged>) { forall i :: 0 <= i < |pairs| ==> pairs[i].relevance <= 1 }

  function Relevances(pairs: seq<Ndcg.Judged>): (r: seq<int>)
    ensures |r| == |pairs| && forall i :: 0 <= i < |pairs| ==> r[i] == pairs[i].relevance as int
  {
    seq(|pairs|, i requires 0 <= i < |pairs| => pairs[i].relevance as int)
  }

  function Pick(pairs: seq<Ndcg.Judged>): int -> Ndcg.Judged { i => At(pairs, i, Ndcg.Judged(0.0, 0)) }

  /** The documents in the order of the results. */
  function Ranked(pairs: seq<Ndcg.Judged>, results: seq<int>): seq<Ndcg.Judged> { Map(Pick(pairs), results) }

  ghost predicate Admissible(pairs: seq<Ndcg.Judged>, results: seq<int>) {
    |results| == |pairs| && IsPermutation(results) && Descending(Ranked(pairs, results), Ndcg.ScoreOf)
  }

  lemma RankedPermutes(pairs: seq<Ndcg.Judged>, results: seq<int>)
    requires |results| == |pairs| && IsPermutation(results)
    ensures multiset(Ranked(pairs, results)) == multiset(pairs)
  {
    PermutationCovers(results);
    MapPermutes(Pick(pairs), results, Range(|pairs|));
    assert Map(Pick(pairs), Range(|pairs|)) == pairs;
  }

  /** The C++ value is the Python quotient over the order of the results. */
  lemma ValueOfRanking(pairs: seq<Ndcg.Judged>, results: seq<int>, d: nat -> real)
    requires Binary(pairs) && Admissible(pairs, results)
    ensures Limit(results) == Cut(|pairs|, 10) && |IdealGains(Relevances(pairs))| == |pairs|
    ensures var idcg := Ndcg.Dcg(Ndcg.Ideal(pairs), 10, d);
            NdcgAt10(Relevances(pairs), results, d)
            == if idcg > 0.0 then Ndcg.Dcg(Map(Ndcg.RelevanceOf, Ranked(pairs, results)), 10, d) / idcg else 0.0
  {
    var relevance, ranked := Relevances(pairs), Ranked(pairs, results);
    IdealGainsLength(relevance);
    Ndcg.SameLengths(pairs);
    assert Ndcg.Pow2(1) == 2 && Ndcg.Pow2(0) == 1;
    var gains := Map(Ndcg.Gain, Map(Ndcg.RelevanceOf, ranked));
    forall i | 0 <= i < |pairs| ensures gains[i] == HitGains(relevance, results)[i] {
      assert ranked[i] == pairs[results[i]] && ranked[i].relevance <= 1;
    }
    assert gains == HitGains(relevance, results);
    SameIdeal(pairs, relevance);
  }

  /** Documents of equal score and different relevance have at least ten documents above them. */
  predicate EvenTies(pairs: seq<Ndcg.Judged>) {
    forall i, j :: 0 <= i < |pairs| && 0 <= j < |pairs| && pairs[i].score == pairs[j].score
                   && pairs[i].relevance != pairs[j].relevance ==>
                     Above(pairs, Ndcg.ScoreOf, pairs[i].score) >= 10
  }

  lemma SameScores(pairs: seq<Ndcg.Judged>, results: seq<int>)
    requires Admissible(pairs, results)
    ensures |SortDesc(pairs, Ndcg.ScoreOf)| == |pairs|
    ensures forall m :: 0 <= m < |pairs| ==> Ranked(pairs, results)[m].score == SortDesc(pairs, Ndcg.ScoreOf)[m].score
  {
    var ranked, sorted := Ranked(pairs, results), SortDesc(pairs, Ndcg.ScoreOf);
    RankedPermutes(pairs, results);
    SortDescSorts(pairs, Ndcg.ScoreOf);
    MapPermutes(Ndcg.ScoreOf, ranked, sorted);
    var a, b := Map(Ndcg.ScoreOf, ranked), Map(Ndcg.ScoreOf, sorted);
    forall i, j | 0 <= i < j < |a| ensures Same(a[i]) >= Same(a[j]) {
      assert Ndcg.ScoreOf(ranked[i]) >= Ndcg.ScoreOf(ranked[j]);
    }
    forall i, j | 0 <= i < j < |b| ensures Same(b[i]) >= Same(b[j]) {
      assert Ndcg.ScoreOf(sorted[i]) >= Ndcg.ScoreOf(sorted[j]);
    }
    SortIsUnique(a, b, Same);
    forall m | 0 <= m < |pairs| ensures ranked[m].score == sorted[m].score {
      assert a[m] == b[m];
    }
  }

  lemma SameRelevance(pairs: seq<Ndcg.Judged>, results: seq<int>, m: nat)
    requires Admissible(pairs, results) && EvenTies(pairs) && m < |pairs| && m < 10
    ensures |SortDesc(pairs, Ndcg.ScoreOf)| == |pairs|
    ensures Ranked(pairs, results)[m].relevance == SortDesc(pairs, Ndcg.ScoreOf)[m].relevance
  {
    var ranked, sorted := Ranked(pairs, results), SortDesc(pairs, Ndcg.ScoreOf);
    SameScores(pairs, results);
    RankedPermutes(pairs, results);
    SortDescSorts(pairs, Ndcg.ScoreOf);
    InBoth(sorted[m], sorted, pairs);
    InBoth(ranked[m], ranked, pairs);
    var score := ranked[m].score;
    AboveIsFirst(ranked, Ndcg.ScoreOf, score);
    assert Ndcg.ScoreOf(ranked[m]) == score;
    FilterCount(Beyond(Ndcg.ScoreOf, score), ranked, pairs);
    var i, j :| 0 <= i < |pairs| && 0 <= j < |pairs| && pairs[i] == ranked[m] && pairs[j] == sorted[m];
  }

  /** On even ties every admissible ranking gets the Python value. */
  lemma AgreesWithPython(pairs: seq<Ndcg.Judged>, results: seq<int>, d: nat -> real)
    requires Binary(pairs) && Admissible(pairs, results) && EvenTies(pairs)
    ensures Limit(results) <= |IdealGains(Relevances(pairs))|
    ensures NdcgAt10(Relevances(pairs), results, d) == Ndcg.Ndcg(pairs, 10, d)
  {
    ValueOfRanking(pairs, results, d);
    Ndcg.SameLengths(pairs);
    var n := Cut(|pairs|, 10);
    var x, y := Map(Ndcg.Gain, Map(Ndcg.RelevanceOf, Ranked(pairs, results))), Map(Ndcg.Gain, Ndcg.ByScore(pairs));
    forall m | 0 <= m < n ensures x[m] == y[m] {
      SameRelevance(pairs, results, m);
    }
    assert x[..n] == y[..n];
    SamePrefixSameSums(x, y, d, n);
  }

  /* ---- Uneven ties are seen ---- */

  function ByIndex(pairs: seq<Ndcg.Judged>): int -> real { i => Pick(pairs)(i).score }

  /** Some admissible ranking exists. */
  lemma SomeRanking(pairs: seq<Ndcg.Judged>) returns (results: seq<int>)
    ensures Admissible(pairs, results)
  {
    results := SortDesc(Range(|pairs|), ByIndex(pairs));
    SortDescSorts(Range(|pairs|), ByIndex(pairs));
    OnceEach(results, Range(|pairs|));
    var ranked := Ranked(pairs, results);
    forall i, j | 0 <= i < j < |ranked| ensures Ndcg.ScoreOf(ranked[i]) >= Ndcg.ScoreOf(ranked[j]) {
      assert ByIndex(pairs)(results[i]) >= ByIndex(pairs)(results[j]);
    }
  }

  lemma OnceEach(s: seq<int>, range: seq<int>)
    requires range == Range(|range|) && multiset(s) == multiset(range)
    ensures |s| == |range| && IsPermutation(s)
  {
    SameLength(s, range);
    forall i | 0 <= i < |s| ensures 0 <= s[i] < |s| {
      InBoth(s[i], s, range);
    }
    OncePerIndex(range);
    forall i, j | 0 <= i < j < |s| ensures s[i] != s[j] {
      InBoth(s[i], s, range);
      if s[i] == s[j] {
        TwiceIn(s, i, j);
      }
    }
  }

  lemma TwiceIn(s: seq<int>, i: nat, j: nat)
    requires i < j < |s| && s[i] == s[j]
    ensures multiset(s)[s[i]] >= 2
  {
    assert s == s[..j] + [s[j]] + s[j + 1..] && s[..j][i] == s[i];
  }

  /** Exchanging two documents of equal score leaves the ranking admissible. */
  lemma ExchangeTied(pairs: seq<Ndcg.Judged>, results: seq<int>, p: nat, q: nat)
    requires Admissible(pairs, results) && p < q < |results|
    requires pairs[results[p]].score == pairs[results[q]].score
    ensures Admissible(pairs, results[p := results[q]][q := results[p]])
  {
    var r := results[p := results[q]][q := results[p]];
    var ranked, exchanged := Ranked(pairs, results), Ranked(pairs, r);
    forall i | 0 <= i < |r| ensures exchanged[i].score == ranked[i].score {
    }
    forall i, j | 0 <= i < j < |r| ensures Ndcg.ScoreOf(exchanged[i]) >= Ndcg.ScoreOf(exchanged[j]) {
      assert Ndcg.ScoreOf(ranked[i]) >= Ndcg.ScoreOf(ranked[j]);
    }
  }

  // Two places of equal score and different relevance, the first one within reach.
  lemma UnevenPlaces(pairs: seq<Ndcg.Judged>, results: seq<int>) returns (p: nat, q: nat)
    requires Admissible(pairs, results) && !EvenTies(pairs)
    ensures p < q < |results| && p < 10
    ensures pairs[results[p]].score == pairs[results[q]].score
    ensures pairs[results[p]].relevance != pairs[results[q]].relevance
  {
    var i, j :| 0 <= i < |pairs| && 0 <= j < |pairs| && pairs[i].score == pairs[j].score
                && pairs[i].relevance != pairs[j].relevance && Above(pairs, Ndcg.ScoreOf, pairs[i].score) < 10;
    p := Above(pairs, Ndcg.ScoreOf, pairs[i].score);
    var a := TiedPlace(pairs, results, i);
    var b := TiedPlace(pairs, results, j);
    q := if pairs[results[p]].relevance != pairs[results[a]].relevance then a else b;
  }

  // A document's place comes at or after the first place of its score.
  lemma TiedPlace(pairs: seq<Ndcg.Judged>, results: seq<int>, i: nat) returns (a: nat)
    requires Admissible(pairs, results) && i < |pairs|
    ensures var p := Above(pairs, Ndcg.ScoreOf, pairs[i].score);
            p <= a < |results| && pairs[results[a]] == pairs[i] && pairs[results[p]].score == pairs[i].score
  {
    var ranked, score := Ranked(pairs, results), pairs[i].score;
    RankedPermutes(pairs, results);
    InBoth(pairs[i], pairs, ranked);
    a :| 0 <= a < |ranked| && ranked[a] == pairs[i];
    FilterCount(Beyond(Ndcg.ScoreOf, score), ranked, pairs);
    FirstOfScore(ranked, a);
  }

  lemma FirstOfScore(ranked: seq<Ndcg.Judged>, a: nat)
    requires Descending(ranked, Ndcg.ScoreOf) && a < |ranked|
    ensures var p := Above(ranked, Ndcg.ScoreOf, ranked[a].score); p <= a && ranked[p].score == ranked[a].score
  {
    var score := ranked[a].score;
    AboveIsFirst(ranked, Ndcg.ScoreOf, score);
    var p := Above(ranked, Ndcg.ScoreOf, score);
    assert Ndcg.ScoreOf(ranked[a]) == score;
    assert p < a ==> Ndcg.ScoreOf(ranked[p]) >= Ndcg.ScoreOf(ranked[a]);
    assert !(Ndcg.ScoreOf(ranked[p]) > score);
  }

  lemma IdealPositive(pairs: seq<Ndcg.Judged>, i: nat, d: nat -> real)
    requires IsDiscount(d) && i < |pairs| && pairs[i].relevance > 0
    ensures Ndcg.Dcg(Ndcg.Ideal(pairs), 10, d) > 0.0
  {
    var rels, ideal := Map(Ndcg.RelevanceOf, pairs), Ndcg.Ideal(pairs);
    SortDescSorts(rels, Ndcg.AsReal);
    InBoth(rels[i], rels, ideal);
    var k :| 0 <= k < |ideal| && ideal[k] == rels[i];
    assert k > 0 ==> Ndcg.AsReal(ideal[0]) >= Ndcg.AsReal(ideal[k]);
    Ndcg.DcgNonNegative(ideal, 10, d);
  }

  // Exchanging a relevant and an irrelevant place within reach changes the DCG.
  lemma ExchangeChanges(rels: seq<nat>, p: nat, q: nat, d: nat -> real)
    requires IsDiscount(d) && p < q < |rels| && p < 10 && rels[p] != rels[q]
    ensures Ndcg.Dcg(rels, 10, d) != Ndcg.Dcg(rels[p := rels[q]][q := rels[p]], 10, d)
  {
    var exchanged := rels[p := rels[q]][q := rels[p]];
    if rels[p] < rels[q] {
      Ndcg.PromotionRaisesDcg(rels, p, q, 10, d);
    } else {
      Ndcg.PromotionRaisesDcg(exchanged, p, q, 10, d);
      assert exchanged[p := exchanged[q]][q := exchanged[p]] == rels;
    }
  }

  /** On uneven ties two admissible rankings of the same documents get different values. */
  lemma UnevenTiesDisagree(pairs: seq<Ndcg.Judged>, d: nat -> real) returns (r: seq<int>, r': seq<int>)
    requires IsDiscount(d) && Binary(pairs) && !EvenTies(pairs)
    ensures Admissible(pairs, r) && Admissible(pairs, r')
    ensures Limit(r) == Limit(r') <= |IdealGains(Relevances(pairs))|
    ensures NdcgAt10(Relevances(pairs), r, d) != NdcgAt10(Relevances(pairs), r', d)
  {
    r := SomeRanking(pairs);
    var p, q := UnevenPlaces(pairs, r);
    r' := r[p := r[q]][q := r[p]];
    ExchangeTied(pairs, r, p, q);
    ValueOfRanking(pairs, r, d);
    ValueOfRanking(pairs, r', d);
    var rels, rels' := Map(Ndcg.RelevanceOf, Ranked(pairs, r)), Map(Ndcg.RelevanceOf, Ranked(pairs, r'));
    assert rels' == rels[p := rels[q]][q := rels[p]];
    ExchangeChanges(rels, p, q, d);
    IdealPositive(pairs, if rels[p] > 0 then r[p] else r[q], d);
    var x, y, z := Ndcg.Dcg(rels, 10, d), Ndcg.Dcg(rels', 10, d), Ndcg.Dcg(Ndcg.Ideal(pairs), 10, d);
    DivideOrder(x, y, z);
    DivideOrder(y, x, z);
  }

  /** Every admissible ranking gets the Python value exactly when ties are even. */
  lemma AgreesWithPythonIff(pairs: seq<Ndcg.Judged>, d: nat -> real)
    requires IsDiscount(d) && Binary(pairs)
    ensures forall results :: Admissible(pairs, results) ==> Limit(results) <= |IdealGains(Relevances(pairs))|
    ensures (forall results :: Admissible(pairs, results) ==>
                                 NdcgAt10(Relevances(pairs), results, d) == Ndcg.Ndcg(pairs, 10, d))
            <==> EvenTies(pairs)
  {
    forall results | Admissible(pairs, results) ensures Limit(results) <= |IdealGains(Relevances(pairs))| {
      IdealGainsLength(Relevances(pairs));
    }
    if EvenTies(pairs) {
      forall results | Admissible(pairs, results)
        ensures NdcgAt10(Relevances(pairs), results, d) == Ndcg.Ndcg(pairs, 10, d)
      {
        AgreesWithPython(pairs, results, d);
      }
    } else {
      var r, r' := UnevenTiesDisagree(pairs, d);
    }
  }

  function Same(x: real): real { x }

  lemma SameIdeal(pairs: seq<Ndcg.Judged>, relevance: seq<int>)
    requires |relevance| == |pairs|
    requires forall i :: 0 <= i < |pairs| ==> relevance[i] == pairs[i].relevance as int && relevance[i] <= 1
    ensures Map(Ndcg.Gain, Ndcg.Ideal(pairs)) == IdealGains(relevance)
  {
    var rels := Map(Ndcg.RelevanceOf, pairs);
    Ndcg.SameLengths(pairs);
    IdealGainsDescend(relevance);
    PythonIdealDescends(pairs);
    var a, b := Map(Ndcg.Gain, Ndcg.Ideal(pairs)), IdealGains(relevance);
    assert Ndcg.Pow2(1) == 2 && Ndcg.Pow2(0) == 1;
    forall i | 0 <= i < |pairs| ensures Map(Ndcg.Gain, rels)[i] == Map(Positive, relevance)[i] {
      assert rels[i] == 0 || rels[i] == 1;
    }
    assert Map(Ndcg.Gain, rels) == Map(Positive, relevance);
    SortIsUnique(a, b, Same);
  }

  lemma PythonIdealDescends(pairs: seq<Ndcg.Judged>)
    ensures Descending(Map(Ndcg.Gain, Ndcg.Ideal(pairs)), Same)
    ensures multiset(Map(Ndcg.Gain, Ndcg.Ideal(pairs))) == multiset(Map(Ndcg.Gain, Map(Ndcg.RelevanceOf, pairs)))
  {
    var rels := Map(Ndcg.RelevanceOf, pairs);
    SortDescSorts(rels, Ndcg.AsReal);
    MapPermutes(Ndcg.Gain, Ndcg.Ideal(pairs), rels);
    var ideal := Ndcg.Ideal(pairs);
    forall i, j | 0 <= i < j < |ideal| ensures Ndcg.Gain(ideal[i]) >= Ndcg.Gain(ideal[j]) {
      assert Ndcg.AsReal(ideal[i]) >= Ndcg.AsReal(ideal[j]);
      Ndcg.GainInjective(ideal[i], ideal[j]);
    }
  }
}
