/** The composite score and the final ranking of benchmarks/benchmark_suite.cpp.

    Floats are read as reals, and the score as a real or not a number: a suite in which no
    model has any quality, or none any throughput, divides zero by zero for every model.
 */
module CompositeScore {
  import opened Reals
  import opened Sorting

  datatype Float = Number(value: real) | NaN

  datatype Result = Result(name: string, tps4: real, quality: real, fileMb: real, score: Float)

  /** Measured values: a throughput and a hit rate, and the size of a file. */
  predicate Measured(r: Result) { r.tps4 >= 0.0 && r.quality >= 0.0 && r.fileMb > 0.0 }

  ghost predicate AllMeasured(s: seq<Result>) { forall i :: 0 <= i < |s| ==> Measured(s[i]) }

  datatype Best = Best(tps4: real, quality: real, cost: real)

  const INITIAL_COST := 999.0

  function Improve(b: Best, r: Result): Best {
    Best(if r.tps4 > b.tps4 then r.tps4 else b.tps4,
         if r.quality > b.quality then r.quality else b.quality,
         if r.fileMb < b.cost then r.fileMb else b.cost)
  }

  function BestOf(s: seq<Result>): Best {
    if s == [] then Best(0.0, 0.0, INITIAL_COST) else Improve(BestOf(s[..|s| - 1]), s[|s| - 1])
  }

  /** What the running best values are: a maximum over zero, and a minimum under 999. */
  lemma {:induction false} BestIs(s: seq<Result>)
    requires AllMeasured(s)
    ensures var b := BestOf(s);
            && b.tps4 >= 0.0 && b.quality >= 0.0 && 0.0 < b.cost <= INITIAL_COST
            && (forall i :: 0 <= i < |s| ==> s[i].tps4 <= b.tps4 && s[i].quality <= b.quality && b.cost <= s[i].fileMb)
            && (b.tps4 > 0.0 ==> exists i :: 0 <= i < |s| && s[i].tps4 == b.tps4)
            && (b.quality > 0.0 ==> exists i :: 0 <= i < |s| && s[i].quality == b.quality)
            && (b.cost < INITIAL_COST ==> exists i :: 0 <= i < |s| && s[i].fileMb == b.cost)
  {
    if s != [] {
      var before, n := s[..|s| - 1], |s| - 1;
      BestIs(before);
      assert Measured(s[n]);
      assert forall i :: 0 <= i < n ==> before[i] == s[i];
    }
  }

  function Weigh(quality: real, throughput: real, cost: real): real {
    0.5 * quality + 0.3 * throughput + 0.2 * cost
  }

  function Score(b: Best, r: Result): real
    requires b.quality > 0.0 && b.tps4 > 0.0 && Measured(r)
  {
    Weigh(r.quality / b.quality, r.tps4 / b.tps4, b.cost / r.fileMb)
  }

  predicate Scorable(b: Best) { b.quality > 0.0 && b.tps4 > 0.0 }

  /** A score with its 0 / 0 summands is not a number; the others do not matter then. */
  function Scored(b: Best): Result -> Result {
    (r: Result) => r.(score := if Scorable(b) && Measured(r) then Number(Score(b, r)) else NaN)
  }

  /** The comparison of std::sort: nothing is greater than NaN, and NaN than nothing. */
  predicate Above(x: Result, y: Result) {
    x.score.Number? && y.score.Number? && x.score.value > y.score.value
  }

  /** No two entries are in the wrong order. */
  ghost predicate InOrder(s: seq<Result>) {
    forall i, j :: 0 <= i < j < |s| ==> !Above(s[j], s[i])
  }

  ghost predicate AllScored(s: seq<Result>) { forall i :: 0 <= i < |s| ==> s[i].score.Number? }

  ghost predicate NoneScored(s: seq<Result>) { forall i :: 0 <= i < |s| ==> s[i].score.NaN? }

  function ValueOf(r: Result): real { if r.score.Number? then r.score.value else 0.0 }

  /** std::sort by descending score: some ordered permutation, ties in any order. Without
      any number among the scores all entries tie. */
  method StdSort(a: array<Result>)
    requires AllScored(a[..]) || NoneScored(a[..])
    modifies a
    ensures multiset(a[..]) == multiset(old(a[..])) && InOrder(a[..])
  {
    ghost var before := a[..];
    var sorted := SortDesc(a[..], ValueOf);
    SortDescSorts(before, ValueOf);
    forall i | 0 <= i < a.Length {
      a[i] := sorted[i];
    }
    assert a[..] == sorted;
  }

  /** The best values, the scores in place, and the sort. */
  method RankResults(results: array<Result>)
    requires AllMeasured(results[..])
    modifies results
    ensures IsRanking(old(results[..]), results[..])
  {
    ghost var before := results[..];
    var best := Best(0.0, 0.0, INITIAL_COST);
    for i := 0 to results.Length
      invariant results[..] == before && best == BestOf(before[..i])
    {
      assert before[..i + 1][..i] == before[..i];
      best := Improve(best, results[i]);
    }
    assert before[..|before|] == before;
    for i := 0 to results.Length
      invariant forall j :: 0 <= j < i ==> results[j] == Scored(best)(before[j])
      invariant forall j :: i <= j < results.Length ==> results[j] == before[j]
    {
      results[i] := Scored(best)(results[i]);
    }
    assert results[..] == Map(Scored(best), before);
    ScoredOrNot(before);
    StdSort(results);
  }

  /** `ranked` lists the scored results by descending score. */
  ghost predicate IsRanking(results: seq<Result>, ranked: seq<Result>) {
    multiset(ranked) == multiset(Map(Scored(BestOf(results)), results)) && InOrder(ranked)
  }

  /** Either all scores are numbers or none is: they are exactly when some model has quality
      and some model has throughput. */
  lemma ScoredOrNot(results: seq<Result>)
    requires AllMeasured(results)
    ensures var scored := Map(Scored(BestOf(results)), results);
            if (exists i :: 0 <= i < |results| && results[i].quality > 0.0)
               && exists i :: 0 <= i < |results| && results[i].tps4 > 0.0
            then Scorable(BestOf(results)) && AllScored(scored)
            else !Scorable(BestOf(results)) && NoneScored(scored)
  {
    BestIs(results);
    forall i | 0 <= i < |results| ensures Measured(results[i]) {
    }
  }

  /** Without scores every order of the models is a ranking. */
  lemma UnscoredRankings(results: seq<Result>, ranked: seq<Result>)
    requires AllMeasured(results) && !Scorable(BestOf(results))
    ensures IsRanking(results, ranked) <==> multiset(ranked) == multiset(Map(Scored(BestOf(results)), results))
  {
    var scored := Map(Scored(BestOf(results)), results);
    ScoredOrNot(results);
    if multiset(ranked) == multiset(scored) {
      forall i | 0 <= i < |ranked| ensures ranked[i].score.NaN? {
        InBoth(ranked[i], ranked, scored);
      }
    }
  }

  // Every entry of a ranking is one of the results with its score filled in.
  lemma RankedFrom(results: seq<Result>, ranked: seq<Result>, i: nat) returns (k: nat)
    requires IsRanking(results, ranked) && i < |ranked|
    ensures k < |results| && ranked[i] == Scored(BestOf(results))(results[k])
  {
    var scored := Map(Scored(BestOf(results)), results);
    InBoth(ranked[i], ranked, scored);
    k :| 0 <= k < |scored| && scored[k] == ranked[i];
  }

  /* ---- What the score means ---- */

  lemma ShareOfBest(x: real, best: real)
    requires 0.0 <= x <= best && best > 0.0
    ensures 0.0 <= x / best <= 1.0
    ensures x / best == 1.0 <==> x == best
  {
    Quotient(x, best);
    Quotient(best, best);
    DivideOrder(x, 0.0, best);
    DivideOrder(best, x, best);
  }

  /** Half of the score is the quality, three tenths are the throughput, each as a share of the
      best in the suite, and a fifth is the smallest file size, or 999 if that is smaller, as
      a share of the own. */
  lemma ScoreIs(results: seq<Result>, r: Result, quality: real, tps4: real, cost: real)
    requires AllMeasured(results) && r in results && Measured(r)
    requires quality > 0.0 && (exists x :: x in results && x.quality == quality) && forall x :: x in results ==> x.quality <= quality
    requires tps4 > 0.0 && (exists x :: x in results && x.tps4 == tps4) && forall x :: x in results ==> x.tps4 <= tps4
    requires cost == 999.0 || exists x :: x in results && x.fileMb == cost
    requires cost <= 999.0 && forall x :: x in results ==> cost <= x.fileMb
    ensures Scored(BestOf(results))(r).score
            == Number(0.5 * (r.quality / quality) + 0.3 * (r.tps4 / tps4) + 0.2 * (cost / r.fileMb))
  {
    var b := BestOf(results);
    BestIs(results);
    forall x | x in results ensures x.quality <= b.quality && x.tps4 <= b.tps4 && b.cost <= x.fileMb {
      var i :| 0 <= i < |results| && results[i] == x;
    }
    assert b == Best(tps4, quality, cost);
  }

  /** Scores lie in (0, 1], and 1 takes the best quality, the best throughput and the
      smallest file at once. */
  lemma ScoreBounds(results: seq<Result>, k: nat)
    requires AllMeasured(results) && Scorable(BestOf(results)) && k < |results|
    ensures var b, r := BestOf(results), results[k];
            && 0.0 < Score(b, r) <= 1.0
            && (Score(b, r) == 1.0 <==> r.quality == b.quality && r.tps4 == b.tps4 && r.fileMb == b.cost)
  {
    var b, r := BestOf(results), results[k];
    BestIs(results);
    assert Measured(r);
    ShareOfBest(r.quality, b.quality);
    ShareOfBest(r.tps4, b.tps4);
    ShareOfBest(b.cost, r.fileMb);
    DivideOrder(b.cost, 0.0, r.fileMb);
    Quotient(b.cost, r.fileMb);
  }

  /** The cost is normalised to the best in the suite, as the code intends, exactly when
      some file takes at most 999 MB, the value the search starts from. */
  lemma CostNormalisedIff(results: seq<Result>)
    requires AllMeasured(results) && results != []
    ensures (exists i :: 0 <= i < |results| && results[i].fileMb > 0.0 && BestOf(results).cost / results[i].fileMb == 1.0)
            <==> exists i :: 0 <= i < |results| && results[i].fileMb <= INITIAL_COST
  {
    var b := BestOf(results);
    BestIs(results);
    forall i | 0 <= i < |results|
      ensures Measured(results[i]) && (b.cost / results[i].fileMb == 1.0 <==> b.cost == results[i].fileMb)
    {
      assert Measured(results[i]);
      ShareOfBest(b.cost, results[i].fileMb);
    }
    if i :| 0 <= i < |results| && results[i].fileMb <= INITIAL_COST {
      if b.cost == INITIAL_COST {
        assert b.cost == results[i].fileMb;
      } else {
        var j :| 0 <= j < |results| && results[j].fileMb == b.cost;
        assert b.cost / results[j].fileMb == 1.0;
      }
    }
  }

  /** At least as good in all three respects, and better in one. */
  predicate Dominates(x: Result, y: Result) {
    && x.quality >= y.quality && x.tps4 >= y.tps4 && x.fileMb <= y.fileMb
    && (x.quality > y.quality || x.tps4 > y.tps4 || x.fileMb < y.fileMb)
  }

  lemma CheaperScoresHigher(cost: real, small: real, large: real)
    requires cost > 0.0 && 0.0 < small <= large
    ensures cost / small >= cost / large
    ensures small < large ==> cost / small > cost / large
  {
    Quotient(cost, small);
    Quotient(cost, large);
    DivideOrder(cost, 0.0, large);
    FactorOrder(cost / small, small, cost / large, large);
  }

  lemma FactorOrder(p: real, x: real, q: real, y: real)
    requires 0.0 < x <= y && q > 0.0 && p * x == q * y
    ensures p >= q && (x < y ==> p > q)
  {
    ProductOrder(x, y, q);
    assert p * x - q * x == (p - q) * x;
    if p < q {
      ProductOrder(p, q, x);
    }
  }

  lemma DominatorScoresHigher(b: Best, x: Result, y: Result)
    requires Scorable(b) && b.cost > 0.0 && Measured(x) && Measured(y) && Dominates(x, y)
    ensures Score(b, x) > Score(b, y)
  {
    DivideOrder(x.quality, y.quality, b.quality);
    DivideOrder(x.tps4, y.tps4, b.tps4);
    CheaperScoresHigher(b.cost, x.fileMb, y.fileMb);
  }

  /** In every ranking a model that dominates another one comes before it. */
  lemma DominatorRanksFirst(results: seq<Result>, ranked: seq<Result>, i: nat, j: nat)
    requires AllMeasured(results) && Scorable(BestOf(results)) && IsRanking(results, ranked)
    requires i < |ranked| && j < |ranked| && Dominates(ranked[i], ranked[j])
    ensures i < j
  {
    var b := BestOf(results);
    BestIs(results);
    var k := RankedFrom(results, ranked, i);
    var l := RankedFrom(results, ranked, j);
    assert Measured(results[k]) && Measured(results[l]);
    assert j < i ==> !Above(ranked[i], ranked[j]);
    DominatorScoresHigher(b, results[k], results[l]);
  }

  function Raw(name: string, tps4: real, quality: real): Result { Result(name, tps4, quality, 20.0, NaN) }

  /** The score is relative to the suite: a third model can swap two others. */
  lemma ThirdModelSwapsTwo()
    ensures var x, y, z := Raw("x", 1.0, 1.0), Raw("y", 2.0, 0.8), Raw("z", 20.0, 0.1);
            && Scorable(BestOf([x, y])) && Score(BestOf([x, y]), x) < Score(BestOf([x, y]), y)
            && Scorable(BestOf([x, y, z])) && Score(BestOf([x, y, z]), x) > Score(BestOf([x, y, z]), y)
  {
    var x, y, z := Raw("x", 1.0, 1.0), Raw("y", 2.0, 0.8), Raw("z", 20.0, 0.1);
    assert [x, y, z][..2] == [x, y] && [x, y][..1] == [x] && [x][..0] == [];
    assert BestOf([x]) == Best(1.0, 1.0, 20.0);
    assert BestOf([x, y]) == Best(2.0, 1.0, 20.0);
    assert BestOf([x, y, z]) == Best(20.0, 1.0, 20.0);
  }

  /* ---- Which orders do not depend on the rest of the suite ---- */

  /** Better in some respect. */
  predicate Better(x: Result, y: Result) { x.quality > y.quality || x.tps4 > y.tps4 || x.fileMb < y.fileMb }

  predicate Suite(s: seq<Result>, x: Result, y: Result) {
    x in s && y in s && (forall r :: r in s ==> Measured(r)) && Scorable(BestOf(s))
  }

  predicate Wins(s: seq<Result>, x: Result, y: Result)
    requires Suite(s, x, y)
  {
    Score(BestOf(s), x) > Score(BestOf(s), y)
  }

  lemma SuiteMeasured(s: seq<Result>, x: Result, y: Result)
    requires Suite(s, x, y)
    ensures AllMeasured(s) && BestOf(s).cost > 0.0
  {
    forall i | 0 <= i < |s| ensures Measured(s[i]) {
      assert s[i] in s;
    }
    BestIs(s);
  }

  /** A model that is better in no respect never wins. */
  lemma WinnerIsBetter(s: seq<Result>, x: Result, y: Result)
    requires Suite(s, x, y) && Wins(s, x, y)
    ensures Better(x, y)
  {
    var b := BestOf(s);
    SuiteMeasured(s, x, y);
    if !Better(x, y) {
      DivideOrder(y.quality, x.quality, b.quality);
      DivideOrder(y.tps4, x.tps4, b.tps4);
      CheaperScoresHigher(b.cost, y.fileMb, x.fileMb);
    }
  }

  lemma BestOfThree(x: Result, y: Result, z: Result)
    requires Measured(x) && Measured(y)
    requires z.tps4 > 0.0 && z.tps4 >= x.tps4 && z.tps4 >= y.tps4
    requires z.quality > 0.0 && z.quality >= x.quality && z.quality >= y.quality
    requires 0.0 < z.fileMb <= x.fileMb && z.fileMb <= y.fileMb && z.fileMb <= INITIAL_COST
    ensures Suite([x, y, z], x, y) && BestOf([x, y, z]) == Best(z.tps4, z.quality, z.fileMb)
  {
    assert [x, y, z][..2] == [x, y] && [x, y][..1] == [x] && [x][..0] == [];
    assert BestOf([x]) == Improve(Best(0.0, 0.0, INITIAL_COST), x);
    assert BestOf([x, y]) == Improve(BestOf([x]), y);
    assert BestOf([x, y, z]) == Improve(BestOf([x, y]), z);
  }

  function Least(a: real, b: real): real { if a <= b then a else b }

  function Most(a: real, b: real): real { if a >= b then a else b }

  /** Values that neither model exceeds, nor falls below in size. */
  function Common(x: Result, y: Result): Best {
    Best(1.0 + Most(x.tps4, y.tps4), 1.0 + Most(x.quality, y.quality), Least(INITIAL_COST, Least(x.fileMb, y.fileMb)))
  }

  /** The three scales of c are those of b stretched by the factors. */
  ghost predicate Stretched(b: Best, c: Best, quality: real, tps4: real, cost: real) {
    && c.quality >= b.quality && Product(c.quality, quality) == b.quality
    && c.tps4 >= b.tps4 && Product(c.tps4, tps4) == b.tps4
    && 0.0 < c.cost <= b.cost && c.cost == Product(b.cost, cost)
  }

  lemma Stretch(m: real, e: real) returns (n: real)
    requires m > 0.0 && 0.0 < e <= 1.0
    ensures n >= m && Product(n, e) == m
  {
    n := m / e;
    ProductOrder(e, 1.0, m);
    QuotientIsUnique(m, m * e, e);
    DivideOrder(m, m * e, e);
    Quotient(m, e);
  }

  lemma Shrink(m: real, e: real) returns (n: real)
    requires m > 0.0 && 0.0 < e <= 1.0
    ensures n == Product(m, e) && 0.0 < n <= m
  {
    n := Product(m, e);
    ProductPositive(m, e);
    ProductMinus(m, e, 1.0);
    ProductPositive(m, 1.0 - e);
    WholeShare(m);
  }

  lemma StretchBest(b: Best, quality: real, tps4: real, cost: real) returns (c: Best)
    requires Scorable(b) && b.cost > 0.0
    requires 0.0 < quality <= 1.0 && 0.0 < tps4 <= 1.0 && 0.0 < cost <= 1.0
    ensures Stretched(b, c, quality, tps4, cost)
  {
    var q := Stretch(b.quality, quality);
    var t := Stretch(b.tps4, tps4);
    var k := Shrink(b.cost, cost);
    c := Best(t, q, k);
  }

  lemma StretchedShare(a: real, m: real, n: real, e: real)
    requires m > 0.0 && n > 0.0 && Product(n, e) == m
    ensures a / n == Product(e, a / m)
  {
    Quotient(a, m);
    var q := a / m;
    assert (e * q) * n == q * (n * e) == q * m == a;
    QuotientIsUnique(e * q, a, n);
  }

  lemma StretchedCost(m: real, e: real, f: real)
    requires f > 0.0
    ensures Product(m, e) / f == Product(e, m / f)
  {
    Quotient(m, f);
    var q := m / f;
    assert (e * q) * f == e * (q * f) == m * e;
    QuotientIsUnique(e * q, m * e, f);
  }

  /** The score of a model against the stretched scales. */
  lemma ScoreStretched(b: Best, c: Best, r: Result, quality: real, tps4: real, cost: real)
    requires Scorable(b) && Measured(r) && Stretched(b, c, quality, tps4, cost)
    ensures Score(c, r) == Weigh(Product(quality, r.quality / b.quality), Product(tps4, r.tps4 / b.tps4),
                                 Product(cost, b.cost / r.fileMb))
  {
    StretchedShare(r.quality, b.quality, c.quality, quality);
    StretchedShare(r.tps4, b.tps4, c.tps4, tps4);
    StretchedCost(b.cost, cost, r.fileMb);
  }

  /** A third model with the values of c makes them the best ones. */
  lemma ThirdFits(x: Result, y: Result, c: Best)
    requires Measured(x) && Measured(y)
    requires var b := Common(x, y); c.tps4 >= b.tps4 && c.quality >= b.quality && 0.0 < c.cost <= b.cost
    ensures var s := [x, y, Third(c)]; Suite(s, x, y) && BestOf(s) == c
  {
    CommonCovers(x, y, Third(c));
    BestOfThree(x, y, Third(c));
  }

  function Third(c: Best): Result { Result("", c.tps4, c.quality, c.cost, NaN) }

  lemma CommonCovers(x: Result, y: Result, z: Result)
    requires Measured(x) && Measured(y)
    requires var b := Common(x, y); z.tps4 >= b.tps4 && z.quality >= b.quality && 0.0 < z.fileMb <= b.cost
    ensures z.tps4 > 0.0 && z.tps4 >= x.tps4 && z.tps4 >= y.tps4
    ensures z.quality > 0.0 && z.quality >= x.quality && z.quality >= y.quality
    ensures 0.0 < z.fileMb <= x.fileMb && z.fileMb <= y.fileMb && z.fileMb <= INITIAL_COST
  {
  }

  // A small enough share of anything leaves a positive amount positive.
  lemma SmallShare(a: real, r: real) returns (e: real)
    requires a > 0.0
    ensures 0.0 < e <= 1.0 && a + Product(e, r) > 0.0
  {
    var n := Abs(r);
    e := a / (a + n);
    ShareOfBest(a, a + n);
    DivideOrder(a, 0.0, a + n);
    Quotient(0.0, a + n);
    WholeOf(e, a, a + n);
    ProductPositive(e, a);
    ProductPositive(e, n + r);
    ProductMinus(e, n, a + n);
    ProductMinus(e, n, n + r);
    Tally(a, Product(e, a), Product(e, n), Product(e, r));
  }

  lemma WholeOf(e: real, a: real, b: real)
    requires b > 0.0 && e == a / b
    ensures Product(e, b) == a
  {
    Quotient(a, b);
  }

  lemma Tally(a: real, p: real, n: real, r: real)
    requires a == p + n && p > 0.0 && n + r >= 0.0
    ensures a + r > 0.0
  {
  }

  lemma WholeShare(a: real)
    ensures Product(1.0, a) == Product(a, 1.0) == a
  {
  }

  lemma SmallShares(a: real, r: real, r': real) returns (e: real)
    requires a > 0.0
    ensures 0.0 < e <= 1.0 && Product(1.0, a) + Product(e, r) + Product(e, r') > 0.0
  {
    e := SmallShare(a, r + r');
    assert Product(e, r + r') == Product(e, r) + Product(e, r');
    WholeShare(a);
  }

  /** Scaled down far enough, the other two respects do not matter. */
  lemma BetterCanWin(x: Result, y: Result) returns (s: seq<Result>)
    requires Measured(x) && Measured(y) && Better(x, y)
    ensures Suite(s, x, y) && Wins(s, x, y)
  {
    var b := Common(x, y);
    var q := 0.5 * (x.quality / b.quality - y.quality / b.quality);
    var t := 0.3 * (x.tps4 / b.tps4 - y.tps4 / b.tps4);
    var c := 0.2 * (b.cost / x.fileMb - b.cost / y.fileMb);
    var f, g, h;
    if x.quality > y.quality {
      DivideOrder(x.quality, y.quality, b.quality);
      var e := SmallShares(q, t, c);
      f, g, h := 1.0, e, e;
    } else if x.tps4 > y.tps4 {
      DivideOrder(x.tps4, y.tps4, b.tps4);
      var e := SmallShares(t, q, c);
      f, g, h := e, 1.0, e;
    } else {
      CheaperScoresHigher(b.cost, x.fileMb, y.fileMb);
      var e := SmallShares(c, q, t);
      f, g, h := e, e, 1.0;
    }
    s := ThirdWins(x, y, f, g, h);
  }

  lemma ThirdWins(x: Result, y: Result, f: real, g: real, h: real) returns (s: seq<Result>)
    requires Measured(x) && Measured(y)
    requires 0.0 < f <= 1.0 && 0.0 < g <= 1.0 && 0.0 < h <= 1.0
    requires Gain(Common(x, y), x, y, f, g, h) > 0.0
    ensures Suite(s, x, y) && Wins(s, x, y)
  {
    var b := Common(x, y);
    var c := StretchBest(b, f, g, h);
    StretchedWin(b, c, x, y, f, g, h);
    ThirdFits(x, y, c);
    s := [x, y, Third(c)];
  }

  /** By how much x leads y on the stretched scales. */
  function Gain(b: Best, x: Result, y: Result, f: real, g: real, h: real): real
    requires Scorable(b) && Measured(x) && Measured(y)
  {
    Product(f, 0.5 * (x.quality / b.quality - y.quality / b.quality))
    + Product(g, 0.3 * (x.tps4 / b.tps4 - y.tps4 / b.tps4))
    + Product(h, 0.2 * (b.cost / x.fileMb - b.cost / y.fileMb))
  }

  lemma StretchedWin(b: Best, c: Best, x: Result, y: Result, f: real, g: real, h: real)
    requires Scorable(b) && Measured(x) && Measured(y) && Stretched(b, c, f, g, h) && Gain(b, x, y, f, g, h) > 0.0
    ensures Score(c, x) > Score(c, y)
  {
    ScoreStretched(b, c, x, f, g, h);
    ScoreStretched(b, c, y, f, g, h);
    Scaled(f, 0.5, x.quality / b.quality, y.quality / b.quality);
    Scaled(g, 0.3, x.tps4 / b.tps4, y.tps4 / b.tps4);
    Scaled(h, 0.2, b.cost / x.fileMb, b.cost / y.fileMb);
  }

  lemma Scaled(f: real, w: real, p: real, q: real)
    ensures Product(f, w * (p - q)) == w * Product(f, p) - w * Product(f, q)
  {
  }

  /** There is a suite in which one model scores higher than another exactly when it is
      better in some respect. */
  lemma CanWinIff(x: Result, y: Result)
    requires Measured(x) && Measured(y)
    ensures (exists s: seq<Result> :: Suite(s, x, y) && Wins(s, x, y)) <==> Better(x, y)
  {
    if Better(x, y) {
      var s := BetterCanWin(x, y);
    }
    forall s: seq<Result> | Suite(s, x, y) && Wins(s, x, y) ensures Better(x, y) {
      WinnerIsBetter(s, x, y);
    }
  }

  /** The order of two models by score is the same in every suite that contains them exactly
      when one dominates the other or they agree in all three respects. */
  lemma OrderFixedIff(x: Result, y: Result)
    requires Measured(x) && Measured(y)
    ensures (forall s: seq<Result>, t: seq<Result> :: Suite(s, x, y) && Suite(t, x, y) ==>
               (Wins(s, x, y) <==> Wins(t, x, y)) && (Wins(s, y, x) <==> Wins(t, y, x)))
            <==> Dominates(x, y) || Dominates(y, x) || !(Better(x, y) || Better(y, x))
  {
    CanWinIff(x, y);
    CanWinIff(y, x);
    forall s: seq<Result> | Suite(s, x, y)
      ensures Dominates(x, y) ==> Wins(s, x, y)
      ensures Dominates(y, x) ==> Wins(s, y, x)
    {
      SuiteMeasured(s, x, y);
      if Dominates(x, y) {
        DominatorScoresHigher(BestOf(s), x, y);
      } else if Dominates(y, x) {
        DominatorScoresHigher(BestOf(s), y, x);
      }
    }
  }
}
