/** Pruning of sparse vectors: the threshold / top-k step of
    benchmarks/sparse/bench_sparse_autotune.py.
 */
module Pruning {
  import opened Reals
  import opened Sequences
  import opened Sorting
  import SparseDot

  datatype Term = Term(id: int, weight: real)

  function Magnitude(t: Term): real { Abs(t.weight) }

  function AtLeast(threshold: real): Term -> bool {
    t => Magnitude(t) >= threshold
  }

  function Below(threshold: real): Term -> bool {
    t => Magnitude(t) < threshold
  }

  function Min(a: nat, b: nat): nat { if a < b then a else b }

  function Max(a: real, b: real): real { if a < b then b else a }

  /** The survivors of the threshold, heaviest first; ties keep their order. */
  function Ranked(terms: seq<Term>, threshold: real): seq<Term> {
    SortDesc(Filter(AtLeast(threshold), terms), Magnitude)
  }

  function Prune(terms: seq<Term>, threshold: real, topK: int): seq<Term> {
    var ranked := Ranked(terms, threshold);
    ranked[..Cut(|ranked|, topK)]
  }

  /** Everything that pruning leaves out: the light terms and the tail of the ranking. */
  function Dropped(terms: seq<Term>, threshold: real, topK: int): seq<Term> {
    var ranked := Ranked(terms, threshold);
    Filter(Below(threshold), terms) + ranked[Cut(|ranked|, topK)..]
  }

  /** One pass over the corpus: prune every vector and note its size, 8 bytes a term. */
  method PruneCorpus(vectors: seq<seq<Term>>, threshold: real, topK: int)
    returns (results: seq<seq<Term>>, sizes: seq<nat>)
    ensures |results| == |sizes| == |vectors|
    ensures forall n :: 0 <= n < |vectors| ==> results[n] == Prune(vectors[n], threshold, topK)
    ensures forall n :: 0 <= n < |vectors| ==> sizes[n] == 8 * Cut(|Filter(AtLeast(threshold), vectors[n])|, topK)
  {
    results, sizes := [], [];
    for n := 0 to |vectors|
      invariant |results| == |sizes| == n
      invariant forall i :: 0 <= i < n ==> results[i] == Prune(vectors[i], threshold, topK)
      invariant forall i :: 0 <= i < n ==> sizes[i] == 8 * Cut(|Filter(AtLeast(threshold), vectors[i])|, topK)
    {
      var filtered := PruneOne(vectors[n], threshold, topK);
      results := results + [filtered];
      sizes := sizes + [|filtered| * 8];
    }
  }

  /** The comprehension, the sort and the slice for one vector. */
  method PruneOne(terms: seq<Term>, threshold: real, topK: int) returns (filtered: seq<Term>)
    ensures filtered == Prune(terms, threshold, topK)
    ensures |filtered| == Cut(|Filter(AtLeast(threshold), terms)|, topK)
  {
    filtered := [];
    for i := 0 to |terms|
      invariant filtered == Filter(AtLeast(threshold), terms[..i])
    {
      FilterConcat(AtLeast(threshold), terms[..i], [terms[i]]);
      assert terms[..i + 1] == terms[..i] + [terms[i]];
      if Magnitude(terms[i]) >= threshold {
        filtered := filtered + [terms[i]];
      }
    }
    assert terms[..|terms|] == terms;
    SortDescSorts(filtered, Magnitude);
    filtered := SortDesc(filtered, Magnitude);
    filtered := filtered[..Cut(|filtered|, topK)];
  }

  lemma {:induction false} FilterSplits(terms: seq<Term>, threshold: real)
    ensures multiset(terms) == multiset(Filter(AtLeast(threshold), terms)) + multiset(Filter(Below(threshold), terms))
  {
    if terms != [] {
      assert terms == [terms[0]] + terms[1..];
      FilterSplits(terms[1..], threshold);
    }
  }

  /** Pruning keeps as many heavy terms as the slice [:top_k] does, all of them heavy; no
      heavy term that is left out outweighs one that is kept; and nothing else is lost. */
  lemma PruneKeepsHeaviest(terms: seq<Term>, threshold: real, topK: int)
    ensures var kept, dropped := Prune(terms, threshold, topK), Dropped(terms, threshold, topK);
            && |kept| == Cut(|Filter(AtLeast(threshold), terms)|, topK)
            && (forall i :: 0 <= i < |kept| ==> Magnitude(kept[i]) >= threshold)
            && (forall i, j :: 0 <= i < |kept| && 0 <= j < |dropped| ==> Magnitude(dropped[j]) <= Magnitude(kept[i]))
            && multiset(kept) + multiset(dropped) == multiset(terms)
  {
    SortDescSorts(Filter(AtLeast(threshold), terms), Magnitude);
    RankedHeavy(terms, threshold);
    NothingLost(terms, threshold, topK);
    var kept, dropped := Prune(terms, threshold, topK), Dropped(terms, threshold, topK);
    forall i, j | 0 <= i < |kept| && 0 <= j < |dropped| ensures Magnitude(dropped[j]) <= Magnitude(kept[i]) {
      DroppedIsLighter(terms, threshold, topK, i, j);
    }
  }

  /** The result in plain terms: heavy terms of the input only, the heaviest first; no heavy
      term left out outweighs one that is kept; and as many as the slice [:top_k] of all
      heavy terms has, a negative top_k counting from the end. */
  lemma PruneIs(terms: seq<Term>, threshold: real, topK: int, heavy: nat)
    requires heavy == |set i | 0 <= i < |terms| && Abs(terms[i].weight) >= threshold|
    ensures var kept := Prune(terms, threshold, topK);
            && |kept| == (if topK < 0 then (if heavy + topK < 0 then 0 else heavy + topK) else if topK < heavy then topK else heavy)
            && multiset(kept) <= multiset(terms)
            && (forall i :: 0 <= i < |kept| ==> Abs(kept[i].weight) >= threshold)
            && (forall i, j :: 0 <= i < j < |kept| ==> Abs(kept[i].weight) >= Abs(kept[j].weight))
            && (forall t, i :: t in multiset(terms) - multiset(kept) && Abs(t.weight) >= threshold && 0 <= i < |kept| ==>
                                 Abs(t.weight) <= Abs(kept[i].weight))
  {
    var kept, dropped := Prune(terms, threshold, topK), Dropped(terms, threshold, topK);
    HeavyCount(terms, threshold);
    PruneKeepsHeaviest(terms, threshold, topK);
    KeptDescends(terms, threshold, topK);
    LeftOut(terms, kept, dropped);
    forall t, i | t in multiset(terms) - multiset(kept) && 0 <= i < |kept| ensures Abs(t.weight) <= Abs(kept[i].weight) {
      DroppedTermIsLighter(terms, threshold, topK, t, i);
    }
  }

  lemma LeftOut(terms: seq<Term>, kept: seq<Term>, dropped: seq<Term>)
    requires multiset(kept) + multiset(dropped) == multiset(terms)
    ensures multiset(kept) <= multiset(terms)
    ensures forall t :: t in multiset(terms) - multiset(kept) <==> t in dropped
  {
    assert multiset(terms) - multiset(kept) == multiset(dropped);
  }

  lemma DroppedTermIsLighter(terms: seq<Term>, threshold: real, topK: int, t: Term, i: nat)
    requires t in Dropped(terms, threshold, topK) && i < |Prune(terms, threshold, topK)|
    ensures Abs(t.weight) <= Abs(Prune(terms, threshold, topK)[i].weight)
  {
    var dropped := Dropped(terms, threshold, topK);
    var j :| 0 <= j < |dropped| && dropped[j] == t;
    DroppedIsLighter(terms, threshold, topK, i, j);
  }

  lemma HeavyCount(terms: seq<Term>, threshold: real)
    ensures |Filter(AtLeast(threshold), terms)| == |set i | 0 <= i < |terms| && Abs(terms[i].weight) >= threshold|
  {
    FilterSize(AtLeast(threshold), terms);
    assert Passing(AtLeast(threshold), terms) == set i | 0 <= i < |terms| && Abs(terms[i].weight) >= threshold;
  }

  lemma KeptDescends(terms: seq<Term>, threshold: real, topK: int)
    ensures var kept := Prune(terms, threshold, topK);
            && (forall i, j :: 0 <= i < j < |kept| ==> Abs(kept[i].weight) >= Abs(kept[j].weight))
            && (forall i :: 0 <= i < |kept| ==> Abs(kept[i].weight) >= threshold)
  {
    RankedHeavy(terms, threshold);
    var ranked, kept := Ranked(terms, threshold), Prune(terms, threshold, topK);
    SortDescSorts(Filter(AtLeast(threshold), terms), Magnitude);
    forall i, j | 0 <= i < j < |kept| ensures Abs(kept[i].weight) >= Abs(kept[j].weight) {
      assert Magnitude(ranked[i]) >= Magnitude(ranked[j]);
    }
    forall i | 0 <= i < |kept| ensures Abs(kept[i].weight) >= threshold {
      assert Magnitude(ranked[i]) >= threshold;
    }
  }

  lemma NothingLost(terms: seq<Term>, threshold: real, topK: int)
    ensures multiset(Prune(terms, threshold, topK)) + multiset(Dropped(terms, threshold, topK)) == multiset(terms)
  {
    var heavy, light, ranked := Filter(AtLeast(threshold), terms), Filter(Below(threshold), terms), Ranked(terms, threshold);
    var k := Cut(|ranked|, topK);
    SortDescSorts(heavy, Magnitude);
    FilterSplits(terms, threshold);
    SplitAround(ranked, k, light);
  }

  lemma SplitAround(s: seq<Term>, k: nat, t: seq<Term>)
    requires k <= |s|
    ensures multiset(s[..k]) + multiset(t + s[k..]) == multiset(s) + multiset(t)
  {
    assert s == s[..k] + s[k..];
  }

  lemma RankedHeavy(terms: seq<Term>, threshold: real)
    ensures forall i :: 0 <= i < |Ranked(terms, threshold)| ==> Magnitude(Ranked(terms, threshold)[i]) >= threshold
  {
    var heavy, ranked := Filter(AtLeast(threshold), terms), Ranked(terms, threshold);
    SortDescSorts(heavy, Magnitude);
    forall i | 0 <= i < |ranked| ensures Magnitude(ranked[i]) >= threshold {
      InBoth(ranked[i], ranked, heavy);
    }
  }

  lemma DroppedIsLighter(terms: seq<Term>, threshold: real, topK: int, i: nat, j: nat)
    requires i < Cut(|Ranked(terms, threshold)|, topK) && j < |Dropped(terms, threshold, topK)|
    ensures Magnitude(Dropped(terms, threshold, topK)[j]) <= Magnitude(Ranked(terms, threshold)[i])
  {
    var light, ranked := Filter(Below(threshold), terms), Ranked(terms, threshold);
    var k, t := Cut(|ranked|, topK), Dropped(terms, threshold, topK)[j];
    SortDescSorts(Filter(AtLeast(threshold), terms), Magnitude);
    RankedHeavy(terms, threshold);
    if j < |light| {
      assert t in light && Magnitude(t) < threshold;
    } else {
      assert t == ranked[k + (j - |light|)];
    }
  }

  lemma {:induction false} FilterTwice(terms: seq<Term>, a: real, b: real)
    ensures Filter(AtLeast(b), Filter(AtLeast(a), terms)) == Filter(AtLeast(Max(a, b)), terms)
  {
    if terms != [] {
      FilterTwice(terms[1..], a, b);
      var f := Filter(AtLeast(a), terms[1..]);
      assert ([terms[0]] + f)[1..] == f && [] + f == f;
      assert [] + Filter(AtLeast(b), f) == Filter(AtLeast(b), f);
    }
  }

  lemma PrefixOfCons(x: Term, f: seq<Term>, k: nat)
    requires k > 0
    ensures ([x] + f)[..Min(k, |f| + 1)] == [x] + f[..Min(k - 1, |f|)]
  {
  }

  // On a descending list the threshold cuts off a tail, so it commutes with taking a prefix.
  lemma {:induction false} FilterPrefix(s: seq<Term>, b: real, k: nat)
    requires Descending(s, Magnitude) && k <= |s|
    ensures var f := Filter(AtLeast(b), s); Filter(AtLeast(b), s[..k]) == f[..Min(k, |f|)]
  {
    if s == [] {
    } else if !AtLeast(b)(s[0]) {
      FilterNone(AtLeast(b), s);
      FilterNone(AtLeast(b), s[..k]);
    } else if k > 0 {
      var f := Filter(AtLeast(b), s[1..]);
      FilterPrefix(s[1..], b, k - 1);
      assert s[..k][1..] == s[1..][..k - 1];
      PrefixOfCons(s[0], f, k);
    }
  }

  /** Pruning a pruned vector, whatever the two top-k's: the larger threshold decides which
      terms compete, and the second slice is taken of what the first one left of them. */
  lemma PruneAgain(terms: seq<Term>, a: real, k: int, b: real, l: int)
    ensures var both := Ranked(terms, Max(a, b));
            Prune(Prune(terms, a, k), b, l) == both[..Cut(Min(Cut(|Ranked(terms, a)|, k), |both|), l)]
  {
    var ranked, both := Ranked(terms, a), Ranked(terms, Max(a, b));
    var n := Cut(|ranked|, k);
    RankedPrefix(terms, a, b, n);
    PrefixOfPrefix(both, Min(n, |both|), Cut(Min(n, |both|), l));
  }

  lemma PrefixOfPrefix(s: seq<Term>, n: nat, k: nat)
    requires k <= n <= |s|
    ensures s[..n][..k] == s[..k]
  {
  }

  lemma RankedPrefix(terms: seq<Term>, a: real, b: real, n: nat)
    requires n <= |Ranked(terms, a)|
    ensures var both := Ranked(terms, Max(a, b)); Ranked(Ranked(terms, a)[..n], b) == both[..Min(n, |both|)]
  {
    var ranked, both := Ranked(terms, a), Ranked(terms, Max(a, b));
    SortDescSorts(Filter(AtLeast(a), terms), Magnitude);
    RankedTwice(terms, a, b);
    FilterPrefix(ranked, b, n);
    FilterKeepsOrder(AtLeast(b), ranked, Magnitude);
    SortDescFixed(both[..Min(n, |both|)], Magnitude);
  }

  /** With non-negative top-k's this is pruning once, with the larger threshold and the
      smaller top-k. */
  lemma PruneTwice(terms: seq<Term>, a: real, k: nat, b: real, l: nat)
    ensures Prune(Prune(terms, a, k), b, l) == Prune(terms, Max(a, b), Min(k, l))
  {
    PruneAgain(terms, a, k, b, l);
    RankedTwice(terms, a, b);
  }

  lemma RankedTwice(terms: seq<Term>, a: real, b: real)
    ensures Filter(AtLeast(b), Ranked(terms, a)) == Ranked(terms, Max(a, b))
    ensures |Ranked(terms, Max(a, b))| <= |Ranked(terms, a)|
  {
    SortDescStable(AtLeast(b), Filter(AtLeast(a), terms), Magnitude);
    FilterTwice(terms, a, b);
  }

  /* ---- What pruning does to scores ---- */

  /** The score of a term list against a query that weights every id. */
  function Score(query: int -> real, terms: seq<Term>): real {
    if terms == [] then 0.0 else TermScore(query, terms[0]) + Score(query, terms[1..])
  }

  function TermScore(query: int -> real, t: Term): real { Product(query(t.id), t.weight) }

  lemma {:induction false} ScoreConcat(query: int -> real, a: seq<Term>, b: seq<Term>)
    ensures Score(query, a + b) == Score(query, a) + Score(query, b)
  {
    if a == [] {
      assert a + b == b;
    } else {
      assert (a + b)[1..] == a[1..] + b;
      ScoreConcat(query, a[1..], b);
    }
  }

  lemma ScoreRemove(query: int -> real, s: seq<Term>, k: nat)
    requires k < |s|
    ensures Score(query, s) == Score(query, s[..k] + s[k + 1..]) + TermScore(query, s[k])
  {
    assert s == s[..k] + ([s[k]] + s[k + 1..]);
    ScoreConcat(query, s[..k], [s[k]] + s[k + 1..]);
    ScoreConcat(query, s[..k], s[k + 1..]);
    assert ([s[k]] + s[k + 1..])[1..] == s[k + 1..];
  }

  lemma {:induction false} ScorePermutes(query: int -> real, a: seq<Term>, b: seq<Term>)
    requires multiset(a) == multiset(b)
    ensures Score(query, a) == Score(query, b)
    decreases |a|
  {
    SameLength(a, b);
    if a != [] {
      var k := MatchingIndex(a, b);
      ScorePermutes(query, a[..0] + a[1..], b[..k] + b[k + 1..]);
      ScoreRemove(query, a, 0);
      ScoreRemove(query, b, k);
    }
  }

  /** The full score is the score of the kept terms plus that of the dropped ones. */
  lemma ScoreSplits(query: int -> real, terms: seq<Term>, threshold: real, topK: int)
    ensures Score(query, terms)
            == Score(query, Prune(terms, threshold, topK)) + Score(query, Dropped(terms, threshold, topK))
  {
    var kept, dropped := Prune(terms, threshold, topK), Dropped(terms, threshold, topK);
    PruneKeepsHeaviest(terms, threshold, topK);
    ScorePermutes(query, terms, kept + dropped);
    ScoreConcat(query, kept, dropped);
  }

  function QueryMass(query: int -> real, terms: seq<Term>): real {
    if terms == [] then 0.0 else Abs(query(terms[0].id)) + QueryMass(query, terms[1..])
  }

  lemma ProductBound(q: real, w: real, cutoff: real)
    requires Abs(w) <= cutoff
    ensures -(cutoff * Abs(q)) <= q * w <= cutoff * Abs(q)
  {
    if q >= 0.0 {
      ProductOrder(w, cutoff, q);
      ProductOrder(-cutoff, w, q);
    } else {
      ProductOrder(w, cutoff, -q);
      ProductOrder(-cutoff, w, -q);
    }
  }

  lemma BoundStep(q: real, w: real, cutoff: real, rest: real, mass: real)
    requires Abs(w) <= cutoff && mass == Abs(q) + rest
    ensures -(Product(cutoff, mass) - Product(cutoff, rest)) <= Product(q, w) <= Product(cutoff, mass) - Product(cutoff, rest)
  {
    ProductBound(q, w, cutoff);
    assert cutoff * (Abs(q) + rest) == cutoff * Abs(q) + cutoff * rest;
  }

  lemma {:induction false} LightTermsScoreLittle(query: int -> real, terms: seq<Term>, cutoff: real)
    requires forall i :: 0 <= i < |terms| ==> Magnitude(terms[i]) <= cutoff
    ensures -Product(cutoff, QueryMass(query, terms)) <= Score(query, terms) <= Product(cutoff, QueryMass(query, terms))
  {
    if terms == [] {
      assert Product(cutoff, 0.0) == 0.0;
    } else {
      var q, w, rest := query(terms[0].id), terms[0].weight, terms[1..];
      LightTermsScoreLittle(query, rest, cutoff);
      BoundStep(q, w, cutoff, QueryMass(query, rest), QueryMass(query, terms));
    }
  }

  /** Pruning changes a score by at most the query mass on the dropped ids times the weight of
      the lightest kept term, or the threshold if all heavy terms are kept. */
  lemma PruningLoss(query: int -> real, terms: seq<Term>, threshold: real, topK: int)
    requires Prune(terms, threshold, topK) != [] || Ranked(terms, threshold) == []
    ensures var kept, dropped := Prune(terms, threshold, topK), Dropped(terms, threshold, topK);
            var slack := Product(Cutoff(terms, threshold, topK), QueryMass(query, dropped));
            Score(query, kept) - slack <= Score(query, terms) <= Score(query, kept) + slack
  {
    ScoreSplits(query, terms, threshold, topK);
    DroppedBelow(terms, threshold, topK);
    LightTermsScoreLittle(query, Dropped(terms, threshold, topK), Cutoff(terms, threshold, topK));
  }

  function Cutoff(terms: seq<Term>, threshold: real, topK: int): real
    requires Prune(terms, threshold, topK) != [] || Ranked(terms, threshold) == []
  {
    var kept := Prune(terms, threshold, topK);
    if |kept| < |Ranked(terms, threshold)| then Magnitude(kept[|kept| - 1]) else threshold
  }

  lemma DroppedBelow(terms: seq<Term>, threshold: real, topK: int)
    requires Prune(terms, threshold, topK) != [] || Ranked(terms, threshold) == []
    ensures var dropped := Dropped(terms, threshold, topK);
            forall j :: 0 <= j < |dropped| ==> Magnitude(dropped[j]) <= Cutoff(terms, threshold, topK)
  {
    var kept, dropped, light := Prune(terms, threshold, topK), Dropped(terms, threshold, topK), Filter(Below(threshold), terms);
    PruneKeepsHeaviest(terms, threshold, topK);
    forall j | 0 <= j < |dropped| && |kept| == |Ranked(terms, threshold)| ensures Magnitude(dropped[j]) <= threshold {
      assert dropped[j] in light;
    }
  }
}
