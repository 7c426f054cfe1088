/** sparse_prune_and_sort of include/libembedding/detail/sparse_postprocess.hpp.

    std::sort and std::partial_sort are not stable, so ties may come out in any order: the
    function is modelled as the relation between its input and every output it may leave.
 */
module SparsePostprocess {
  import opened Sorting
  import Pruning
  import SparseDot

  type Term = Pruning.Term

  /** storage_format: anything but INDEX_ORDER is treated as DICT. */
  datatype Format = Dict | IndexOrder

  function WeightOf(t: Term): real { t.weight }

  function HeavyEnough(minWeight: real): Term -> bool {
    (t: Term) => t.weight >= minWeight
  }

  function AfterMinWeight(terms: seq<Term>, minWeight: real): seq<Term> {
    if minWeight > 0.0 then Filter(HeavyEnough(minWeight), terms) else terms
  }

  /** std::partial_sort: the first k are the k heaviest, in order; the rest is in any order. */
  ghost predicate PartiallySorted(terms: seq<Term>, k: nat, ranked: seq<Term>) {
    && multiset(ranked) == multiset(terms)
    && forall i, j :: 0 <= i < j < |ranked| && i < k ==> ranked[i].weight >= ranked[j].weight
  }

  ghost predicate SelectsTopK(terms: seq<Term>, topK: int, ranked: seq<Term>, selected: seq<Term>) {
    if 0 < topK < |terms| then
      PartiallySorted(terms, topK, ranked) && |ranked| == |terms| && selected == ranked[..topK]
    else
      ranked == selected == terms
  }

  ghost predicate Ordered(format: Format, out: seq<Term>) {
    match format
    case Dict => forall i, j :: 0 <= i < j < |out| ==> out[i].weight >= out[j].weight
    case IndexOrder => forall i, j :: 0 <= i < j < |out| ==> out[i].id <= out[j].id
  }

  /** `out` is a possible result; `ranked` is what the selection step left behind. */
  ghost predicate Produces(terms: seq<Term>, topK: int, minWeight: real, format: Format,
                           ranked: seq<Term>, out: seq<Term>)
  {
    exists selected: seq<Term> ::
      && SelectsTopK(AfterMinWeight(terms, minWeight), topK, ranked, selected)
      && multiset(out) == multiset(selected)
      && Ordered(format, out)
  }

  function Ids(terms: seq<Term>): (ids: seq<int>)
    ensures |ids| == |terms| && forall i :: 0 <= i < |terms| ==> ids[i] == terms[i].id
  {
    seq(|terms|, i requires 0 <= i < |terms| => terms[i].id)
  }

  function Weights(terms: seq<Term>): (w: seq<real>)
    ensures |w| == |terms| && forall i :: 0 <= i < |terms| ==> w[i] == terms[i].weight
  {
    seq(|terms|, i requires 0 <= i < |terms| => terms[i].weight)
  }

  function AsSparse(terms: seq<Term>): SparseDot.Sparse {
    SparseDot.Sparse(Ids(terms), Weights(terms))
  }

  predicate UniqueIds(terms: seq<Term>) {
    forall i, j :: 0 <= i < j < |terms| ==> terms[i].id != terms[j].id
  }

  /** Unique ids as a statement about the multiset, which every permutation shares. */
  ghost predicate IdsOnce(m: multiset<Term>) {
    && (forall t :: t in m ==> m[t] == 1)
    && forall s, t :: s in m && t in m && s.id == t.id ==> s == t
  }

  lemma {:induction false} UniqueIdsOnce(terms: seq<Term>)
    ensures UniqueIds(terms) ==> IdsOnce(multiset(terms))
  {
    if terms != [] && UniqueIds(terms) {
      var rest, last := terms[..|terms| - 1], terms[|terms| - 1];
      UniqueIdsOnce(rest);
      assert terms == rest + [last];
      assert last !in multiset(rest);
    }
  }

  lemma OnceUniqueIds(terms: seq<Term>)
    requires IdsOnce(multiset(terms))
    ensures UniqueIds(terms)
  {
    forall i, j | 0 <= i < j < |terms| ensures terms[i].id != terms[j].id {
      assert terms == terms[..j] + [terms[j]] + terms[j + 1..] && terms[..j][i] == terms[i];
      assert terms[i] in multiset(terms) && terms[j] in multiset(terms);
    }
  }

  lemma OnceSubset(m: multiset<Term>, n: multiset<Term>)
    requires m <= n && IdsOnce(n)
    ensures IdsOnce(m)
  {
    forall t | t in m ensures m[t] == 1 && t in n {
      assert m[t] <= n[t];
    }
  }

  lemma {:induction false} FilterWithin(p: Term -> bool, terms: seq<Term>)
    ensures multiset(Filter(p, terms)) <= multiset(terms)
  {
    if terms != [] {
      FilterWithin(p, terms[1..]);
      assert terms == [terms[0]] + terms[1..];
    }
  }

  lemma SelectionWithin(terms: seq<Term>, topK: int, ranked: seq<Term>, selected: seq<Term>)
    requires SelectsTopK(terms, topK, ranked, selected)
    ensures multiset(selected) <= multiset(terms)
    ensures |selected| == if 0 < topK < |terms| then topK else |terms|
  {
    if 0 < topK < |terms| {
      assert ranked == ranked[..topK] + ranked[topK..];
    }
  }

  /** The minimum weight takes away exactly the lighter terms, and none unless it is positive. */
  lemma SurvivorsAre(terms: seq<Term>, minWeight: real, t: Term)
    ensures multiset(AfterMinWeight(terms, minWeight))[t]
            == if minWeight <= 0.0 || t.weight >= minWeight then multiset(terms)[t] else 0
    ensures |AfterMinWeight(terms, minWeight)|
            == |set i | 0 <= i < |terms| && (minWeight <= 0.0 || terms[i].weight >= minWeight)|
  {
    var survives := (x: Term) => minWeight <= 0.0 || x.weight >= minWeight;
    Survivors(terms, minWeight, survives);
    FilterKeeps(survives, terms, t);
    FilterSize(survives, terms);
    assert Passing(survives, terms) == set i | 0 <= i < |terms| && (minWeight <= 0.0 || terms[i].weight >= minWeight);
  }

  lemma {:induction false} Survivors(terms: seq<Term>, minWeight: real, survives: Term -> bool)
    requires forall x: Term :: survives(x) <==> minWeight <= 0.0 || x.weight >= minWeight
    ensures AfterMinWeight(terms, minWeight) == Filter(survives, terms)
  {
    if minWeight <= 0.0 {
      FilterAll(survives, terms);
    } else if terms != [] {
      Survivors(terms[1..], minWeight, survives);
    }
  }

  /** The output in plain terms, whatever the sorts do with ties. */
  lemma ProducesOnly(terms: seq<Term>, topK: int, minWeight: real, format: Format, ranked: seq<Term>, out: seq<Term>, n: nat)
    requires Produces(terms, topK, minWeight, format, ranked, out)
    requires n == |set i | 0 <= i < |terms| && (minWeight <= 0.0 || terms[i].weight >= minWeight)|
    ensures |out| == if 0 < topK < n then topK else n
    ensures multiset(out) <= multiset(terms)
    ensures minWeight > 0.0 ==> forall i :: 0 <= i < |out| ==> out[i].weight >= minWeight
    ensures forall t, i :: t in multiset(terms) - multiset(out) && (minWeight <= 0.0 || t.weight >= minWeight) && 0 <= i < |out| ==>
                             t.weight <= out[i].weight
    ensures forall i, j :: 0 <= i < j < |out| ==>
                             if format.IndexOrder? then out[i].id <= out[j].id else out[i].weight >= out[j].weight
  {
    ProducesHeaviest(terms, topK, minWeight, format, ranked, out);
    var survivors := AfterMinWeight(terms, minWeight);
    forall t: Term ensures multiset(survivors)[t] == (if minWeight <= 0.0 || t.weight >= minWeight then multiset(terms)[t] else 0)
             ensures |survivors| == n
    {
      SurvivorsAre(terms, minWeight, t);
    }
    assert multiset(survivors)[Pruning.Term(0, 0.0)] >= 0;
    forall t, i | t in multiset(terms) - multiset(out) && (minWeight <= 0.0 || t.weight >= minWeight) && 0 <= i < |out|
      ensures t.weight <= out[i].weight
    {
      assert t in multiset(survivors) - multiset(out);
    }
  }

  /** Whatever the sorts do with ties: the result holds min(top_k, survivors) of the
      surviving terms, no survivor left out outweighs one that is kept, and the order is
      the requested one, even after a top-k selection. */
  lemma ProducesHeaviest(terms: seq<Term>, topK: int, minWeight: real, format: Format, ranked: seq<Term>, out: seq<Term>)
    requires Produces(terms, topK, minWeight, format, ranked, out)
    ensures var survivors := AfterMinWeight(terms, minWeight);
            && |out| == (if 0 < topK < |survivors| then topK else |survivors|)
            && multiset(out) <= multiset(survivors) <= multiset(terms)
            && (minWeight > 0.0 ==> forall i :: 0 <= i < |out| ==> out[i].weight >= minWeight)
            && forall t, i :: t in multiset(survivors) - multiset(out) && 0 <= i < |out| ==> t.weight <= out[i].weight
    ensures Ordered(format, out)
  {
    var survivors := AfterMinWeight(terms, minWeight);
    var selected :| SelectsTopK(survivors, topK, ranked, selected) && multiset(out) == multiset(selected) && Ordered(format, out);
    SelectionWithin(survivors, topK, ranked, selected);
    SameLength(out, selected);
    FilterWithin(HeavyEnough(minWeight), terms);
    forall i | 0 <= i < |out| ensures out[i] in multiset(survivors) && out[i] in multiset(selected) {
      assert out[i] in multiset(out);
    }
    forall i | 0 <= i < |out| && minWeight > 0.0 ensures out[i].weight >= minWeight {
      assert out[i] in multiset(survivors);
      assert out[i] in survivors;
    }
    forall t, i | t in multiset(survivors) - multiset(out) && 0 <= i < |out| ensures t.weight <= out[i].weight {
      LeftOutIsLighter(survivors, topK, ranked, selected, t, out[i]);
    }
  }

  lemma LeftOutIsLighter(terms: seq<Term>, topK: int, ranked: seq<Term>, selected: seq<Term>, t: Term, kept: Term)
    requires SelectsTopK(terms, topK, ranked, selected)
    requires t in multiset(terms) - multiset(selected) && kept in multiset(selected)
    ensures t.weight <= kept.weight
  {
    if 0 < topK < |terms| {
      assert ranked == ranked[..topK] + ranked[topK..];
      assert multiset(terms) - multiset(selected) == multiset(ranked[topK..]);
      var i :| 0 <= i < |selected| && selected[i] == kept;
      var j :| topK <= j < |ranked| && ranked[j] == t;
      assert ranked[i] == kept;
    }
  }

  /** With "index_order" the ids come out strictly ascending, so the two-pointer merge of
      two such vectors is their true dot product. */
  lemma IndexOrderMergesRight(terms: seq<Term>, topK: int, minWeight: real, ranked: seq<Term>, out: seq<Term>,
                              other: seq<Term>, topK': int, minWeight': real, ranked': seq<Term>, out': seq<Term>)
    requires UniqueIds(terms) && Produces(terms, topK, minWeight, IndexOrder, ranked, out)
    requires UniqueIds(other) && Produces(other, topK', minWeight', IndexOrder, ranked', out')
    ensures SparseDot.Ascending(Ids(out)) && SparseDot.Ascending(Ids(out'))
    ensures SparseDot.Merge(AsSparse(out), AsSparse(out')) == SparseDot.NestedSum(AsSparse(out), AsSparse(out'))
  {
    IndexOrderAscends(terms, topK, minWeight, ranked, out);
    IndexOrderAscends(other, topK', minWeight', ranked', out');
    SparseDot.MergeIsNestedSum(AsSparse(out), AsSparse(out'));
  }

  lemma IndexOrderAscends(terms: seq<Term>, topK: int, minWeight: real, ranked: seq<Term>, out: seq<Term>)
    requires UniqueIds(terms) && Produces(terms, topK, minWeight, IndexOrder, ranked, out)
    ensures SparseDot.Ascending(Ids(out))
  {
    ProducesHeaviest(terms, topK, minWeight, IndexOrder, ranked, out);
    UniqueIdsOnce(terms);
    OnceSubset(multiset(out), multiset(terms));
    OnceUniqueIds(out);
  }

  /** With the default "dict" format this fails: both vectors below are possible results
      of the library, and the merge scores them 2 instead of 4. */
  lemma DictOrderMergesWrong()
    ensures var q, d := [Pruning.Term(7, 2.0), Pruning.Term(3, 1.0)], [Pruning.Term(3, 2.0), Pruning.Term(7, 1.0)];
            && Produces(q, 0, 0.0, Dict, q, q) && Produces(d, 0, 0.0, Dict, d, d)
            && SparseDot.Merge(AsSparse(q), AsSparse(d)) == 2.0
            && SparseDot.NestedSum(AsSparse(q), AsSparse(d)) == 4.0
  {
    var q, d := [Pruning.Term(7, 2.0), Pruning.Term(3, 1.0)], [Pruning.Term(3, 2.0), Pruning.Term(7, 1.0)];
    assert SelectsTopK(AfterMinWeight(q, 0.0), 0, q, q) && SelectsTopK(AfterMinWeight(d, 0.0), 0, d, d);
    assert Ordered(Dict, q) && Ordered(Dict, d);
    assert AsSparse(q) == SparseDot.Sparse([7, 3], [2.0, 1.0]);
    assert AsSparse(d) == SparseDot.Sparse([3, 7], [2.0, 1.0]);
    SparseDot.MergeLosesWeightOrderedTerms();
  }

  /* ---- Is a top-k vector in index order still ordered by weight? ---- */

  predicate WeightDescending(out: seq<Term>) {
    forall i, j :: 0 <= i < j < |out| ==> out[i].weight >= out[j].weight
  }

  function KeptCount(n: nat, topK: int): nat { if 0 < topK < n then topK else n }

  /** Term i may be among the kept ones: fewer than that many terms outweigh it. */
  predicate Keepable(survivors: seq<Term>, topK: int, i: nat)
    requires i < |survivors|
  {
    Above(survivors, WeightOf, survivors[i].weight) < KeptCount(|survivors|, topK)
  }

  /** A keepable term is outweighed by one whose id is not smaller. */
  predicate Inverted(survivors: seq<Term>, topK: int) {
    exists i, j :: 0 <= i < |survivors| && 0 <= j < |survivors| && Keepable(survivors, topK, i)
                   && survivors[i].id <= survivors[j].id && survivors[i].weight < survivors[j].weight
  }

  lemma HeavierKept(survivors: seq<Term>, topK: int, ranked: seq<Term>, selected: seq<Term>, i: nat)
    requires SelectsTopK(survivors, topK, ranked, selected) && i < |selected|
    ensures Above(selected, WeightOf, selected[i].weight) == Above(survivors, WeightOf, selected[i].weight)
  {
    var w := selected[i].weight;
    if 0 < topK < |survivors| {
      var p := Beyond(WeightOf, w);
      assert ranked == ranked[..topK] + ranked[topK..];
      FilterConcat(p, ranked[..topK], ranked[topK..]);
      forall j | 0 <= j < |ranked[topK..]| ensures !p(ranked[topK..][j]) {
        assert ranked[i].weight >= ranked[topK + j].weight;
      }
      FilterNone(p, ranked[topK..]);
      FilterCount(p, ranked, survivors);
    }
  }

  // Nothing outweighs itself, so a count of heavier elements leaves room.
  lemma AboveLeavesRoom(s: seq<Term>, i: nat)
    requires i < |s|
    ensures Above(s, WeightOf, s[i].weight) < |s|
  {
    FilterRemove(Beyond(WeightOf, s[i].weight), s, i);
  }

  lemma KeptAreKeepable(survivors: seq<Term>, topK: int, ranked: seq<Term>, selected: seq<Term>, t: Term)
    requires SelectsTopK(survivors, topK, ranked, selected) && t in selected
    ensures exists i :: 0 <= i < |survivors| && survivors[i] == t && Keepable(survivors, topK, i)
  {
    var k :| 0 <= k < |selected| && selected[k] == t;
    SelectionWithin(survivors, topK, ranked, selected);
    HeavierKept(survivors, topK, ranked, selected, k);
    AboveLeavesRoom(selected, k);
    assert t in multiset(selected);
    assert t in multiset(survivors);
    var i :| 0 <= i < |survivors| && survivors[i] == t;
    assert Keepable(survivors, topK, i);
  }

  lemma NotInvertedDescends(terms: seq<Term>, topK: int, minWeight: real, ranked: seq<Term>, out: seq<Term>)
    requires Produces(terms, topK, minWeight, IndexOrder, ranked, out)
    requires !Inverted(AfterMinWeight(terms, minWeight), topK)
    ensures WeightDescending(out)
  {
    var survivors := AfterMinWeight(terms, minWeight);
    var selected :| SelectsTopK(survivors, topK, ranked, selected) && multiset(out) == multiset(selected)
                    && Ordered(IndexOrder, out);
    forall i, j | 0 <= i < j < |out| ensures out[i].weight >= out[j].weight {
      InBoth(out[i], out, selected);
      InBoth(out[j], out, selected);
      KeptAreKeepable(survivors, topK, ranked, selected, out[i]);
      KeptAreKeepable(survivors, topK, ranked, selected, out[j]);
      assert out[i].id <= out[j].id;
    }
  }

  /* The other way round: an output that keeps both terms of an inversion, the lighter first. */

  function IdKey(t: Term): real { -(t.id as real) }

  lemma {:induction false} InsertPlace(x: Term, s: seq<Term>, key: Term -> real)
    requires Descending(s, key)
    ensures var p := Above(s, key, key(x)); Insert(x, s, key) == s[..p] + [x] + s[p..]
  {
    AboveIsFirst(s, key, key(x));
    if s == [] {
    } else if key(x) >= key(s[0]) {
      assert Above(s, key, key(x)) == 0;
    } else {
      InsertPlace(x, s[1..], key);
      AboveStep(s, key, key(x));
      SplitTail(s, Above(s[1..], key, key(x)), x);
    }
  }

  lemma SplitTail(s: seq<Term>, p: nat, x: Term)
    requires s != [] && p < |s|
    ensures [s[0]] + (s[1..][..p] + [x] + s[1..][p..]) == s[..p + 1] + [x] + s[p + 1..]
  {
  }

  lemma AboveStep(s: seq<Term>, key: Term -> real, w: real)
    requires s != [] && key(s[0]) > w
    ensures Above(s, key, w) == 1 + Above(s[1..], key, w)
  {
  }

  // Moving an element to the front of a list before sorting it.
  function Fronted(s: seq<Term>, i: nat): seq<Term>
    requires i < |s|
  {
    [s[i]] + (s[..i] + s[i + 1..])
  }

  lemma FrontedPermutes(s: seq<Term>, i: nat)
    requires i < |s|
    ensures multiset(Fronted(s, i)) == multiset(s)
  {
    RemoveOne(s, i);
    assert s[i] in multiset(s);
  }

  // Sorted with the i-th element fronted, it stands right behind the elements beyond it.
  lemma FrontedPlace(s: seq<Term>, i: nat, key: Term -> real)
    requires i < |s|
    ensures var r := SortDesc(Fronted(s, i), key);
            && multiset(r) == multiset(s) && Descending(r, key) && |r| == |s|
            && Above(s, key, key(s[i])) < |s| && r[Above(s, key, key(s[i]))] == s[i]
  {
    var rest := s[..i] + s[i + 1..];
    FrontedPermutes(s, i);
    SortDescSorts(Fronted(s, i), key);
    SortDescSorts(rest, key);
    assert Fronted(s, i)[1..] == rest;
    InsertPlace(s[i], SortDesc(rest, key), key);
    FilterRemove(Beyond(key, key(s[i])), s, i);
    FilterCount(Beyond(key, key(s[i])), SortDesc(rest, key), rest);
  }

  lemma InvertedSelection(survivors: seq<Term>, topK: int, i: nat, j: nat)
    returns (ranked: seq<Term>, selected: seq<Term>)
    requires i < |survivors| && j < |survivors| && Keepable(survivors, topK, i)
    requires survivors[i].weight < survivors[j].weight
    ensures SelectsTopK(survivors, topK, ranked, selected)
    ensures survivors[i] in selected && survivors[j] in selected
  {
    if 0 < topK < |survivors| {
      ranked := SortDesc(Fronted(survivors, i), WeightOf);
      FrontedPlace(survivors, i, WeightOf);
      selected := ranked[..topK];
      var p := Above(survivors, WeightOf, survivors[i].weight);
      InBoth(survivors[j], survivors, ranked);
      var q :| 0 <= q < |ranked| && ranked[q] == survivors[j];
      forall a, b | 0 <= a < b < |ranked| ensures ranked[a].weight >= ranked[b].weight {
        assert WeightOf(ranked[a]) >= WeightOf(ranked[b]);
      }
      assert q < p;
      assert selected[p] == survivors[i] && selected[q] == survivors[j];
    } else {
      ranked, selected := survivors, survivors;
    }
  }

  lemma BehindBeyond(s: seq<Term>, key: Term -> real, w: real, q: nat)
    requires Descending(s, key) && q < |s| && key(s[q]) <= w
    ensures q >= Above(s, key, w)
  {
    AboveIsFirst(s, key, w);
  }

  lemma BehindSelected(selected: seq<Term>, out: seq<Term>, key: Term -> real, w: real, q: nat)
    requires multiset(out) == multiset(selected) && Descending(out, key) && q < |out| && key(out[q]) <= w
    ensures q >= Above(selected, key, w)
  {
    AbovePermutes(out, selected, key, w);
    BehindBeyond(out, key, w, q);
  }

  // Sorted with s fronted, s stands before any other element that is not beyond it.
  lemma FrontedBefore(selected: seq<Term>, i: nat, t: Term, key: Term -> real) returns (p: nat, q: nat)
    requires i < |selected| && t in selected && t != selected[i] && key(t) <= key(selected[i])
    ensures var out := SortDesc(Fronted(selected, i), key);
            && multiset(out) == multiset(selected) && Descending(out, key)
            && p < q < |out| && out[p] == selected[i] && out[q] == t
  {
    var out := SortDesc(Fronted(selected, i), key);
    FrontedPlace(selected, i, key);
    InBoth(t, selected, out);
    q :| 0 <= q < |out| && out[q] == t;
    BehindSelected(selected, out, key, key(selected[i]), q);
    p := Above(selected, key, key(selected[i]));
    assert out[p] != out[q];
  }

  lemma LighterFirst(selected: seq<Term>, s: Term, t: Term) returns (out: seq<Term>)
    requires s in selected && t in selected && s.id <= t.id && s.weight < t.weight
    ensures multiset(out) == multiset(selected) && Ordered(IndexOrder, out) && !WeightDescending(out)
  {
    var i :| 0 <= i < |selected| && selected[i] == s;
    out := SortDesc(Fronted(selected, i), IdKey);
    var p, q := FrontedBefore(selected, i, t, IdKey);
    ByIdKey(out);
    assert out[p].weight < out[q].weight;
  }

  lemma ByIdKey(out: seq<Term>)
    requires Descending(out, IdKey)
    ensures Ordered(IndexOrder, out)
  {
    forall a, b | 0 <= a < b < |out| ensures out[a].id <= out[b].id {
      assert IdKey(out[a]) >= IdKey(out[b]);
    }
  }

  /** Every index-order output is weight-descending exactly when no term that may be kept is
      outweighed by one whose id is not smaller. */
  lemma IndexOrderDescendsIff(terms: seq<Term>, topK: int, minWeight: real)
    ensures (forall ranked, out :: Produces(terms, topK, minWeight, IndexOrder, ranked, out) ==> WeightDescending(out))
            <==> !Inverted(AfterMinWeight(terms, minWeight), topK)
  {
    var survivors := AfterMinWeight(terms, minWeight);
    if Inverted(survivors, topK) {
      var i, j :| 0 <= i < |survivors| && 0 <= j < |survivors| && Keepable(survivors, topK, i)
                  && survivors[i].id <= survivors[j].id && survivors[i].weight < survivors[j].weight;
      var ranked, selected := InvertedSelection(survivors, topK, i, j);
      var out := LighterFirst(selected, survivors[i], survivors[j]);
      assert Produces(terms, topK, minWeight, IndexOrder, ranked, out);
    } else {
      forall ranked, out | Produces(terms, topK, minWeight, IndexOrder, ranked, out) ensures WeightDescending(out) {
        NotInvertedDescends(terms, topK, minWeight, ranked, out);
      }
    }
  }

  lemma LighterOfTwo(a: Term, b: Term, c: Term)
    requires a.id <= b.id && c.weight <= a.weight < b.weight
    ensures Produces([a, b, c], 2, 0.0, IndexOrder, [b, a, c], [a, b]) && !WeightDescending([a, b])
  {
    var ranked, selected, out := [b, a, c], [b, a], [a, b];
    assert multiset(ranked) == multiset{a, b, c} == multiset([a, b, c]);
    assert multiset(out) == multiset{a, b} == multiset(selected);
    assert selected == ranked[..2];
    assert SelectsTopK(AfterMinWeight([a, b, c], 0.0), 2, ranked, selected);
    assert out[0].weight < out[1].weight;
  }

  /** Top 2 of (3, 1.0), (7, 2.0), (9, 0.5): in index order the lighter term comes first. */
  lemma IndexOrderTopTwo()
    ensures Produces([Pruning.Term(3, 1.0), Pruning.Term(7, 2.0), Pruning.Term(9, 0.5)], 2, 0.0, IndexOrder,
                     [Pruning.Term(7, 2.0), Pruning.Term(3, 1.0), Pruning.Term(9, 0.5)],
                     [Pruning.Term(3, 1.0), Pruning.Term(7, 2.0)])
    ensures !WeightDescending([Pruning.Term(3, 1.0), Pruning.Term(7, 2.0)])
  {
    LighterOfTwo(Pruning.Term(3, 1.0), Pruning.Term(7, 2.0), Pruning.Term(9, 0.5));
  }
}
