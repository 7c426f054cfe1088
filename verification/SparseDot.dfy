/** Sparse dot products of benchmarks/sparse: the two-pointer merge, the nested loop, the
    dictionary lookup and the dense product over the vocabulary.
 */
module SparseDot {
  import opened Reals
  import opened Sequences
  import Similarity

  /** A sparse vector: parallel lists of token ids and weights. */
  datatype Sparse = Sparse(indices: seq<int>, values: seq<real>)

  predicate WellFormed(v: Sparse) { |v.indices| == |v.values| }

  predicate Ascending(ids: seq<int>) {
    forall i, j :: 0 <= i < j < |ids| ==> ids[i] < ids[j]
  }

  function Tail(v: Sparse): (t: Sparse)
    requires WellFormed(v) && v.indices != []
    ensures WellFormed(t)
  {
    Sparse(v.indices[1..], v.values[1..])
  }

  function From(v: Sparse, n: nat): (t: Sparse)
    requires WellFormed(v) && n <= |v.indices|
    ensures WellFormed(t)
  {
    Sparse(v.indices[n..], v.values[n..])
  }

  // One row of the nested loop: every entry of d whose id is the given one.
  function Row(id: int, weight: real, d: Sparse): real
    requires WellFormed(d)
    decreases |d.indices|
  {
    if d.indices == [] then 0.0
    else (if d.indices[0] == id then Product(weight, d.values[0]) else 0.0) + Row(id, weight, Tail(d))
  }

  /** sum(q.values[i] * d.values[j] for i for j if q.indices[i] == d.indices[j]) */
  function NestedSum(q: Sparse, d: Sparse): real
    requires WellFormed(q) && WellFormed(d)
    decreases |q.indices|
  {
    if q.indices == [] then 0.0
    else Row(q.indices[0], q.values[0], d) + NestedSum(Tail(q), d)
  }

  /* ---- The merge loop ---- */

  /** What the two-pointer loop adds up from positions i and j on, whatever the order of the ids. */
  function Merge(q: Sparse, d: Sparse): real
    requires WellFormed(q) && WellFormed(d)
    decreases |q.indices| + |d.indices|
  {
    if q.indices == [] || d.indices == [] then 0.0
    else if q.indices[0] == d.indices[0] then Product(q.values[0], d.values[0]) + Merge(Tail(q), Tail(d))
    else if q.indices[0] < d.indices[0] then Merge(Tail(q), d)
    else Merge(q, Tail(d))
  }

  method SparseScores(query: Sparse, docs: seq<Sparse>) returns (out: seq<real>)
    requires WellFormed(query) && forall d :: d in docs ==> WellFormed(d)
    ensures |out| == |docs|
    ensures forall n :: 0 <= n < |docs| ==> out[n] == Merge(query, docs[n])
    ensures Ascending(query.indices) ==>
              forall n :: 0 <= n < |docs| && Ascending(docs[n].indices) ==> out[n] == NestedSum(query, docs[n])
  {
    out := [];
    for n := 0 to |docs|
      invariant |out| == n
      invariant forall k :: 0 <= k < n ==> out[k] == Merge(query, docs[k])
    {
      var total := ScoreOne(query, docs[n]);
      out := out + [total];
    }
    forall n | 0 <= n < |docs| && Ascending(query.indices) && Ascending(docs[n].indices)
      ensures out[n] == NestedSum(query, docs[n])
    {
      MergeIsNestedSum(query, docs[n]);
    }
  }

  /** The two-pointer loop for one document. */
  method ScoreOne(query: Sparse, d: Sparse) returns (total: real)
    requires WellFormed(query) && WellFormed(d)
    ensures total == Merge(query, d)
  {
    total := 0.0;
    var i, j := 0, 0;
    while i < |query.indices| && j < |d.indices|
      invariant i <= |query.indices| && j <= |d.indices|
      invariant total + Merge(From(query, i), From(d, j)) == Merge(query, d)
      decreases |query.indices| - i + |d.indices| - j
    {
      var a, b := query.indices[i], d.indices[j];
      assert Tail(From(query, i)) == From(query, i + 1);
      assert Tail(From(d, j)) == From(d, j + 1);
      if a == b {
        total := total + query.values[i] * d.values[j];
        i := i + 1;
        j := j + 1;
      } else if a < b {
        i := i + 1;
      } else {
        j := j + 1;
      }
    }
  }

  lemma {:induction false} RowOutside(id: int, weight: real, d: Sparse)
    requires WellFormed(d) && id !in d.indices
    ensures Row(id, weight, d) == 0.0
    decreases |d.indices|
  {
    if d.indices != [] {
      RowOutside(id, weight, Tail(d));
    }
  }

  // An entry of d that no query id reaches may be dropped from the nested sum.
  lemma {:induction false} NestedSumSkip(q: Sparse, d: Sparse)
    requires WellFormed(q) && WellFormed(d) && d.indices != [] && d.indices[0] !in q.indices
    ensures NestedSum(q, d) == NestedSum(q, Tail(d))
    decreases |q.indices|
  {
    if q.indices != [] {
      NestedSumSkip(Tail(q), d);
    }
  }

  lemma AscendingTail(ids: seq<int>)
    requires Ascending(ids) && ids != []
    ensures Ascending(ids[1..]) && forall x :: x in ids[1..] ==> ids[0] < x
  {
  }

  /** On ascending ids the merge computes the nested double sum. */
  lemma {:induction false} MergeIsNestedSum(q: Sparse, d: Sparse)
    requires WellFormed(q) && WellFormed(d) && Ascending(q.indices) && Ascending(d.indices)
    ensures Merge(q, d) == NestedSum(q, d)
    decreases |q.indices| + |d.indices|
  {
    if q.indices == [] {
    } else if d.indices == [] {
      MergeIsNestedSum(Tail(q), d);
    } else {
      var a, b := q.indices[0], d.indices[0];
      AscendingTail(q.indices);
      AscendingTail(d.indices);
      if a == b {
        RowOutside(a, q.values[0], Tail(d));
        NestedSumSkip(Tail(q), d);
        MergeIsNestedSum(Tail(q), Tail(d));
      } else if a < b {
        RowOutside(a, q.values[0], d);
        MergeIsNestedSum(Tail(q), d);
      } else {
        NestedSumSkip(q, d);
        MergeIsNestedSum(q, Tail(d));
      }
    }
  }

  /* ---- When the merge is right ---- */

  lemma {:induction false} NestedSumEmpty(q: Sparse, d: Sparse)
    requires WellFormed(q) && WellFormed(d) && d.indices == []
    ensures NestedSum(q, d) == 0.0
    decreases |q.indices|
  {
    if q.indices != [] {
      NestedSumEmpty(Tail(q), d);
    }
  }

  // A one-term document picks out the weight of its id.
  lemma {:induction false} NestedSumSingle(q: Sparse, k: nat)
    requires WellFormed(q) && Distinct(q.indices) && k < |q.indices|
    ensures NestedSum(q, Sparse([q.indices[k]], [1.0])) == q.values[k]
    decreases |q.indices|
  {
    var one := Sparse([q.indices[k]], [1.0]);
    assert Tail(one).indices == [];
    assert q.indices[k] == q.indices[0] ==> Row(q.indices[0], q.values[0], one) == q.values[0];
    if k == 0 {
      NestedSumSkip(Tail(q), one);
      NestedSumEmpty(Tail(q), Tail(one));
    } else {
      NestedSumSingle(Tail(q), k - 1);
      RowOutside(q.indices[0], q.values[0], one);
      assert Tail(q).indices[k - 1] == q.indices[k] && Tail(q).values[k - 1] == q.values[k];
    }
  }

  // The merge gives up on a one-term document at the first larger query id.
  lemma {:induction false} MergeGivesUp(q: Sparse, i: nat, id: int)
    requires WellFormed(q) && i < |q.indices| && q.indices[i] > id
    requires forall j :: 0 <= j < i ==> q.indices[j] != id
    ensures Merge(q, Sparse([id], [1.0])) == 0.0
    decreases |q.indices|
  {
    var one := Sparse([id], [1.0]);
    if q.indices[0] > id {
      assert Tail(one).indices == [];
    } else {
      MergeGivesUp(Tail(q), i - 1, id);
    }
  }

  /** The merge is right for every document with ascending ids exactly when the query's
      own ids ascend (distinct ids, no zero weights). */
  lemma MergeRightIffAscending(q: Sparse)
    requires WellFormed(q) && Distinct(q.indices)
    requires forall i :: 0 <= i < |q.values| ==> q.values[i] != 0.0
    ensures (forall d: Sparse :: WellFormed(d) && Ascending(d.indices) ==> Merge(q, d) == NestedSum(q, d))
            <==> Ascending(q.indices)
  {
    if Ascending(q.indices) {
      forall d: Sparse | WellFormed(d) && Ascending(d.indices) ensures Merge(q, d) == NestedSum(q, d) {
        MergeIsNestedSum(q, d);
      }
    } else {
      var i, k :| 0 <= i < k < |q.indices| && !(q.indices[i] < q.indices[k]);
      var d := Sparse([q.indices[k]], [1.0]);
      MergeGivesUp(q, i, q.indices[k]);
      NestedSumSingle(q, k);
      assert WellFormed(d) && Ascending(d.indices) && Merge(q, d) != NestedSum(q, d);
    }
  }

  lemma {:induction false} MergeSymmetric(q: Sparse, d: Sparse)
    requires WellFormed(q) && WellFormed(d)
    ensures Merge(q, d) == Merge(d, q)
    decreases |q.indices| + |d.indices|
  {
    if q.indices == [] || d.indices == [] {
    } else if q.indices[0] == d.indices[0] {
      MergeSymmetric(Tail(q), Tail(d));
    } else if q.indices[0] < d.indices[0] {
      MergeSymmetric(Tail(q), d);
    } else {
      MergeSymmetric(q, Tail(d));
    }
  }

  // The nested sum by columns instead of rows.
  lemma {:induction false} NestedSumColumn(q: Sparse, d: Sparse)
    requires WellFormed(q) && WellFormed(d) && d.indices != []
    ensures NestedSum(q, d) == Row(d.indices[0], d.values[0], q) + NestedSum(q, Tail(d))
    decreases |q.indices|
  {
    if q.indices != [] {
      NestedSumColumn(Tail(q), d);
    }
  }

  lemma {:induction false} NestedSumSymmetric(q: Sparse, d: Sparse)
    requires WellFormed(q) && WellFormed(d)
    ensures NestedSum(q, d) == NestedSum(d, q)
    decreases |d.indices|
  {
    if d.indices == [] {
      NestedSumEmpty(q, d);
    } else {
      NestedSumColumn(q, d);
      NestedSumSymmetric(q, Tail(d));
    }
  }

  /** ... and for every query with ascending ids exactly when the document's own ids ascend. */
  lemma MergeRightIffDocumentAscends(d: Sparse)
    requires WellFormed(d) && Distinct(d.indices)
    requires forall i :: 0 <= i < |d.values| ==> d.values[i] != 0.0
    ensures (forall q: Sparse :: WellFormed(q) && Ascending(q.indices) ==> Merge(q, d) == NestedSum(q, d))
            <==> Ascending(d.indices)
  {
    MergeRightIffAscending(d);
    forall q: Sparse | WellFormed(q)
      ensures Merge(q, d) == Merge(d, q) && NestedSum(q, d) == NestedSum(d, q)
    {
      MergeSymmetric(q, d);
      NestedSumSymmetric(q, d);
    }
  }

  /** The default "dict" format orders terms by descending weight. Two such vectors with
      the same two terms can meet in one of them only: the merge loses the other. */
  lemma MergeLosesWeightOrderedTerms()
    ensures var q, d := Sparse([7, 3], [2.0, 1.0]), Sparse([3, 7], [2.0, 1.0]);
            Merge(q, d) == 2.0 && NestedSum(q, d) == 4.0
  {
    var q, d := Sparse([7, 3], [2.0, 1.0]), Sparse([3, 7], [2.0, 1.0]);
    assert Tail(d) == Sparse([7], [1.0]) && Tail(q) == Sparse([3], [1.0]);
    assert Tail(Tail(d)) == Sparse([], []) == Tail(Tail(q));
    assert Row(7, 2.0, d) == 2.0;
    assert Row(3, 1.0, d) == 2.0;
  }

  /* ---- The dictionary form ---- */

  function Lookup(q: map<int, real>, id: int): real {
    if id in q then q[id] else 0.0
  }

  /** sum(q.get(id, 0.0) * w for id, w in d.items()) */
  function DictSum(q: map<int, real>, d: Sparse): real
    requires WellFormed(d)
    decreases |d.indices|
  {
    if d.indices == [] then 0.0
    else Product(Lookup(q, d.indices[0]), d.values[0]) + DictSum(q, Tail(d))
  }

  function ToDict(v: Sparse): (m: map<int, real>)
    requires WellFormed(v)
    ensures forall id :: id in m <==> id in v.indices
    decreases |v.indices|
  {
    if v.indices == [] then map[] else ToDict(Tail(v))[v.indices[0] := v.values[0]]
  }

  lemma {:induction false} NestedSumIsDictSum(q: Sparse, d: Sparse)
    requires WellFormed(q) && WellFormed(d) && Distinct(q.indices)
    ensures NestedSum(q, d) == DictSum(ToDict(q), d)
    decreases |q.indices|
  {
    if q.indices == [] {
      NoKeys(d);
    } else {
      NestedSumIsDictSum(Tail(q), d);
      ExtendDict(ToDict(Tail(q)), q.indices[0], q.values[0], d);
    }
  }

  lemma {:induction false} NoKeys(d: Sparse)
    requires WellFormed(d)
    ensures DictSum(map[], d) == 0.0
    decreases |d.indices|
  {
    if d.indices != [] {
      NoKeys(Tail(d));
    }
  }

  lemma ZeroTimes(w: real)
    ensures Product(0.0, w) == 0.0
  {
  }

  lemma {:induction false} ExtendDict(m: map<int, real>, id: int, weight: real, d: Sparse)
    requires WellFormed(d) && id !in m
    ensures DictSum(m[id := weight], d) == Row(id, weight, d) + DictSum(m, d)
    decreases |d.indices|
  {
    if d.indices != [] {
      var other, w := d.indices[0], d.values[0];
      ExtendDict(m, id, weight, Tail(d));
      if other == id {
        assert Lookup(m[id := weight], other) == weight && Lookup(m, other) == 0.0;
        ZeroTimes(w);
      } else {
        assert Lookup(m[id := weight], other) == Lookup(m, other);
      }
    }
  }

  /* ---- The dense form ---- */

  predicate InVocabulary(ids: seq<int>, vocab: nat) {
    forall i :: 0 <= i < |ids| ==> 0 <= ids[i] < vocab
  }

  function Zeros(vocab: nat): (z: seq<real>)
    ensures |z| == vocab && forall i :: 0 <= i < vocab ==> z[i] == 0.0
  {
    seq(vocab, _ => 0.0)
  }

  /** The weights written at their ids in a zero vector over the vocabulary. */
  function Scatter(v: Sparse, vocab: nat): (dense: seq<real>)
    requires WellFormed(v) && InVocabulary(v.indices, vocab)
    ensures |dense| == vocab
    ensures forall id :: 0 <= id < vocab && id !in v.indices ==> dense[id] == 0.0
    decreases |v.indices|
  {
    if v.indices == [] then Zeros(vocab)
    else Scatter(Tail(v), vocab)[v.indices[0] := v.values[0]]
  }

  function Weighted(weight: real, y: seq<real>, id: int): real
    requires 0 <= id < |y|
  {
    Product(weight, y[id])
  }

  lemma {:induction false} DenseUpdate(x: seq<real>, y: seq<real>, id: nat, weight: real, n: nat)
    requires |x| == |y| && id < |x| && n <= |x| && x[id] == 0.0
    ensures Similarity.DotUpTo(x[id := weight], y, n)
            == Similarity.DotUpTo(x, y, n) + if id < n then Weighted(weight, y, id) else 0.0
  {
    if n > 0 {
      DenseUpdate(x, y, id, weight, n - 1);
    }
  }

  lemma {:induction false} DenseZeros(y: seq<real>, n: nat)
    requires n <= |y|
    ensures Similarity.DotUpTo(Zeros(|y|), y, n) == 0.0
  {
    if n > 0 {
      DenseZeros(y, n - 1);
    }
  }

  lemma TailKeeps(d: Sparse, vocab: nat)
    requires WellFormed(d) && Distinct(d.indices) && InVocabulary(d.indices, vocab) && d.indices != []
    ensures Distinct(Tail(d).indices) && InVocabulary(Tail(d).indices, vocab)
    ensures d.indices[0] !in Tail(d).indices
  {
  }

  lemma ScatterStep(d: Sparse, vocab: nat, id: int)
    requires WellFormed(d) && InVocabulary(d.indices, vocab) && 0 <= id < vocab && d.indices != []
    ensures Scatter(d, vocab)[id] == if d.indices[0] == id then d.values[0] else Scatter(Tail(d), vocab)[id]
  {
  }

  lemma {:induction false} RowIsScattered(id: int, weight: real, d: Sparse, vocab: nat)
    requires WellFormed(d) && Distinct(d.indices) && InVocabulary(d.indices, vocab) && 0 <= id < vocab
    ensures Row(id, weight, d) == Weighted(weight, Scatter(d, vocab), id)
    decreases |d.indices|
  {
    if d.indices != [] {
      ScatterStep(d, vocab, id);
      TailKeeps(d, vocab);
      if d.indices[0] == id {
        RowOutside(id, weight, Tail(d));
      } else {
        RowIsScattered(id, weight, Tail(d), vocab);
      }
    }
  }

  lemma {:induction false} NestedSumIsDense(q: Sparse, d: Sparse, vocab: nat)
    requires WellFormed(q) && WellFormed(d) && Distinct(q.indices) && Distinct(d.indices)
    requires InVocabulary(q.indices, vocab) && InVocabulary(d.indices, vocab)
    ensures NestedSum(q, d) == Similarity.Dot(Scatter(q, vocab), Scatter(d, vocab))
    decreases |q.indices|
  {
    var y := Scatter(d, vocab);
    if q.indices == [] {
      DenseZeros(y, vocab);
    } else {
      NestedSumIsDense(Tail(q), d, vocab);
      DenseStep(q, d, vocab);
    }
  }

  lemma DenseStep(q: Sparse, d: Sparse, vocab: nat)
    requires WellFormed(q) && WellFormed(d) && Distinct(q.indices) && Distinct(d.indices)
    requires InVocabulary(q.indices, vocab) && InVocabulary(d.indices, vocab) && q.indices != []
    ensures Similarity.Dot(Scatter(q, vocab), Scatter(d, vocab))
            == Similarity.Dot(Scatter(Tail(q), vocab), Scatter(d, vocab)) + Row(q.indices[0], q.values[0], d)
  {
    var x, y, id, weight := Scatter(Tail(q), vocab), Scatter(d, vocab), q.indices[0], q.values[0];
    assert x[id] == 0.0 && Scatter(q, vocab) == x[id := weight];
    RowIsScattered(id, weight, d, vocab);
    DenseUpdate(x, y, id, weight, vocab);
    assert |x| == |y| == vocab;
  }

  /** On ascending ids all four forms agree: merge, nested loops, dictionary and dense. */
  lemma AllFormsAgree(q: Sparse, d: Sparse, vocab: nat)
    requires WellFormed(q) && WellFormed(d) && Ascending(q.indices) && Ascending(d.indices)
    requires InVocabulary(q.indices, vocab) && InVocabulary(d.indices, vocab)
    ensures Merge(q, d) == NestedSum(q, d) == DictSum(ToDict(q), d)
            == Similarity.Dot(Scatter(q, vocab), Scatter(d, vocab))
  {
    MergeIsNestedSum(q, d);
    NestedSumIsDictSum(q, d);
    NestedSumIsDense(q, d, vocab);
  }
}
