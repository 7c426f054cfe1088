/** The batched embedding loops of include/libembedding/image_embedding.h and
    sparse_text_embedding.h, over the batch ranges of include/libembedding/detail/batch.hpp.

    Inference is row-wise: an item either encodes to a row of `dim` cells, whatever the
    batch it is in, or makes the call throw. For images a cell is a number; a sparse
    embedding is a row of a single cell, the pruned sparse vector.
 */
module BatchLayout {
  import opened Options

  datatype Status = Ok | InvalidArgument | RuntimeError

  /* ---- Batch ranges ---- */

  function Effective(total: nat, batchSize: int): int {
    if batchSize <= 0 then total else batchSize
  }

  function BatchCount(total: nat, batchSize: int): nat
    requires total > 0 || batchSize > 0
  {
    (total + Effective(total, batchSize) - 1) / Effective(total, batchSize)
  }

  function BatchStart(index: nat, total: nat, batchSize: int): nat { index * Effective(total, batchSize) }

  function BatchEnd(index: nat, total: nat, batchSize: int): int {
    var end := BatchStart(index, total, batchSize) + Effective(total, batchSize);
    if end < total then end else total
  }

  lemma CeilingDivision(n: nat, b: nat)
    requires b > 0 && n > 0
    ensures var k := (n + b - 1) / b; k > 0 && (k - 1) * b < n <= k * b
  {
    var k := (n + b - 1) / b;
    assert k * b <= n + b - 1 < k * b + b;
    assert (k - 1) * b == k * b - b;
  }

  lemma NatProduct(a: nat, b: nat)
    ensures a * b >= 0
  {
  }

  lemma TimesOrder(a: nat, b: nat, c: nat)
    requires a <= b
    ensures a * c <= b * c
    ensures a < b ==> a * c + c <= b * c
  {
    if a < b {
      NatProduct(b - a - 1, c);
      assert b * c == a * c + c + (b - a - 1) * c;
    }
  }

  /** The ranges follow one another without gap or overlap, none is empty, and together
      they are [0, total). */
  lemma BatchesPartition(total: nat, batchSize: int)
    requires total > 0
    ensures var k := BatchCount(total, batchSize);
            && k > 0
            && BatchStart(0, total, batchSize) == 0
            && BatchEnd(k - 1, total, batchSize) == total
            && (forall i :: 0 <= i < k ==> BatchStart(i, total, batchSize) < BatchEnd(i, total, batchSize) <= total)
            && (forall i :: 0 <= i < k - 1 ==> BatchEnd(i, total, batchSize) == BatchStart(i + 1, total, batchSize))
  {
    var b := Effective(total, batchSize);
    var k := BatchCount(total, batchSize);
    CeilingDivision(total, b);
    assert (k - 1) * b + b == k * b;
    forall i: nat | i < k
      ensures BatchStart(i, total, batchSize) < BatchEnd(i, total, batchSize) <= total
      ensures i < k - 1 ==> BatchEnd(i, total, batchSize) == BatchStart(i + 1, total, batchSize)
    {
      TimesOrder(i, k - 1, b);
      assert (i + 1) * b == i * b + b;
    }
  }

  /** What the first k batches cover. */
  function Covered(k: nat, total: nat, batchSize: int): int {
    if k == 0 then 0 else BatchEnd(k - 1, total, batchSize)
  }

  lemma NextBatch(k: nat, total: nat, batchSize: int)
    requires total > 0 && k < BatchCount(total, batchSize)
    ensures Covered(k, total, batchSize) == BatchStart(k, total, batchSize)
    ensures 0 <= Covered(k, total, batchSize) < Covered(k + 1, total, batchSize) <= total
  {
    BatchesPartition(total, batchSize);
  }

  /* ---- Rows ---- */

  type Encoder<!Item, R> = Item -> Option<seq<R>>

  ghost predicate RowsHave<Item(!new), R>(encode: Encoder<Item, R>, dim: nat) {
    forall x :: encode(x).Some? ==> |encode(x).value| == dim
  }

  predicate Encodable<Item, R>(encode: Encoder<Item, R>, items: seq<Item>) {
    forall i :: 0 <= i < |items| ==> encode(items[i]).Some?
  }

  /** The rows of the items, one after the other. */
  function Flat<Item, R>(encode: Encoder<Item, R>, items: seq<Item>): seq<R>
    requires Encodable(encode, items)
  {
    if items == [] then []
    else Flat(encode, items[..|items| - 1]) + encode(items[|items| - 1]).value
  }

  lemma {:induction false} FlatConcat<Item, R>(encode: Encoder<Item, R>, a: seq<Item>, b: seq<Item>)
    requires Encodable(encode, a) && Encodable(encode, b)
    ensures Encodable(encode, a + b) && Flat(encode, a + b) == Flat(encode, a) + Flat(encode, b)
  {
    if b == [] {
      assert a + b == a;
    } else {
      var c := b[..|b| - 1];
      assert (a + b)[..|a + b| - 1] == a + c;
      FlatConcat(encode, a, c);
    }
  }

  lemma {:induction false} FlatLength<Item(!new), R>(encode: Encoder<Item, R>, items: seq<Item>, dim: nat)
    requires RowsHave(encode, dim) && Encodable(encode, items)
    ensures |Flat(encode, items)| == |items| * dim
  {
    if items != [] {
      FlatLength(encode, items[..|items| - 1], dim);
      assert |items| * dim == (|items| - 1) * dim + dim;
    }
  }

  /** Row i of the flat matrix is the encoding of item i, at offset i * dim. */
  lemma RowAt<Item(!new), R>(encode: Encoder<Item, R>, items: seq<Item>, dim: nat, i: nat)
    requires RowsHave(encode, dim) && Encodable(encode, items) && i < |items|
    ensures i * dim + dim <= |Flat(encode, items)|
    ensures Flat(encode, items)[i * dim..i * dim + dim] == encode(items[i]).value
  {
    var a, b := items[..i], items[i + 1..];
    assert items == a + [items[i]] + b;
    assert (a + [items[i]])[..|a + [items[i]]| - 1] == a;
    FlatConcat(encode, a + [items[i]], b);
    FlatLength(encode, a, dim);
  }

  /* ---- The embedders ---- */

  class Embedder<Item(!new), R(0)> {
    const dim: nat
    const batchSize: int
    const encode: Encoder<Item, R>
    var textsEmbedded: nat
    var batchesRun: nat
    var calls: nat

    constructor (encode: Encoder<Item, R>, dim: nat, batchSize: int)
      requires RowsHave(encode, dim)
      ensures this.encode == encode && this.dim == dim && this.batchSize == batchSize
      ensures Valid() && textsEmbedded == batchesRun == calls == 0
    {
      this.encode, this.dim, this.batchSize := encode, dim, batchSize;
      textsEmbedded, batchesRun, calls := 0, 0, 0;
    }

    ghost predicate Valid() { RowsHave(encode, dim) }

    function Resolved(batchSize: int): int { if batchSize <= 0 then this.batchSize else batchSize }

    /** One batch through the session; None when an item cannot be processed. */
    method RunBatch(items: seq<Item>) returns (output: Option<seq<R>>)
      requires Valid()
      ensures output.Some? <==> Encodable(encode, items)
      ensures output.Some? ==> output.value == Flat(encode, items)
    {
      var rows: seq<R> := [];
      for i := 0 to |items|
        invariant Encodable(encode, items[..i]) && rows == Flat(encode, items[..i])
      {
        assert items[..i + 1][..i] == items[..i];
        match encode(items[i])
        case None => return None;
        case Some(row) => rows := rows + row;
      }
      assert items[..|items|] == items;
      return Some(rows);
    }

    /** lembed_image_embedding_embed_bytes, and lembed_sparse_text_embedding_embed with
        dim == 1: the result does not depend on the batch size; the counters grow by the
        items and by the batches of this call. */
    method EmbedBytes(items: seq<Item>, batchSize: int) returns (status: Status, data: array?<R>)
      requires Valid()
      modifies this
      ensures items == [] ==> status == InvalidArgument
      ensures items != [] ==> status == if Encodable(encode, items) then Ok else RuntimeError
      ensures status == Ok <==> data != null
      ensures status == Ok ==> data[..] == Flat(encode, items)
      ensures status != Ok ==> unchanged(this)
      ensures status == Ok ==>
                && textsEmbedded == old(textsEmbedded) + |items|
                && batchesRun == old(batchesRun) + BatchCount(|items|, Resolved(batchSize))
                && calls == old(calls) + 1
    {
      if items == [] {
        return InvalidArgument, null;
      }
      status, data := FillRows(items, Resolved(batchSize));
      if status == Ok {
        textsEmbedded := textsEmbedded + |items|;
        batchesRun := batchesRun + BatchCount(|items|, Resolved(batchSize));
        calls := calls + 1;
      }
    }

    /** lembed_image_embedding_embed_files: the same layout, but no counter is touched. */
    method EmbedFiles(items: seq<Item>, batchSize: int) returns (status: Status, data: array?<R>)
      requires Valid()
      ensures items == [] ==> status == InvalidArgument
      ensures items != [] ==> status == if Encodable(encode, items) then Ok else RuntimeError
      ensures status == Ok <==> data != null
      ensures status == Ok ==> data[..] == Flat(encode, items)
    {
      if items == [] {
        return InvalidArgument, null;
      }
      status, data := FillRows(items, Resolved(batchSize));
    }

    /** The first k rows are in place. */
    ghost predicate Filled(buffer: array<R>, items: seq<Item>, k: int)
      reads buffer
    {
      && 0 <= k <= |items| && Encodable(encode, items[..k])
      && k * dim <= buffer.Length && buffer[..k * dim] == Flat(encode, items[..k])
    }

    /** The batch loop: every batch is copied behind the rows already written. */
    method FillRows(items: seq<Item>, batchSize: int) returns (status: Status, data: array?<R>)
      requires Valid() && items != []
      ensures status == if Encodable(encode, items) then Ok else RuntimeError
      ensures status == Ok <==> data != null
      ensures status == Ok ==> data[..] == Flat(encode, items)
    {
      var n := |items|;
      var buffer := new R[n * dim];
      var outOffset := 0;
      var numBatches := BatchCount(n, batchSize);
      assert Filled(buffer, items, 0);
      for bi := 0 to numBatches
        invariant outOffset == Covered(bi, n, batchSize)
        invariant Filled(buffer, items, outOffset) && buffer.Length == n * dim && fresh(buffer)
      {
        NextBatch(bi, n, batchSize);
        var end := BatchEnd(bi, n, batchSize);
        var ok := FillBatch(buffer, items, outOffset, BatchStart(bi, n, batchSize), end);
        if !ok {
          return RuntimeError, null;
        }
        outOffset := outOffset + (end - BatchStart(bi, n, batchSize));
      }
      BatchesPartition(n, batchSize);
      AllFilled(buffer, items);
      return Ok, buffer;
    }

    lemma AllFilled(buffer: array<R>, items: seq<Item>)
      requires Filled(buffer, items, |items|) && buffer.Length == |items| * dim
      ensures Encodable(encode, items) && buffer[..] == Flat(encode, items)
    {
      assert items[..|items|] == items && buffer[..buffer.Length] == buffer[..];
    }

    /** One batch: items[start..end] through the session, rows to out_offset * dim. */
    method FillBatch(buffer: array<R>, items: seq<Item>, outOffset: nat, start: nat, end: nat) returns (ok: bool)
      requires Valid() && outOffset == start < end <= |items|
      requires Filled(buffer, items, start) && buffer.Length == |items| * dim
      modifies buffer
      ensures ok ==> Filled(buffer, items, end)
      ensures !ok ==> !Encodable(encode, items)
    {
      var batch := items[start..end];
      var output := RunBatch(batch);
      if output.None? {
        ghost var i :| 0 <= i < |batch| && encode(batch[i]).None?;
        assert encode(items[start + i]).None?;
        return false;
      }
      FlatLength(encode, batch, dim);
      Room(start, end, |items|, dim);
      CopyRows(buffer, outOffset * dim, output.value, end * dim);
      assert items[..end] == items[..start] + batch;
      FlatConcat(encode, items[..start], batch);
      return true;
    }
  }

  lemma Room(start: nat, end: nat, n: nat, dim: nat)
    requires start <= end <= n
    ensures start * dim + (end - start) * dim == end * dim <= n * dim
  {
    TimesOrder(end, n, dim);
  }

  /** memcpy of a batch of rows behind what is already there. */
  method CopyRows<R>(buffer: array<R>, at: nat, rows: seq<R>, ghost end: nat)
    requires at + |rows| == end <= buffer.Length
    modifies buffer
    ensures buffer[..end] == old(buffer[..at]) + rows
  {
    for k := 0 to |rows|
      invariant buffer[..at + k] == old(buffer[..at]) + rows[..k]
    {
      buffer[at + k] := rows[k];
    }
  }

  /* ---- Counters over many calls ---- */

  datatype Call<Item> = Call(items: seq<Item>, batchSize: int)

  function ItemsIn<Item>(calls: seq<Call<Item>>): nat {
    if calls == [] then 0 else ItemsIn(calls[..|calls| - 1]) + |calls[|calls| - 1].items|
  }

  function BatchesIn<Item>(calls: seq<Call<Item>>, defaultSize: int): nat
    requires forall i :: 0 <= i < |calls| ==> calls[i].items != []
  {
    if calls == [] then 0
    else
      var last := calls[|calls| - 1];
      BatchesIn(calls[..|calls| - 1], defaultSize)
      + BatchCount(|last.items|, if last.batchSize <= 0 then defaultSize else last.batchSize)
  }

  /** After any sequence of successful calls the counters are the sums over the calls. */
  method EmbedMany<Item(!new), R(0)>(embedder: Embedder<Item, R>, calls: seq<Call<Item>>)
    requires embedder.Valid()
    requires forall i :: 0 <= i < |calls| ==> calls[i].items != [] && Encodable(embedder.encode, calls[i].items)
    modifies embedder
    ensures embedder.textsEmbedded == old(embedder.textsEmbedded) + ItemsIn(calls)
    ensures embedder.batchesRun == old(embedder.batchesRun) + BatchesIn(calls, embedder.batchSize)
    ensures embedder.calls == old(embedder.calls) + |calls|
  {
    for k := 0 to |calls|
      invariant embedder.textsEmbedded == old(embedder.textsEmbedded) + ItemsIn(calls[..k])
      invariant embedder.batchesRun == old(embedder.batchesRun) + BatchesIn(calls[..k], embedder.batchSize)
      invariant embedder.calls == old(embedder.calls) + k
    {
      var status, data := embedder.EmbedBytes(calls[k].items, calls[k].batchSize);
      assert calls[..k + 1][..k] == calls[..k];
    }
    assert calls[..|calls|] == calls;
  }

  /** Every batch but the last has the wanted size, which is the whole input when none is given,
      and there are as many batches as that takes. */
  lemma BatchSizes(total: nat, batchSize: int, i: nat)
    requires total > 0 && i < BatchCount(total, batchSize)
    ensures var size, k := if batchSize <= 0 then total else batchSize, BatchCount(total, batchSize);
            && BatchStart(0, total, batchSize) == 0 && BatchEnd(k - 1, total, batchSize) == total
            && (i < k - 1 ==> BatchEnd(i, total, batchSize) - BatchStart(i, total, batchSize) == size
                              && BatchEnd(i, total, batchSize) == BatchStart(i + 1, total, batchSize))
            && (k - 1) * size < total <= k * size
  {
    var size, k := Effective(total, batchSize), BatchCount(total, batchSize);
    CeilingDivision(total, size);
    BatchesPartition(total, batchSize);
    assert (k - 1) * size + size == k * size;
    if i < k - 1 {
      TimesOrder(i + 1, k - 1, size);
      assert (i + 1) * size == i * size + size;
    }
  }
}
