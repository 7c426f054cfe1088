/** The embedding cache of include/libembedding/detail/embedding_cache_impl.hpp, and its use
    by lembed_text_embedding_embed (text_embedding_impl.hpp) and lembed_reranker_rerank
    (reranker_impl.hpp).

    The cache is modelled between two calls, as one thread sees it. The clock is a parameter.
 */
module LruCache {
  import opened Options
  import opened Recency
  import opened Sequences
  import BatchLayout

  datatype Entry = Entry(vec: seq<real>, expiresAt: int)

  class Cache {
    const capacity: nat
    const ttl: int
    var order: seq<string>
    var entries: map<string, Entry>

    constructor (capacity: nat, ttl: int)
      ensures this.capacity == capacity && this.ttl == ttl
      ensures Valid() && order == [] && entries == map[]
    {
      this.capacity, this.ttl := capacity, ttl;
      order, entries := [], map[];
    }

    /** The list, most recently used first, holds exactly the keys of the map. */
    ghost predicate Valid()
      reads this
    {
      && Distinct(order)
      && (forall k :: k in order <==> k in entries)
      && |order| <= capacity
    }

    predicate Live(key: string, now: int)
      reads this
    {
      key in entries && !(ttl > 0 && now > entries[key].expiresAt)
    }

    /** Looks a key up, drops it if it has expired, else makes it the most recent one. */
    method Touch(key: string, now: int) returns (found: Option<Entry>)
      requires Valid()
      modifies this
      ensures Valid()
      ensures found.Some? <==> key in old(entries) && (ttl <= 0 || now <= old(entries)[key].expiresAt)
      ensures found == if old(Live(key, now)) then Some(old(entries)[key]) else None
      ensures old(Live(key, now)) ==> entries == old(entries) && order == ToFront(old(order), key)
      ensures !old(Live(key, now)) ==> entries == old(entries) - {key} && order == Without(old(order), key)
    {
      if key !in entries {
        assert entries - {key} == entries;
        return None;
      }
      WithoutDistinct(order, key);
      if ttl > 0 && now > entries[key].expiresAt {
        order := Without(order, key);
        entries := entries - {key};
        return None;
      }
      order := ToFront(order, key);
      return Some(entries[key]);
    }

    /** The vector overload of get_copy: an empty vector counts as a miss. */
    method GetCopy(key: string, now: int) returns (out: Option<seq<real>>)
      requires Valid()
      modifies this
      ensures Valid()
      ensures out.Some? <==> key in old(entries) && (ttl <= 0 || now <= old(entries)[key].expiresAt) && old(entries)[key].vec != []
      ensures out.Some? ==> out.value == old(entries)[key].vec
      ensures old(Live(key, now)) ==> entries == old(entries) && order == ToFront(old(order), key)
      ensures !old(Live(key, now)) ==> entries == old(entries) - {key} && order == Without(old(order), key)
    {
      var found := Touch(key, now);
      match found
      case None => return None;
      case Some(entry) => return if entry.vec == [] then None else Some(entry.vec);
    }

    /** remove_by_iterator(*last): drops the least recently used entry. */
    method EvictLast()
      requires Valid() && order != []
      modifies this
      ensures Valid()
      ensures order == old(order)[..|old(order)| - 1] && entries == old(entries) - {old(order)[|old(order)| - 1]}
    {
      DropLast(order);
      entries := entries - {order[|order| - 1]};
      order := order[..|order| - 1];
    }

    method Refresh(key: string, entry: Entry)
      requires Valid() && key in entries
      modifies this
      ensures Valid() && entries == old(entries)[key := entry] && order == ToFront(old(order), key)
    {
      WithoutDistinct(order, key);
      entries := entries[key := entry];
      order := ToFront(order, key);
    }

    method Add(key: string, entry: Entry)
      requires Valid() && key !in entries && |order| < capacity
      modifies this
      ensures Valid() && entries == old(entries)[key := entry] && order == [key] + old(order)
    {
      order := [key] + order;
      entries := entries[key := entry];
    }

    /** Stores a value as the most recent one; on a full cache the least recently used
        entry, and no other, makes room. */
    method Put(key: string, vec: seq<real>, now: int)
      requires Valid()
      modifies this
      ensures Valid()
      ensures capacity == 0 ==> entries == old(entries) && order == old(order)
      ensures capacity > 0 ==> order == Inserted(old(order), capacity, key)
      ensures capacity > 0 ==>
                var kept := if key !in old(entries) && |old(order)| == capacity
                            then old(entries) - {old(order)[capacity - 1]} else old(entries);
                entries == kept[key := Entry(vec, if ttl > 0 then now + ttl else 0)]
    {
      if capacity == 0 {
        return;
      }
      var entry := Entry(vec, if ttl > 0 then now + ttl else 0);
      if key in entries {
        Refresh(key, entry);
        return;
      }
      if |order| >= capacity {
        EvictLast();
      }
      Add(key, entry);
    }
  }

  /** A stored vector is found again until its time is up: for as many ticks as the cache keeps
      entries, for ever if it keeps them for no set time, and never with capacity 0. */
  method PutThenGet(cache: Cache, key: string, vec: seq<real>, now: int, later: int) returns (out: Option<seq<real>>)
    requires cache.Valid() && vec != [] && (cache.capacity > 0 || key !in cache.entries)
    modifies cache
    ensures out == if cache.capacity > 0 && (cache.ttl <= 0 || later - now <= cache.ttl) then Some(vec) else None
  {
    cache.Put(key, vec, now);
    out := cache.GetCopy(key, later);
  }

  /* ---- Embedding through the cache ---- */

  class CachedEmbedder {
    const cache: Cache
    const dim: nat
    const model: string -> seq<real>
    const batchSize: int
    const llama: bool
    var hits: nat
    var misses: nat
    var textsEmbedded: nat
    var batchesRun: nat
    var calls: nat

    constructor (cache: Cache, model: string -> seq<real>, dim: nat, batchSize: int, llama: bool)
      requires dim > 0 && (forall t :: |model(t)| == dim) && cache.Valid() && cache.entries == map[] && batchSize > 0
      ensures this.cache == cache && Valid() && this.model == model && this.batchSize == batchSize && this.llama == llama
      ensures hits == misses == textsEmbedded == batchesRun == calls == 0
    {
      this.cache, this.model, this.dim, this.batchSize, this.llama := cache, model, dim, batchSize, llama;
      hits, misses, textsEmbedded, batchesRun, calls := 0, 0, 0, 0, 0;
    }

    /** Every cached vector is what the model says for its key. */
    ghost predicate Valid()
      reads this, cache
    {
      && dim > 0 && batchSize > 0 && (forall t :: |model(t)| == dim)
      && cache.Valid()
      && forall k :: k in cache.entries ==> cache.entries[k].vec == model(k)
    }

    predicate Served(texts: seq<string>, rows: seq<seq<real>>, i: nat) {
      i < |texts| && i < |rows| && rows[i] == model(texts[i])
    }

    /** Looks one text up, and counts it as a hit or as a miss. */
    method LookUp(text: string, now: int) returns (row: Option<seq<real>>)
      requires Valid()
      modifies this`hits, this`misses, cache
      ensures Valid() && (row.Some? ==> row.value == model(text))
      ensures hits == old(hits) + (if row.Some? then 1 else 0) && misses == old(misses) + (if row.Some? then 0 else 1)
      ensures cache.ttl == 0 ==>
                && (row.Some? <==> text in old(cache.order))
                && cache.order == if text in old(cache.order) then ToFront(old(cache.order), text) else old(cache.order)
    {
      var copy := cache.GetCopy(text, now);
      if copy.Some? && |copy.value| == dim {
        hits := hits + 1;
        return copy;
      }
      misses := misses + 1;
      return None;
    }

    /** The first i texts are looked up: served, or noted as missing. */
    ghost predicate LookedUpTo(texts: seq<string>, rows: seq<seq<real>>, missing: seq<nat>, i: nat) {
      && |rows| == |texts| && |missing| <= i <= |texts|
      && (forall n :: 0 <= n < |missing| ==> missing[n] < i)
      && forall j :: 0 <= j < i && j !in missing ==> Served(texts, rows, j)
    }

    lemma NextHit(texts: seq<string>, rows: seq<seq<real>>, missing: seq<nat>, i: nat)
      requires i < |texts| && LookedUpTo(texts, rows, missing, i)
      ensures LookedUpTo(texts, rows[i := model(texts[i])], missing, i + 1)
    {
      var updated := rows[i := model(texts[i])];
      forall j | 0 <= j <= i && j !in missing ensures Served(texts, updated, j) {
        assert j < i ==> Served(texts, rows, j);
      }
    }

    lemma NextMiss(texts: seq<string>, rows: seq<seq<real>>, missing: seq<nat>, i: nat)
      requires i < |texts| && LookedUpTo(texts, rows, missing, i)
      ensures LookedUpTo(texts, rows, missing + [i], i + 1)
    {
      assert (missing + [i])[|missing|] == i;
      forall j | 0 <= j <= i && j !in missing + [i] ensures Served(texts, rows, j) {
        assert j !in missing;
      }
    }

    /** The first loop: copies the hits into their rows and collects the positions of the misses. */
    method LookUpAll(texts: seq<string>, now: int) returns (rows: seq<seq<real>>, missing: seq<nat>)
      requires Valid()
      modifies this`hits, this`misses, cache
      ensures Valid() && LookedUpTo(texts, rows, missing, |texts|)
      ensures hits == old(hits) + |texts| - |missing| && misses == old(misses) + |missing|
      ensures cache.ttl == 0 ==> cache.order == LookedUp(old(cache.order), texts)
                                 && missing == Missed(old(cache.order), texts)
    {
      rows := seq(|texts|, _ => []);
      missing := [];
      for i := 0 to |texts|
        invariant Valid() && LookedUpTo(texts, rows, missing, i)
        invariant hits == old(hits) + i - |missing| && misses == old(misses) + |missing|
        invariant cache.ttl == 0 ==> cache.order == LookedUp(old(cache.order), texts[..i])
                                     && missing == Missed(old(cache.order), texts[..i])
      {
        assert texts[..i + 1] == texts[..i] + [texts[i]];
        LookUpStep(old(cache.order), texts[..i], texts[i]);
        LookedUpKeeps(old(cache.order), texts[..i]);
        var row := LookUp(texts[i], now);
        NextHit(texts, rows, missing, i);
        NextMiss(texts, rows, missing, i);
        match row
        case Some(vec) => rows := rows[i := vec];
        case None => missing := missing + [i];
      }
      assert texts[..|texts|] == texts;
    }

    /** Served are all the texts that were not missing, and the first k of the others. */
    ghost predicate FilledTo(texts: seq<string>, rows: seq<seq<real>>, missing: seq<nat>, k: nat) {
      && |rows| == |texts| && k <= |missing|
      && (forall n :: 0 <= n < |missing| ==> missing[n] < |texts|)
      && forall j :: 0 <= j < |texts| && (j !in missing || j in missing[..k]) ==> Served(texts, rows, j)
    }

    lemma NextFill(texts: seq<string>, rows: seq<seq<real>>, missing: seq<nat>, k: nat)
      requires k < |missing| && FilledTo(texts, rows, missing, k)
      ensures FilledTo(texts, rows[missing[k] := model(texts[missing[k]])], missing, k + 1)
    {
      var i := missing[k];
      var updated := rows[i := model(texts[i])];
      assert missing[..k + 1] == missing[..k] + [i];
      forall j | 0 <= j < |texts| && (j !in missing || j in missing[..k + 1]) ensures Served(texts, updated, j) {
        assert j != i ==> Served(texts, rows, j);
      }
    }

    method Store(text: string, now: int)
      requires Valid()
      modifies cache
      ensures Valid()
      ensures cache.order == if cache.capacity == 0 then old(cache.order)
                             else Inserted(old(cache.order), cache.capacity, text)
    {
      cache.Put(text, model(text), now);
    }

    /** The second loop: fills and stores one row per miss, from one run of the model over the misses. */
    method FillMisses(texts: seq<string>, missing: seq<nat>, hitRows: seq<seq<real>>, now: int)
      returns (rows: seq<seq<real>>)
      requires Valid() && LookedUpTo(texts, hitRows, missing, |texts|)
      modifies cache
      ensures Valid() && |rows| == |texts|
      ensures forall j :: 0 <= j < |texts| ==> Served(texts, rows, j)
      ensures cache.order == Stored(old(cache.order), cache.capacity, texts, missing)
    {
      rows := hitRows;
      for k := 0 to |missing|
        invariant Valid() && FilledTo(texts, rows, missing, k)
        invariant cache.order == Stored(old(cache.order), cache.capacity, texts, missing[..k])
      {
        var i := missing[k];
        assert missing[..k + 1] == missing[..k] + [i];
        NextFill(texts, rows, missing, k);
        rows := rows[i := model(texts[i])];
        Store(texts[i], now);
      }
      assert missing[..|missing|] == missing;
    }

    /** The number of model runs that so many misses take. */
    function BatchesFor(misses: nat, batchSize: int): nat
      requires this.batchSize > 0
    {
      if llama then (if misses == 0 then 0 else 1)
      else BatchLayout.BatchCount(misses, if batchSize <= 0 then this.batchSize else batchSize)
    }

    /** One for the llama backend; for the other one as many batches as the misses fill, of the
        wanted size or, without one, of the size set for the embedder. */
    lemma BatchesForIs(misses: nat, batchSize: int)
      requires this.batchSize > 0
      ensures var size, k := if batchSize <= 0 then this.batchSize else batchSize, BatchesFor(misses, batchSize);
              if misses == 0 then k == 0 else if llama then k == 1 else (k - 1) * size < misses <= k * size
    {
      if misses > 0 && !llama {
        BatchLayout.CeilingDivision(misses, if batchSize <= 0 then this.batchSize else batchSize);
      }
    }

    /** Hits first, then one model run over the misses, which may fail. Whatever the capacity,
        the expiry times and the state of the cache, a successful result is that of the model
        alone; a call without misses cannot fail; and a failing call stores nothing, leaves
        all counters but hits and misses alone, and still counts those. */
    method Embed(texts: seq<string>, batchSize: int, modelRuns: bool, now: int, later: int)
      returns (status: BatchLayout.Status, rows: seq<seq<real>>)
      requires Valid()
      modifies this, cache
      ensures Valid()
      ensures texts == [] ==> status.InvalidArgument? && unchanged(this) && unchanged(cache)
      ensures texts != [] ==> status == if modelRuns || misses == old(misses) then BatchLayout.Ok else BatchLayout.RuntimeError
      ensures hits + misses == old(hits) + old(misses) + |texts| && misses >= old(misses)
      ensures status.Ok? ==> |rows| == |texts| && forall i :: 0 <= i < |texts| ==> rows[i] == model(texts[i])
      ensures status.Ok? ==>
                && textsEmbedded == old(textsEmbedded) + |texts| && calls == old(calls) + 1
                && batchesRun == old(batchesRun) + BatchesFor(misses - old(misses), batchSize)
      ensures !status.Ok? ==> unchanged(this`textsEmbedded) && unchanged(this`batchesRun) && unchanged(this`calls)
      ensures cache.ttl == 0 ==>
                && hits == old(hits) + BatchHits(old(cache.order), texts)
                && cache.order == if status.Ok? then AccessBatch(old(cache.order), cache.capacity, texts)
                                  else LookedUp(old(cache.order), texts)
    {
      rows := [];
      if texts == [] {
        return BatchLayout.InvalidArgument, [];
      }
      var missing;
      rows, missing := LookUpAll(texts, now);
      if missing != [] && !modelRuns {
        return BatchLayout.RuntimeError, [];
      }
      rows := FillMisses(texts, missing, rows, later);
      forall i | 0 <= i < |texts| ensures rows[i] == model(texts[i]) {
        assert Served(texts, rows, i);
      }
      textsEmbedded := textsEmbedded + |texts|;
      batchesRun := batchesRun + BatchesFor(|missing|, batchSize);
      calls := calls + 1;
      status := BatchLayout.Ok;
    }
  }

  /* ---- Capacity and hits ---- */

  /** For keys that are texts: calls of up to two texts are safe, calls of three are not. */
  lemma CapacityNeverHurtsTextsIff(n: nat)
    ensures CapacityNeverHurts<string>(n) <==> n <= 2
  {
    var keys := ["a", "b", "x", "y"];
    assert "a"[0] == 'a' && "b"[0] == 'b' && "x"[0] == 'x' && "y"[0] == 'y';
    assert Distinct(keys);
    CapacityNeverHurtsIff(n, keys[0], keys[1], keys[2], keys[3]);
  }

  /* ---- The reranker's keys ---- */

  /** The reranker caches the score of (query, document) under query + newline + document. */
  function RerankKey(query: string, document: string): string { query + "\n" + document }

  /** Two different pairs share a key exactly when one query is the other one continued
      over a newline into its document. */
  lemma SharedKeyIff(q: string, d: string, q': string, d': string)
    requires |q| <= |q'|
    ensures RerankKey(q, d) == RerankKey(q', d') && (q != q' || d != d')
            <==> exists rest: string :: q' == q + "\n" + rest && d == rest + "\n" + d'
  {
    var k, k' := RerankKey(q, d), RerankKey(q', d');
    if k == k' && (q != q' || d != d') {
      assert q == k[..|q|] == k'[..|q|] == q'[..|q|];
      assert d == k[|q| + 1..] && d' == k'[|q'| + 1..];
      assert |q| < |q'|;
      var rest := q'[|q| + 1..];
      assert q'[|q|] == k'[|q|] == k[|q|] == '\n';
      assert q' == q + "\n" + rest;
      assert d == k'[|q| + 1..] == rest + "\n" + d';
    }
    if rest: string :| q' == q + "\n" + rest && d == rest + "\n" + d' {
      assert k == q + "\n" + rest + "\n" + d' == k';
    }
  }

  /** Queries without a newline never share a key. */
  lemma NewlineFreeKeysInjective(q: string, d: string, q': string, d': string)
    requires '\n' !in q && '\n' !in q' && RerankKey(q, d) == RerankKey(q', d')
    ensures q == q' && d == d'
  {
    var k := RerankKey(q, d);
    NewlineAt(q, d);
    NewlineAt(q', d');
    assert q == k[..|q|] && q' == k[..|q'|] && d == k[|q| + 1..] && d' == k[|q'| + 1..];
    assert forall i :: 0 <= i < |q| ==> k[i] == q[i];
    assert forall i :: 0 <= i < |q'| ==> k[i] == q'[i];
    assert |q| == |q'|;
  }

  lemma NewlineAt(query: string, document: string)
    ensures RerankKey(query, document)[|query|] == '\n'
  {
  }
}
