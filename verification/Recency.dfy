/** The recency list of an LRU cache, most recently used first: what looking up and storing
    keys does to it, and how the lists of two caches of different capacity compare.

    Nothing expires here. A call looks up all its keys first and then stores those that
    were missing, in the order in which they were missed.
 */
module Recency {
  import opened Sequences

  /** The place of a key in the list, or the length of the list. */
  function IndexOf<T(==)>(keys: seq<T>, key: T): (i: nat)
    ensures i <= |keys| && (i < |keys| ==> keys[i] == key)
    ensures forall j :: 0 <= j < i ==> keys[j] != key
  {
    if keys == [] || keys[0] == key then 0
    else
      var i := 1 + IndexOf(keys[1..], key);
      assert forall j :: 1 <= j < |keys| ==> keys[j] == keys[1..][j - 1];
      i
  }

  function Without<T(==, !new)>(keys: seq<T>, key: T): (r: seq<T>)
    ensures key !in keys ==> r == keys
    ensures key in keys ==> |r| == |keys| - 1
    ensures forall k :: k != key ==> (k in r <==> k in keys)
  {
    var i := IndexOf(keys, key);
    if i == |keys| then keys
    else
      assert keys == keys[..i] + [key] + keys[i + 1..];
      keys[..i] + keys[i + 1..]
  }

  lemma WithoutDistinct<T(!new)>(keys: seq<T>, key: T)
    requires Distinct(keys)
    ensures Distinct(Without(keys, key)) && key !in Without(keys, key)
  {
    var i := IndexOf(keys, key);
    var r := Without(keys, key);
    if i < |keys| {
      forall j | 0 <= j < |r| ensures r[j] == keys[if j < i then j else j + 1] {
      }
    }
  }

  function ToFront<T(==, !new)>(keys: seq<T>, key: T): seq<T> { [key] + Without(keys, key) }

  lemma ToFrontDistinct<T(!new)>(keys: seq<T>, key: T)
    requires Distinct(keys)
    ensures Distinct(ToFront(keys, key)) && forall k :: k in ToFront(keys, key) <==> k == key || k in keys
  {
    WithoutDistinct(keys, key);
  }

  /** The list after a put. */
  function Inserted<T(==, !new)>(order: seq<T>, capacity: nat, key: T): seq<T>
    requires capacity > 0
  {
    if key in order then ToFront(order, key)
    else if |order| >= capacity then [key] + order[..|order| - 1]
    else [key] + order
  }

  lemma DropLast<T(!new)>(order: seq<T>)
    requires Distinct(order) && order != []
    ensures Distinct(order[..|order| - 1])
    ensures forall k :: k in order[..|order| - 1] <==> k in order && k != order[|order| - 1]
  {
    assert order == order[..|order| - 1] + [order[|order| - 1]];
  }

  /* ---- One call ---- */

  /** The list after looking every key up in turn. */
  function LookedUp<T(==, !new)>(order: seq<T>, keys: seq<T>): seq<T> {
    if keys == [] then order
    else
      var o, last := LookedUp(order, keys[..|keys| - 1]), keys[|keys| - 1];
      if last in o then ToFront(o, last) else o
  }

  /** The positions of the keys that are not in the list. */
  function Missed<T(==)>(order: seq<T>, keys: seq<T>): (r: seq<nat>)
    ensures |r| <= |keys|
    ensures forall n :: 0 <= n < |r| ==> r[n] < |keys|
  {
    if keys == [] then []
    else
      Missed(order, keys[..|keys| - 1]) + if keys[|keys| - 1] in order then [] else [|keys| - 1]
  }

  /** The list after storing the keys at these positions in turn. */
  function Stored<T(==, !new)>(order: seq<T>, capacity: nat, keys: seq<T>, missing: seq<nat>): seq<T>
    requires forall n :: 0 <= n < |missing| ==> missing[n] < |keys|
  {
    if missing == [] || capacity == 0 then order
    else
      var last := |missing| - 1;
      Inserted(Stored(order, capacity, keys, missing[..last]), capacity, keys[missing[last]])
  }

  lemma {:induction false} LookedUpKeeps<T(!new)>(order: seq<T>, keys: seq<T>)
    ensures forall k :: k in LookedUp(order, keys) <==> k in order
  {
    if keys != [] {
      LookedUpKeeps(order, keys[..|keys| - 1]);
    }
  }

  function AccessBatch<T(==, !new)>(order: seq<T>, capacity: nat, keys: seq<T>): seq<T> {
    Stored(LookedUp(order, keys), capacity, keys, Missed(order, keys))
  }

  function BatchHits<T(==)>(order: seq<T>, keys: seq<T>): nat { |keys| - |Missed(order, keys)| }

  lemma LookUpStep<T(!new)>(order: seq<T>, keys: seq<T>, key: T)
    ensures LookedUp(order, keys + [key])
            == if key in LookedUp(order, keys) then ToFront(LookedUp(order, keys), key) else LookedUp(order, keys)
    ensures Missed(order, keys + [key]) == Missed(order, keys) + if key in order then [] else [|keys|]
  {
    assert (keys + [key])[..|keys|] == keys;
  }

  lemma StoreStep<T(!new)>(order: seq<T>, capacity: nat, keys: seq<T>, missing: seq<nat>, i: nat)
    requires capacity > 0 && i < |keys| && forall n :: 0 <= n < |missing| ==> missing[n] < |keys|
    ensures Stored(order, capacity, keys, missing + [i])
            == Inserted(Stored(order, capacity, keys, missing), capacity, keys[i])
  {
    assert (missing + [i])[..|missing|] == missing;
  }

  lemma StoreNone<T(!new)>(order: seq<T>, capacity: nat, keys: seq<T>, missing: seq<nat>)
    requires missing == [] || capacity == 0
    requires forall n :: 0 <= n < |missing| ==> missing[n] < |keys|
    ensures Stored(order, capacity, keys, missing) == order
  {
  }

  /** Keys found in one list and not in the other can only be hits of the first. */
  lemma {:induction false} MoreKeysMoreHits<T(!new)>(small: seq<T>, large: seq<T>, keys: seq<T>)
    requires forall k :: k in small ==> k in large
    ensures BatchHits(small, keys) <= BatchHits(large, keys)
  {
    if keys != [] {
      MoreKeysMoreHits(small, large, keys[..|keys| - 1]);
    }
  }

  /* ---- Calls of at most two keys are single accesses ---- */

  /** The list after one key has been looked up and, if missing, stored. */
  function Access<T(==, !new)>(order: seq<T>, capacity: nat, key: T): seq<T> {
    if key in order then ToFront(order, key)
    else if capacity == 0 then order
    else Inserted(order, capacity, key)
  }

  lemma AccessKeepsShape<T(!new)>(order: seq<T>, capacity: nat, key: T)
    requires Distinct(order) && |order| <= capacity
    ensures Distinct(Access(order, capacity, key)) && |Access(order, capacity, key)| <= capacity
  {
    WithoutDistinct(order, key);
    if key !in order && capacity > 0 && |order| == capacity {
      DropLast(order);
    }
  }

  lemma BatchOfOne<T(!new)>(order: seq<T>, capacity: nat, key: T)
    ensures AccessBatch(order, capacity, [key]) == Access(order, capacity, key)
    ensures BatchHits(order, [key]) == if key in order then 1 else 0
  {
    var none: seq<nat> := [];
    LookUpStep(order, [], key);
    assert [] + [key] == [key];
    StoreNone(order, capacity, [key], none);
    if key !in order && capacity > 0 {
      StoreStep(order, capacity, [key], none, 0);
      assert none + [0] == [0];
    }
  }

  /** A call whose first key is missing and whose second one is not treats the second one
      first; every other call of two keys treats them in their order. */
  predicate Swapped<T(==)>(order: seq<T>, a: T, b: T) { a !in order && b in order }

  function InTurn<T(==, !new)>(order: seq<T>, capacity: nat, a: T, b: T): seq<T> {
    Access(Access(order, capacity, a), capacity, b)
  }

  lemma LookUpTwo<T(!new)>(order: seq<T>, a: T, b: T)
    ensures var o := if a in order then ToFront(order, a) else order;
            LookedUp(order, [a, b]) == if b in order then ToFront(o, b) else o
    ensures Missed(order, [a, b]) == (if a in order then [] else [0]) + (if b in order then [] else [1])
  {
    LookUpStep(order, [], a);
    LookUpStep(order, [a], b);
    assert [] + [a] == [a] && [a] + [b] == [a, b];
    LookedUpKeeps(order, [a]);
  }

  lemma StoreOne<T(!new)>(order: seq<T>, capacity: nat, keys: seq<T>, missing: seq<nat>, i: nat)
    requires capacity > 0 && i < |keys| && missing == [i]
    ensures Stored(order, capacity, keys, missing) == Inserted(order, capacity, keys[i])
  {
    var none: seq<nat> := [];
    StoreStep(order, capacity, keys, none, i);
    StoreNone(order, capacity, keys, none);
    assert none + [i] == missing;
  }

  lemma StoreTwo<T(!new)>(order: seq<T>, capacity: nat, keys: seq<T>, missing: seq<nat>)
    requires capacity > 0 && |keys| == 2 && missing == [0, 1]
    ensures Stored(order, capacity, keys, missing)
            == Inserted(Inserted(order, capacity, keys[0]), capacity, keys[1])
  {
    var zero: seq<nat> := [0];
    StoreOne(order, capacity, keys, zero, 0);
    StoreStep(order, capacity, keys, zero, 1);
    assert zero + [1] == missing;
  }

  lemma NoRoom<T(!new)>(order: seq<T>, a: T, b: T)
    requires order == []
    ensures AccessBatch(order, 0, [a, b]) == order == InTurn(order, 0, a, b)
  {
    LookUpTwo(order, a, b);
    StoreNone(order, 0, [a, b], Missed(order, [a, b]));
  }

  lemma BatchOfTwo<T(!new)>(order: seq<T>, capacity: nat, a: T, b: T)
    requires |order| <= capacity
    ensures AccessBatch(order, capacity, [a, b])
            == if Swapped(order, a, b) then InTurn(order, capacity, b, a) else InTurn(order, capacity, a, b)
  {
    LookUpTwo(order, a, b);
    if capacity == 0 {
      NoRoom(order, a, b);
    } else if a in order && b in order {
      BothHit(order, capacity, a, b);
    } else if a in order {
      StoreOne(ToFront(order, a), capacity, [a, b], Missed(order, [a, b]), 1);
    } else if b in order {
      StoreOne(ToFront(order, b), capacity, [a, b], Missed(order, [a, b]), 0);
    } else {
      BothMissed(order, capacity, a, b);
    }
  }

  lemma BothHit<T(!new)>(order: seq<T>, capacity: nat, a: T, b: T)
    requires a in order && b in order
    ensures AccessBatch(order, capacity, [a, b]) == InTurn(order, capacity, a, b)
  {
    LookUpTwo(order, a, b);
    StoreNone(LookedUp(order, [a, b]), capacity, [a, b], Missed(order, [a, b]));
    assert b in ToFront(order, a);
  }

  lemma BothMissed<T(!new)>(order: seq<T>, capacity: nat, a: T, b: T)
    requires a !in order && b !in order && capacity > 0
    ensures AccessBatch(order, capacity, [a, b]) == InTurn(order, capacity, a, b)
  {
    LookUpTwo(order, a, b);
    StoreTwo(order, capacity, [a, b], Missed(order, [a, b]));
    assert a != b ==> b !in Inserted(order, capacity, a);
  }

  /* ---- Cutting a list off ---- */

  function Top<T>(order: seq<T>, n: nat): seq<T> { if |order| <= n then order else order[..n] }

  lemma CutBehind<T>(s: seq<T>, i: nat, n: nat, x: T)
    requires i < n <= |s|
    ensures ([x] + (s[..i] + s[i + 1..]))[..n] == [x] + (s[..n][..i] + s[..n][i + 1..])
  {
  }

  lemma CutBefore<T>(s: seq<T>, i: nat, n: nat, x: T)
    requires 0 < n <= i < |s|
    ensures ([x] + (s[..i] + s[i + 1..]))[..n] == [x] + s[..n - 1]
  {
  }

  lemma WithoutFromTop<T(!new)>(order: seq<T>, key: T, n: nat)
    requires key in order && n > 0
    ensures key in Top(order, n) ==> Top(ToFront(order, key), n) == ToFront(Top(order, n), key)
    ensures key !in Top(order, n) ==> Top(ToFront(order, key), n) == [key] + order[..n - 1]
  {
    var i := IndexOf(order, key);
    if n < |order| {
      var t := order[..n];
      if i < n {
        assert t[i] == key;
        SameIndex(order, t, key, i);
        CutBehind(order, i, n, key);
      } else {
        assert key !in t;
        CutBefore(order, i, n, key);
      }
    }
  }

  lemma SameIndex<T(!new)>(a: seq<T>, b: seq<T>, key: T, i: nat)
    requires i < |a| && i < |b| && IndexOf(a, key) == i && b[..i + 1] == a[..i + 1]
    ensures IndexOf(b, key) == i
  {
    assert forall j :: 0 <= j <= i ==> b[j] == b[..i + 1][j] == a[j];
  }

  /** One access keeps a smaller cache the top part of a larger one. */
  lemma AccessInclusion<T(!new)>(large: seq<T>, c: nat, d: nat, key: T)
    requires c <= d && Distinct(large) && |large| <= d
    ensures Top(Access(large, d, key), c) == Access(Top(large, c), c, key)
  {
    if c > 0 {
      if key in large {
        WithoutFromTop(large, key, c);
      }
      if key in Top(large, c) {
        assert key in large;
      }
    }
  }

  /** An access moves the key to the front and cuts the list off at the capacity. */
  lemma AccessIsCut<T(!new)>(order: seq<T>, capacity: nat, key: T)
    requires |order| <= capacity
    ensures Access(order, capacity, key) == Top(ToFront(order, key), capacity)
  {
  }

  lemma InTurnIsCut<T(!new)>(order: seq<T>, capacity: nat, a: T, b: T)
    requires Distinct(order) && |order| <= capacity
    ensures InTurn(order, capacity, a, b) == Top(ToFront(ToFront(order, a), b), capacity)
  {
    var moved := ToFront(order, a);
    ToFrontDistinct(order, a);
    AccessIsCut(order, capacity, a);
    AccessInclusion(moved, capacity, capacity + 1, b);
    AccessIsCut(moved, capacity + 1, b);
  }

  /* ---- Nested lists: every key of the small one is at most one place further down in the large one ---- */

  predicate Nested<T(==)>(small: seq<T>, large: seq<T>) {
    forall i :: 0 <= i < |small| ==> small[i] in Top(large, i + 2)
  }

  lemma NestedWithin<T>(small: seq<T>, large: seq<T>)
    requires Nested(small, large)
    ensures forall k :: k in small ==> k in large
  {
    forall k | k in small ensures k in large {
      var i :| 0 <= i < |small| && small[i] == k;
      assert small[i] in Top(large, i + 2);
    }
  }

  lemma NestedAt<T>(small: seq<T>, large: seq<T>, i: nat) returns (j: nat)
    requires Nested(small, large) && i < |small|
    ensures j < |large| && j <= i + 1 && large[j] == small[i]
  {
    assert small[i] in Top(large, i + 2);
    j :| 0 <= j < |Top(large, i + 2)| && Top(large, i + 2)[j] == small[i];
  }

  // Where the i-th key of keys without `key` comes from, and where the j-th key of keys goes to.
  lemma WithoutAt<T(!new)>(keys: seq<T>, key: T, i: nat)
    requires i < |Without(keys, key)|
    ensures var from := if i < IndexOf(keys, key) then i else i + 1;
            from < |keys| && Without(keys, key)[i] == keys[from]
  {
  }

  lemma WithoutMoves<T(!new)>(keys: seq<T>, key: T, j: nat)
    requires j < |keys| && keys[j] != key
    ensures var to := if j < IndexOf(keys, key) then j else j - 1;
            0 <= to < |Without(keys, key)| && Without(keys, key)[to] == keys[j]
  {
  }

  lemma PlaceOf<T(!new)>(keys: seq<T>, j: nat)
    requires Distinct(keys) && j < |keys|
    ensures IndexOf(keys, keys[j]) == j
  {
  }

  lemma NestedWithout<T(!new)>(small: seq<T>, large: seq<T>, key: T)
    requires Distinct(small) && Distinct(large) && Nested(small, large)
    ensures Nested(Without(small, key), Without(large, key))
  {
    var r, q := Without(small, key), Without(large, key);
    WithoutDistinct(small, key);
    forall i: nat | i < |r| ensures r[i] in Top(q, i + 2) {
      OnePlace(small, large, key, i);
    }
  }

  lemma OnePlace<T(!new)>(small: seq<T>, large: seq<T>, key: T, i: nat)
    requires Distinct(small) && Distinct(large) && Nested(small, large) && i < |Without(small, key)|
    ensures Without(small, key)[i] in Top(Without(large, key), i + 2)
  {
    var q := Without(large, key);
    var p := IndexOf(small, key);
    WithoutDistinct(small, key);
    WithoutAt(small, key, i);
    var from := if i < p then i else i + 1;
    var j := NestedAt(small, large, from);
    WithoutMoves(large, key, j);
    var to := if j < IndexOf(large, key) then j else j - 1;
    if p < |small| && i >= p {
      var l := NestedAt(small, large, p);
      PlaceOf(large, l);
      assert to <= i + 1;
    }
    assert Top(q, i + 2)[to] == q[to];
  }

  lemma NestedCons<T>(small: seq<T>, large: seq<T>, key: T)
    requires Nested(small, large)
    ensures Nested([key] + small, [key] + large)
  {
    forall i | 0 <= i < |[key] + small| ensures ([key] + small)[i] in Top([key] + large, i + 2) {
      if i > 0 {
        var j := NestedAt(small, large, i - 1);
        assert Top([key] + large, i + 2)[j + 1] == small[i - 1];
      } else {
        assert Top([key] + large, 2)[0] == key;
      }
    }
  }

  // Two keys in front may even come in different orders.
  lemma NestedPair<T>(small: seq<T>, large: seq<T>, a: T, b: T)
    requires Nested(small, large)
    ensures Nested([a, b] + small, [b, a] + large)
  {
    var s, l := [a, b] + small, [b, a] + large;
    forall i | 0 <= i < |s| ensures s[i] in Top(l, i + 2) {
      if i > 1 {
        var j := NestedAt(small, large, i - 2);
        assert Top(l, i + 2)[j + 2] == small[i - 2];
      } else {
        assert Top(l, i + 2)[1 - i] == s[i];
      }
    }
  }

  lemma NestedTop<T>(small: seq<T>, large: seq<T>, c: nat, d: nat)
    requires Nested(small, large) && c < d
    ensures Nested(Top(small, c), Top(large, d))
  {
    forall i | 0 <= i < |Top(small, c)| ensures Top(small, c)[i] in Top(Top(large, d), i + 2) {
      var j := NestedAt(small, large, i);
      assert Top(Top(large, d), i + 2)[j] == large[j];
    }
  }

  lemma {:induction false} WithoutCommutes<T(!new)>(keys: seq<T>, a: T, b: T)
    ensures Without(Without(keys, a), b) == Without(Without(keys, b), a)
  {
    if keys != [] {
      WithoutCommutes(keys[1..], a, b);
      WithoutHead(keys, a);
      WithoutHead(keys, b);
      if keys[0] != a {
        WithoutHead([keys[0]] + Without(keys[1..], a), b);
      }
      if keys[0] != b {
        WithoutHead([keys[0]] + Without(keys[1..], b), a);
      }
    }
  }

  /** The first key out, the others in their order. */
  lemma WithoutIs<T(!new)>(a: seq<T>, key: T, b: seq<T>)
    requires key !in a
    ensures Without(a + [key] + b, key) == a + b
  {
    var keys := a + [key] + b;
    assert keys[|a|] == key;
    assert forall j :: 0 <= j < |a| ==> keys[j] == a[j] && a[j] in a;
    assert IndexOf(keys, key) == |a|;
    assert keys[..|a|] == a && keys[|a| + 1..] == b;
  }

  lemma WithoutHead<T(!new)>(keys: seq<T>, key: T)
    requires keys != []
    ensures Without(keys, key) == if keys[0] == key then keys[1..] else [keys[0]] + Without(keys[1..], key)
  {
    var head, rest := keys[0], keys[1..];
    if head == key {
      WithoutIs([], key, rest);
      assert keys == [] + [key] + rest && [] + rest == rest;
    } else if key in rest {
      WithoutInTail(head, rest, key);
      assert keys == [head] + rest;
    }
  }

  lemma WithoutInTail<T(!new)>(head: T, rest: seq<T>, key: T)
    requires head != key && key in rest
    ensures Without([head] + rest, key) == [head] + Without(rest, key)
  {
    var i := IndexOf(rest, key);
    Around(rest, i);
    WithoutBehind(head, rest[..i], key, rest[i + 1..]);
  }

  lemma WithoutBehind<T(!new)>(head: T, a: seq<T>, key: T, b: seq<T>)
    requires head != key && key !in a
    ensures Without([head] + (a + [key] + b), key) == [head] + Without(a + [key] + b, key)
  {
    WithoutIs(a, key, b);
    WithoutIs([head] + a, key, b);
    Prepended([head], a, [key] + b);
    Prepended([head], a, b);
    Prepended(a, [key], b);
    Prepended([head] + a, [key], b);
  }

  lemma Prepended<T>(a: seq<T>, b: seq<T>, c: seq<T>)
    ensures a + (b + c) == a + b + c
  {
  }

  lemma Around<T>(s: seq<T>, i: nat)
    requires i < |s|
    ensures s == s[..i] + [s[i]] + s[i + 1..]
  {
  }

  lemma FrontPair<T(!new)>(keys: seq<T>, a: T, b: T)
    requires a != b
    ensures ToFront(ToFront(keys, a), b) == [b, a] + Without(Without(keys, a), b)
  {
    WithoutHead([a] + Without(keys, a), b);
  }

  lemma NestedAccess<T(!new)>(small: seq<T>, large: seq<T>, c: nat, d: nat, key: T)
    requires Distinct(small) && Distinct(large) && |small| <= c < d && |large| <= d && Nested(small, large)
    ensures Nested(Access(small, c, key), Access(large, d, key))
  {
    NestedWithout(small, large, key);
    NestedCons(Without(small, key), Without(large, key), key);
    NestedTop(ToFront(small, key), ToFront(large, key), c, d);
    AccessIsCut(small, c, key);
    AccessIsCut(large, d, key);
  }

  // The same two accesses, in either order on either side.
  lemma NestedInTurn<T(!new)>(small: seq<T>, large: seq<T>, c: nat, d: nat, a: T, b: T)
    requires Distinct(small) && Distinct(large) && |small| <= c < d && |large| <= d && Nested(small, large)
    ensures Nested(InTurn(small, c, a, b), InTurn(large, d, a, b))
    ensures Nested(InTurn(small, c, a, b), InTurn(large, d, b, a))
  {
    NestedAccess(small, large, c, d, a);
    AccessKeepsShape(small, c, a);
    AccessKeepsShape(large, d, a);
    NestedAccess(Access(small, c, a), Access(large, d, a), c, d, b);
    if a != b {
      NestedCrossed(small, large, c, d, a, b);
    }
  }

  lemma NestedCrossed<T(!new)>(small: seq<T>, large: seq<T>, c: nat, d: nat, a: T, b: T)
    requires Distinct(small) && Distinct(large) && |small| <= c < d && |large| <= d && Nested(small, large) && a != b
    ensures Nested(InTurn(small, c, a, b), InTurn(large, d, b, a))
  {
    InTurnIsCut(small, c, a, b);
    InTurnIsCut(large, d, b, a);
    FrontPair(small, a, b);
    FrontPair(large, b, a);
    WithoutCommutes(large, a, b);
    NestedWithout(small, large, a);
    WithoutDistinct(small, a);
    WithoutDistinct(large, a);
    NestedWithout(Without(small, a), Without(large, a), b);
    NestedPair(Without(Without(small, a), b), Without(Without(large, a), b), b, a);
    NestedTop(ToFront(ToFront(small, a), b), ToFront(ToFront(large, b), a), c, d);
  }

  /** A call of at most two keys keeps the lists nested. */
  lemma NestedBatch<T(!new)>(small: seq<T>, large: seq<T>, c: nat, d: nat, keys: seq<T>)
    requires Distinct(small) && Distinct(large) && |small| <= c < d && |large| <= d && Nested(small, large)
    requires |keys| <= 2
    ensures Nested(AccessBatch(small, c, keys), AccessBatch(large, d, keys))
  {
    if keys == [] {
      var none: seq<nat> := [];
      StoreNone(small, c, keys, none);
      StoreNone(large, d, keys, none);
    } else if |keys| == 1 {
      assert keys == [keys[0]];
      BatchOfOne(small, c, keys[0]);
      BatchOfOne(large, d, keys[0]);
      NestedAccess(small, large, c, d, keys[0]);
    } else {
      assert keys == [keys[0], keys[1]];
      BatchOfTwo(small, c, keys[0], keys[1]);
      BatchOfTwo(large, d, keys[0], keys[1]);
      NestedInTurn(small, large, c, d, keys[0], keys[1]);
      NestedInTurn(small, large, c, d, keys[1], keys[0]);
    }
  }

  lemma {:induction false} LookedUpShape<T(!new)>(order: seq<T>, keys: seq<T>)
    requires Distinct(order)
    ensures Distinct(LookedUp(order, keys)) && |LookedUp(order, keys)| == |order|
  {
    if keys != [] {
      var before := keys[..|keys| - 1];
      LookedUpShape(order, before);
      WithoutDistinct(LookedUp(order, before), keys[|keys| - 1]);
    }
  }

  lemma {:induction false} StoredShape<T(!new)>(order: seq<T>, capacity: nat, keys: seq<T>, missing: seq<nat>)
    requires Distinct(order) && |order| <= capacity
    requires forall n :: 0 <= n < |missing| ==> missing[n] < |keys|
    ensures Distinct(Stored(order, capacity, keys, missing)) && |Stored(order, capacity, keys, missing)| <= capacity
  {
    if missing != [] && capacity > 0 {
      var last := |missing| - 1;
      StoredShape(order, capacity, keys, missing[..last]);
      AccessKeepsShape(Stored(order, capacity, keys, missing[..last]), capacity, keys[missing[last]]);
    }
  }

  /* ---- Whole runs ---- */

  /** The list after a sequence of calls on an empty cache. */
  function Run<T(==, !new)>(calls: seq<seq<T>>, capacity: nat): seq<T> {
    if calls == [] then []
    else AccessBatch(Run(calls[..|calls| - 1], capacity), capacity, calls[|calls| - 1])
  }

  function Hits<T(==, !new)>(calls: seq<seq<T>>, capacity: nat): nat {
    if calls == [] then 0
    else
      var before := calls[..|calls| - 1];
      Hits(before, capacity) + BatchHits(Run(before, capacity), calls[|calls| - 1])
  }

  predicate CallsUpTo<T>(calls: seq<seq<T>>, n: nat) { forall i :: 0 <= i < |calls| ==> |calls[i]| <= n }

  lemma {:induction false} RunShape<T(!new)>(calls: seq<seq<T>>, capacity: nat)
    ensures Distinct(Run(calls, capacity)) && |Run(calls, capacity)| <= capacity
  {
    if calls != [] {
      var before, last := Run(calls[..|calls| - 1], capacity), calls[|calls| - 1];
      RunShape(calls[..|calls| - 1], capacity);
      LookedUpShape(before, last);
      StoredShape(LookedUp(before, last), capacity, last, Missed(before, last));
    }
  }

  /** When no call has more than two keys, the smaller cache's list stays nested in the
      larger one's, and more capacity never means fewer hits. */
  lemma {:induction false} MoreCapacityMoreHits<T(!new)>(calls: seq<seq<T>>, c: nat, d: nat)
    requires c < d && CallsUpTo(calls, 2)
    ensures Nested(Run(calls, c), Run(calls, d))
    ensures Hits(calls, c) <= Hits(calls, d)
  {
    if calls != [] {
      var before, last := calls[..|calls| - 1], calls[|calls| - 1];
      MoreCapacityMoreHits(before, c, d);
      RunShape(before, c);
      RunShape(before, d);
      NestedBatch(Run(before, c), Run(before, d), c, d, last);
      NestedWithin(Run(before, c), Run(before, d));
      MoreKeysMoreHits(Run(before, c), Run(before, d), last);
    }
  }

  /** One key per call even keeps the smaller cache's list the top of the larger one's. */
  lemma {:induction false} OneByOneInclusion<T(!new)>(calls: seq<seq<T>>, c: nat, d: nat)
    requires c <= d && forall i :: 0 <= i < |calls| ==> |calls[i]| == 1
    ensures Run(calls, c) == Top(Run(calls, d), c)
  {
    if calls != [] {
      var before, key := calls[..|calls| - 1], calls[|calls| - 1][0];
      assert calls[|calls| - 1] == [key];
      OneByOneInclusion(before, c, d);
      RunShape(before, d);
      AccessInclusion(Run(before, d), c, d, key);
      BatchOfOne(Run(before, c), c, key);
      BatchOfOne(Run(before, d), d, key);
    }
  }

  /* ---- With three keys in a call, more capacity can mean fewer hits ---- */

  lemma RunStep<T(!new)>(calls: seq<seq<T>>, call: seq<T>, capacity: nat)
    ensures Run(calls + [call], capacity) == AccessBatch(Run(calls, capacity), capacity, call)
    ensures Hits(calls + [call], capacity) == Hits(calls, capacity) + BatchHits(Run(calls, capacity), call)
  {
    assert (calls + [call])[..|calls|] == calls;
  }

  lemma {:induction false} AllMissed<T(!new)>(order: seq<T>, keys: seq<T>)
    requires forall i :: 0 <= i < |keys| ==> keys[i] !in order
    ensures LookedUp(order, keys) == order && Missed(order, keys) == seq(|keys|, i => i)
  {
    if keys != [] {
      AllMissed(order, keys[..|keys| - 1]);
    }
  }

  lemma {:induction false} AllFound<T(!new)>(order: seq<T>, keys: seq<T>)
    requires forall i :: 0 <= i < |keys| ==> keys[i] in order
    ensures Missed(order, keys) == []
  {
    if keys != [] {
      AllFound(order, keys[..|keys| - 1]);
    }
  }

  lemma {:induction false} RoomForOne<T(!new)>(order: seq<T>, keys: seq<T>, missing: seq<nat>)
    requires |order| <= 1 && missing != [] && forall n :: 0 <= n < |missing| ==> missing[n] < |keys|
    ensures Stored(order, 1, keys, missing) == [keys[missing[|missing| - 1]]]
  {
    var before := missing[..|missing| - 1];
    if before == [] {
      StoreNone(order, 1, keys, before);
    } else {
      RoomForOne(order, keys, before);
    }
  }

  lemma PairOfCalls<T(!new)>(b: T, y: T, c: nat)
    requires b != y && 1 <= c <= 2
    ensures Run([[b]] + [[y]], c) == (if c == 1 then [y] else [y, b]) && Hits([[b]] + [[y]], c) == 0
  {
    OneCall(b, c);
    RunStep([[b]], [y], c);
    BatchOfOne([b], c, y);
  }

  lemma OneCall<T(!new)>(b: T, c: nat)
    requires c > 0
    ensures Run([[b]], c) == [b] && Hits([[b]], c) == 0
  {
    var none: seq<seq<T>> := [];
    RunStep(none, [b], c);
    assert none + [[b]] == [[b]];
    BatchOfOne([], c, b);
  }

  lemma TripleSmall<T(!new)>(a: T, b: T, x: T, y: T)
    requires Distinct([a, b, x, y])
    ensures AccessBatch([y], 1, [a, x, b]) == [b] && BatchHits([y], [a, x, b]) == 0
  {
    var d := [a, b, x, y];
    assert d[0] != d[3] && d[1] != d[3] && d[2] != d[3];
    AllMissed([y], [a, x, b]);
    RoomForOne([y], [a, x, b], Missed([y], [a, x, b]));
  }

  lemma PushOne<T(!new)>(order: seq<T>, key: T)
    requires |order| == 2 && key !in order
    ensures Inserted(order, 2, key) == [key, order[0]]
  {
  }

  lemma PushTwo<T(!new)>(order: seq<T>, keys: seq<T>, missing: seq<nat>)
    requires |order| == 2 && |keys| == 3 && missing == [0, 1] && Distinct(keys)
    requires keys[0] !in order && keys[1] !in order
    ensures Stored(order, 2, keys, missing) == [keys[1], keys[0]]
  {
    var zero: seq<nat> := [0];
    StoreOne(order, 2, keys, zero, 0);
    StoreStep(order, 2, keys, zero, 1);
    assert zero + [1] == missing;
    PushOne(order, keys[0]);
    PushOne([keys[0], order[0]], keys[1]);
  }

  lemma TripleLookUp<T(!new)>(a: T, b: T, x: T, y: T)
    requires a != y && a != b && x != y && x != b && b != y
    ensures LookedUp([y, b], [a, x, b]) == [b, y] && Missed([y, b], [a, x, b]) == [0, 1]
  {
    var order := [y, b];
    AllMissed(order, [a, x]);
    LookUpStep(order, [a, x], b);
    assert [a, x] + [b] == [a, x, b];
    assert order[1] == b;
    WithoutHead(order, b);
    WithoutHead(order[1..], b);
    assert ToFront(order, b) == [b, y];
  }

  lemma TripleLarge<T(!new)>(a: T, b: T, x: T, y: T)
    requires Distinct([a, b, x, y])
    ensures AccessBatch([y, b], 2, [a, x, b]) == [x, a] && BatchHits([y, b], [a, x, b]) == 1
  {
    var d, keys := [a, b, x, y], [a, x, b];
    assert d[0] != d[1] && d[0] != d[2] && d[0] != d[3] && d[1] != d[2] && d[1] != d[3] && d[2] != d[3];
    TripleLookUp(a, b, x, y);
    PushTwo([b, y], keys, Missed([y, b], keys));
  }

  lemma TwoMoreCalls<T(!new)>(calls: seq<seq<T>>, third: seq<T>, fourth: seq<T>, c: nat)
    ensures var order := Run(calls, c);
            Hits(calls + [third] + [fourth], c)
            == Hits(calls, c) + BatchHits(order, third) + BatchHits(AccessBatch(order, c, third), fourth)
  {
    RunStep(calls, third, c);
    RunStep(calls + [third], fourth, c);
  }

  /** One key, another one, two new ones followed by the first, and the first one twice. */
  function FourCalls<T>(a: T, b: T, x: T, y: T): seq<seq<T>> { [[b]] + [[y]] + [[a, x, b]] + [[b, b]] }

  /** A hit is looked up before the misses of its own call are stored, so the larger cache may
      push out a key that the smaller one, for which it is a miss, stores last. */
  lemma MoreCapacityFewerHits<T(!new)>(a: T, b: T, x: T, y: T)
    requires Distinct([a, b, x, y])
    ensures Hits(FourCalls(a, b, x, y), 1) == 2 && Hits(FourCalls(a, b, x, y), 2) == 1
  {
    SmallRun(a, b, x, y);
    LargeRun(a, b, x, y);
  }

  lemma SmallRun<T(!new)>(a: T, b: T, x: T, y: T)
    requires Distinct([a, b, x, y])
    ensures Hits(FourCalls(a, b, x, y), 1) == 2
  {
    var d := [a, b, x, y];
    assert d[1] != d[3];
    PairOfCalls(b, y, 1);
    TwoMoreCalls([[b]] + [[y]], [a, x, b], [b, b], 1);
    TripleSmall(a, b, x, y);
    AllFound([b], [b, b]);
  }

  lemma LargeRun<T(!new)>(a: T, b: T, x: T, y: T)
    requires Distinct([a, b, x, y])
    ensures Hits(FourCalls(a, b, x, y), 2) == 1
  {
    var d := [a, b, x, y];
    assert d[0] != d[1] && d[1] != d[2] && d[1] != d[3];
    PairOfCalls(b, y, 2);
    TwoMoreCalls([[b]] + [[y]], [a, x, b], [b, b], 2);
    TripleLarge(a, b, x, y);
    AllMissed([x, a], [b, b]);
  }

  /** More capacity never means fewer hits, for any calls of at most n keys. */
  ghost predicate CapacityNeverHurts<T(!new)>(n: nat) {
    forall calls: seq<seq<T>>, c: nat, d: nat :: c <= d && CallsUpTo(calls, n) ==> Hits(calls, c) <= Hits(calls, d)
  }

  /** ... which is so exactly for n <= 2, over any set of at least four keys. */
  lemma CapacityNeverHurtsIff<T(!new)>(n: nat, a: T, b: T, x: T, y: T)
    requires Distinct([a, b, x, y])
    ensures CapacityNeverHurts<T>(n) <==> n <= 2
  {
    if n <= 2 {
      UpToTwoNeverHurts<T>(n);
    } else {
      ThreeCanHurt(n, a, b, x, y);
    }
  }

  lemma UpToTwoNeverHurts<T(!new)>(n: nat)
    requires n <= 2
    ensures CapacityNeverHurts<T>(n)
  {
    forall calls: seq<seq<T>>, c: nat, d: nat | c <= d && CallsUpTo(calls, n) ensures Hits(calls, c) <= Hits(calls, d) {
      if c < d {
        MoreCapacityMoreHits(calls, c, d);
      }
    }
  }

  lemma ThreeCanHurt<T(!new)>(n: nat, a: T, b: T, x: T, y: T)
    requires n >= 3 && Distinct([a, b, x, y])
    ensures !CapacityNeverHurts<T>(n)
  {
    var calls := FourCalls(a, b, x, y);
    FourCallsShort(n, a, b, x, y);
    MoreCapacityFewerHits(a, b, x, y);
    assert CallsUpTo(calls, n) && Hits(calls, 1) > Hits(calls, 2);
  }

  lemma FourCallsShort<T(!new)>(n: nat, a: T, b: T, x: T, y: T)
    requires n >= 3
    ensures CallsUpTo(FourCalls(a, b, x, y), n)
  {
  }

  /** A stored key comes to the front and the others keep their order; of a full list without
      it the last one goes. */
  lemma InsertedIs<T(!new)>(a: seq<T>, key: T, b: seq<T>, last: T, capacity: nat)
    requires key !in a && capacity > 0
    ensures Inserted(a + [key] + b, capacity, key) == [key] + a + b
    ensures |a| < capacity ==> Inserted(a, capacity, key) == [key] + a
    ensures |a| + 1 == capacity && key != last ==> Inserted(a + [last], capacity, key) == [key] + a
  {
    WithoutIs(a, key, b);
    assert key in a + [key] + b;
    assert [key] + (a + b) == [key] + a + b;
    assert (a + [last])[..|a|] == a;
    if key != last {
      assert key !in a + [last];
    }
  }
}
