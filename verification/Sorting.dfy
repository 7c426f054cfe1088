/** Python's `sorted(..., key=..., reverse=True)`: a stable, descending sort.

    `SortDesc` is an insertion sort; the lemmas below pin it down as *the* stable
    descending sort (ordered, a permutation, commuting with every filter), which is
    all that the ranking and pruning code relies on.
 */
module Sorting {

  function Filter<T>(p: T -> bool, s: seq<T>): (r: seq<T>)
    ensures forall x :: x in r ==> x in s && p(x)
    ensures |r| <= |s|
  {
    if s == [] then []
    else (if p(s[0]) then [s[0]] else []) + Filter(p, s[1..])
  }

  ghost predicate Descending<T>(s: seq<T>, key: T -> real) {
    forall i, j :: 0 <= i < j < |s| ==> key(s[i]) >= key(s[j])
  }

  // x goes in front of the elements that it ties with: it came first.
  function Insert<T>(x: T, s: seq<T>, key: T -> real): seq<T> {
    if s == [] || key(x) >= key(s[0]) then [x] + s
    else [s[0]] + Insert(x, s[1..], key)
  }

  function SortDesc<T>(s: seq<T>, key: T -> real): seq<T> {
    if s == [] then [] else Insert(s[0], SortDesc(s[1..], key), key)
  }

  lemma {:induction false} InsertPermutes<T>(x: T, s: seq<T>, key: T -> real)
    ensures multiset(Insert(x, s, key)) == multiset([x]) + multiset(s)
  {
    if s == [] || key(x) >= key(s[0]) {
    } else {
      InsertPermutes(x, s[1..], key);
      assert s == [s[0]] + s[1..];
    }
  }

  lemma {:induction false} InsertDescending<T>(x: T, s: seq<T>, key: T -> real)
    requires Descending(s, key)
    ensures Descending(Insert(x, s, key), key)
  {
    if s == [] || key(x) >= key(s[0]) {
    } else {
      InsertDescending(x, s[1..], key);
      var t := Insert(x, s[1..], key);
      InsertPermutes(x, s[1..], key);
      forall j | 0 <= j < |t| ensures key(s[0]) >= key(t[j]) {
        assert t[j] in multiset(t);
        assert t[j] == x || t[j] in s[1..];
      }
    }
  }

  /** The result is ordered and has the same elements, each as often. */
  lemma {:induction false} SortDescSorts<T>(s: seq<T>, key: T -> real)
    ensures Descending(SortDesc(s, key), key)
    ensures multiset(SortDesc(s, key)) == multiset(s)
    ensures |SortDesc(s, key)| == |s|
  {
    if s == [] {
    } else {
      SortDescSorts(s[1..], key);
      InsertPermutes(s[0], SortDesc(s[1..], key), key);
      InsertDescending(s[0], SortDesc(s[1..], key), key);
      assert s == [s[0]] + s[1..];
    }
    SameLength(SortDesc(s, key), s);
  }

  lemma SameLength<T>(a: seq<T>, b: seq<T>)
    requires multiset(a) == multiset(b)
    ensures |a| == |b|
  {
    assert |multiset(a)| == |a| && |multiset(b)| == |b|;
  }

  lemma InBoth<T>(x: T, a: seq<T>, b: seq<T>)
    requires multiset(a) == multiset(b) && x in a
    ensures x in b
  {
    assert x in multiset(a);
  }

  lemma {:induction false} FilterInsert<T>(p: T -> bool, x: T, s: seq<T>, key: T -> real)
    requires Descending(s, key)
    ensures Filter(p, Insert(x, s, key)) == if p(x) then Insert(x, Filter(p, s), key) else Filter(p, s)
  {
    if s == [] {
      assert [x][1..] == [];
    } else if key(x) >= key(s[0]) {
      assert ([x] + s)[1..] == s;
      var f := Filter(p, s);
      assert f != [] ==> f[0] in s && key(x) >= key(f[0]);
    } else {
      FilterInsert(p, x, s[1..], key);
      var t := Insert(x, s[1..], key);
      assert ([s[0]] + t)[1..] == t;
      var f := Filter(p, s[1..]);
      assert ([s[0]] + f)[1..] == f;
      assert [] + f == f && [] + Filter(p, t) == Filter(p, t);
    }
  }

  /** Stability: sorting commutes with filtering, whatever the filter. With a filter
      that selects one key value this says that ties keep their input order. */
  lemma {:induction false} SortDescStable<T>(p: T -> bool, s: seq<T>, key: T -> real)
    ensures Filter(p, SortDesc(s, key)) == SortDesc(Filter(p, s), key)
  {
    if s == [] {
    } else {
      SortDescStable(p, s[1..], key);
      SortDescSorts(s[1..], key);
      FilterInsert(p, s[0], SortDesc(s[1..], key), key);
      var f := Filter(p, s[1..]);
      assert ([s[0]] + f)[1..] == f;
      assert [] + f == f;
    }
  }

  lemma {:induction false} SortDescFixed<T>(s: seq<T>, key: T -> real)
    requires Descending(s, key)
    ensures SortDesc(s, key) == s
  {
    if s == [] {
    } else {
      SortDescFixed(s[1..], key);
      assert s[1..] != [] ==> s[1..][0] == s[1];
      assert s == [s[0]] + s[1..];
    }
  }

  /** Two keys that order the elements alike sort them alike. */
  lemma {:induction false} SameOrderSameSort<T>(s: seq<T>, key: T -> real, other: T -> real)
    requires forall x, y :: x in s && y in s ==> (key(x) >= key(y) <==> other(x) >= other(y))
    ensures SortDesc(s, key) == SortDesc(s, other)
  {
    if s == [] {
    } else {
      SameOrderSameSort(s[1..], key, other);
      var t := SortDesc(s[1..], key);
      SortDescSorts(s[1..], key);
      forall y | y in t ensures y in s { InBoth(y, t, s[1..]); }
      SameOrderSameInsert(s[0], t, key, other);
    }
  }

  lemma {:induction false} SameOrderSameInsert<T>(x: T, s: seq<T>, key: T -> real, other: T -> real)
    requires forall y :: y in s ==> (key(x) >= key(y) <==> other(x) >= other(y))
    ensures Insert(x, s, key) == Insert(x, s, other)
  {
    if s == [] || key(x) >= key(s[0]) {
    } else {
      SameOrderSameInsert(x, s[1..], key, other);
    }
  }

  /** A permutation in descending order is the sorted list, provided that equal keys mean
      equal elements. */
  lemma {:induction false} SortIsUnique<T>(a: seq<T>, b: seq<T>, key: T -> real)
    requires multiset(a) == multiset(b) && Descending(a, key) && Descending(b, key)
    requires forall i, j :: 0 <= i < |a| && 0 <= j < |a| && key(a[i]) == key(a[j]) ==> a[i] == a[j]
    ensures a == b
    decreases |a|
  {
    SameLength(a, b);
    if a != [] {
      InBoth(a[0], a, b);
      InBoth(b[0], b, a);
      var k, l :| 0 <= k < |b| && b[k] == a[0] && 0 <= l < |a| && a[l] == b[0];
      assert key(a[0]) >= key(a[l]) && key(b[0]) >= key(b[k]);
      SameTails(a, b);
      SortIsUnique(a[1..], b[1..], key);
      assert a == [a[0]] + a[1..] && b == [b[0]] + b[1..];
    }
  }

  lemma SameTails<T>(a: seq<T>, b: seq<T>)
    requires a != [] && b != [] && a[0] == b[0] && multiset(a) == multiset(b)
    ensures multiset(a[1..]) == multiset(b[1..])
  {
    RemoveFirst(a);
    RemoveFirst(b);
  }

  lemma RemoveFirst<T>(s: seq<T>)
    requires s != []
    ensures multiset(s[1..]) == multiset(s) - multiset{s[0]}
  {
    assert s == [s[0]] + s[1..];
  }

  function Map<T, U>(f: T -> U, s: seq<T>): (r: seq<U>)
    ensures |r| == |s|
    ensures forall i :: 0 <= i < |s| ==> r[i] == f(s[i])
  {
    seq(|s|, i requires 0 <= i < |s| => f(s[i]))
  }

  lemma RemoveOne<T>(s: seq<T>, k: nat)
    requires k < |s|
    ensures multiset(s[..k] + s[k + 1..]) == multiset(s) - multiset{s[k]}
  {
    assert s == s[..k] + [s[k]] + s[k + 1..];
  }

  lemma {:induction false} MapPermutes<T, U>(f: T -> U, a: seq<T>, b: seq<T>)
    requires multiset(a) == multiset(b)
    ensures multiset(Map(f, a)) == multiset(Map(f, b))
    decreases |a|
  {
    SameLength(a, b);
    if a == [] {
      assert a == b;
    } else {
      var k := MatchingIndex(a, b);
      var a', b' := a[..0] + a[1..], b[..k] + b[k + 1..];
      MapPermutes(f, a', b');
      MapRemoveOne(f, a, 0);
      MapRemoveOne(f, b, k);
    }
  }

  lemma MatchingIndex<T>(a: seq<T>, b: seq<T>) returns (k: nat)
    requires multiset(a) == multiset(b) && a != []
    ensures k < |b| && b[k] == a[0]
    ensures multiset(a[..0] + a[1..]) == multiset(b[..k] + b[k + 1..])
    ensures |a[..0] + a[1..]| < |a|
  {
    InBoth(a[0], a, b);
    k :| 0 <= k < |b| && b[k] == a[0];
    RemoveOne(a, 0);
    RemoveOne(b, k);
  }

  lemma MapRemoveOne<T, U>(f: T -> U, s: seq<T>, k: nat)
    requires k < |s|
    ensures multiset(Map(f, s)) == multiset(Map(f, s[..k] + s[k + 1..])) + multiset{f(s[k])}
  {
    var m := Map(f, s);
    RemoveOne(m, k);
    assert m[..k] + m[k + 1..] == Map(f, s[..k] + s[k + 1..]);
    assert m[k] in multiset(m);
  }

  /* ---- Counting what sorts before a key ---- */

  lemma {:induction false} FilterConcat<T>(p: T -> bool, a: seq<T>, b: seq<T>)
    ensures Filter(p, a + b) == Filter(p, a) + Filter(p, b)
  {
    if a == [] {
      assert a + b == b;
    } else {
      assert (a + b)[1..] == a[1..] + b;
      FilterConcat(p, a[1..], b);
    }
  }

  /** A filter keeps every element as often as it occurs, or not at all. */
  lemma {:induction false} FilterKeeps<T>(p: T -> bool, s: seq<T>, x: T)
    ensures multiset(Filter(p, s))[x] == if p(x) then multiset(s)[x] else 0
  {
    if s != [] {
      FilterKeeps(p, s[1..], x);
      assert s == [s[0]] + s[1..];
    }
  }

  lemma {:induction false} FilterKeepsOrder<T>(p: T -> bool, s: seq<T>, key: T -> real)
    requires Descending(s, key)
    ensures Descending(Filter(p, s), key)
  {
    if s != [] {
      FilterKeepsOrder(p, s[1..], key);
      var f := Filter(p, s[1..]);
      forall j | 0 <= j < |f| ensures key(s[0]) >= key(f[j]) {
        assert f[j] in s[1..];
      }
      assert [] + f == f;
    }
  }

  /** The places of the elements that pass. */
  function Passing<T>(p: T -> bool, s: seq<T>): set<int> { set i | 0 <= i < |s| && p(s[i]) }

  lemma {:induction false} FilterSize<T>(p: T -> bool, s: seq<T>)
    ensures |Filter(p, s)| == |Passing(p, s)|
  {
    if s == [] {
      assert Passing(p, s) == {};
    } else {
      var front, last := s[..|s| - 1], s[|s| - 1];
      FilterSize(p, front);
      FilterLast(p, front, last);
      PassingLast(p, front, last);
      assert s == front + [last];
    }
  }

  lemma PassingLast<T>(p: T -> bool, s: seq<T>, x: T)
    ensures |Passing(p, s + [x])| == |Passing(p, s)| + if p(x) then 1 else 0
  {
    assert Passing(p, s + [x]) == Passing(p, s) + if p(x) then {|s|} else {};
  }

  lemma FilterLast<T>(p: T -> bool, s: seq<T>, x: T)
    ensures |Filter(p, s + [x])| == |Filter(p, s)| + if p(x) then 1 else 0
  {
    FilterConcat(p, s, [x]);
    assert [x][1..] == [];
  }

  lemma {:induction false} FilterAll<T>(p: T -> bool, s: seq<T>)
    requires forall i :: 0 <= i < |s| ==> p(s[i])
    ensures Filter(p, s) == s
  {
    if s != [] {
      FilterAll(p, s[1..]);
    }
  }

  lemma {:induction false} FilterNone<T>(p: T -> bool, s: seq<T>)
    requires forall i :: 0 <= i < |s| ==> !p(s[i])
    ensures Filter(p, s) == []
  {
    if s != [] {
      FilterNone(p, s[1..]);
    }
  }

  lemma FilterRemove<T>(p: T -> bool, s: seq<T>, k: nat)
    requires k < |s|
    ensures |Filter(p, s)| == |Filter(p, s[..k] + s[k + 1..])| + if p(s[k]) then 1 else 0
  {
    assert s == s[..k] + ([s[k]] + s[k + 1..]);
    FilterConcat(p, s[..k], [s[k]] + s[k + 1..]);
    FilterConcat(p, s[..k], s[k + 1..]);
    assert ([s[k]] + s[k + 1..])[1..] == s[k + 1..];
  }

  /** A count does not depend on the order. */
  lemma {:induction false} FilterCount<T>(p: T -> bool, a: seq<T>, b: seq<T>)
    requires multiset(a) == multiset(b)
    ensures |Filter(p, a)| == |Filter(p, b)|
    decreases |a|
  {
    SameLength(a, b);
    if a != [] {
      var k := MatchingIndex(a, b);
      FilterCount(p, a[..0] + a[1..], b[..k] + b[k + 1..]);
      FilterRemove(p, a, 0);
      FilterRemove(p, b, k);
    }
  }

  function Beyond<T>(key: T -> real, w: real): T -> bool { x => key(x) > w }

  /** How many elements have a key strictly beyond w. */
  function Above<T>(s: seq<T>, key: T -> real, w: real): (n: nat)
    ensures n <= |s|
  {
    |Filter(Beyond(key, w), s)|
  }

  /** In a descending list they are the elements in front. */
  lemma {:induction false} AboveIsFirst<T>(s: seq<T>, key: T -> real, w: real)
    requires Descending(s, key)
    ensures forall k :: 0 <= k < |s| ==> (key(s[k]) > w <==> k < Above(s, key, w))
  {
    if s == [] {
    } else if key(s[0]) > w {
      AboveIsFirst(s[1..], key, w);
      forall k | 0 <= k < |s| ensures key(s[k]) > w <==> k < Above(s, key, w) {
        assert k > 0 ==> s[k] == s[1..][k - 1];
      }
    } else {
      FilterNone(Beyond(key, w), s);
    }
  }

  lemma AbovePermutes<T>(a: seq<T>, b: seq<T>, key: T -> real, w: real)
    requires multiset(a) == multiset(b)
    ensures Above(a, key, w) == Above(b, key, w)
  {
    FilterCount(Beyond(key, w), a, b);
  }
}
