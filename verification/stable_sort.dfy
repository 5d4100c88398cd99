/** A stable sort by key, the behaviour of Python's `sorted(..., key=...)`/`list.sort` and of
    JavaScript's `Array.prototype.sort` with a key-difference comparator. */
module StableSort {

  /** `le` is a total order on keys. */
  ghost predicate TotalOrder<K(!new)>(le: (K, K) -> bool) {
    && (forall a :: le(a, a))
    && (forall a, b :: le(a, b) && le(b, a) ==> a == b)
    && (forall a, b, c :: le(a, b) && le(b, c) ==> le(a, c))
    && (forall a, b :: le(a, b) || le(b, a))
  }

  predicate SortedBy<T, K>(s: seq<T>, key: T -> K, le: (K, K) -> bool) {
    forall i, j :: 0 <= i < j < |s| ==> le(key(s[i]), key(s[j]))
  }

  /** The elements of `s` whose key is `k`, in their order in `s`. */
  function WithKey<T, K(==)>(s: seq<T>, key: T -> K, k: K): seq<T>
  {
    if |s| == 0 then []
    else WithKey(s[..|s| - 1], key, k) + (if key(s[|s| - 1]) == k then [s[|s| - 1]] else [])
  }

  lemma {:induction false} WithKeyAppend<T, K>(a: seq<T>, b: seq<T>, key: T -> K, k: K)
    ensures WithKey(a + b, key, k) == WithKey(a, key, k) + WithKey(b, key, k)
    decreases |b|
  {
    if |b| == 0 {
      assert a + b == a;
    } else {
      assert (a + b)[..|a + b| - 1] == a + b[..|b| - 1];
      WithKeyAppend(a, b[..|b| - 1], key, k);
    }
  }

  /** Inserts `x` after every element whose key is `le` x's key. */
  function Insert<T, K>(sorted: seq<T>, x: T, key: T -> K, le: (K, K) -> bool): (r: seq<T>)
    ensures |r| == |sorted| + 1
    ensures multiset(r) == multiset(sorted) + multiset{x}
    decreases |sorted|
  {
    if |sorted| == 0 || le(key(sorted[|sorted| - 1]), key(x)) then
      sorted + [x]
    else
      var init := sorted[..|sorted| - 1];
      assert sorted == init + [sorted[|sorted| - 1]];
      Insert(init, x, key, le) + [sorted[|sorted| - 1]]
  }

  lemma {:induction false} InsertSorted<T, K(!new)>(sorted: seq<T>, x: T, key: T -> K, le: (K, K) -> bool)
    requires TotalOrder(le)
    requires SortedBy(sorted, key, le)
    ensures SortedBy(Insert(sorted, x, key, le), key, le)
    decreases |sorted|
  {
    if |sorted| == 0 || le(key(sorted[|sorted| - 1]), key(x)) {
    } else {
      var last := sorted[|sorted| - 1];
      var init := sorted[..|sorted| - 1];
      assert sorted == init + [last];
      InsertSorted(init, x, key, le);
      var mid := Insert(init, x, key, le);
      var r := mid + [last];
      forall i | 0 <= i < |mid|
        ensures le(key(r[i]), key(last))
      {
        assert r[i] in multiset(mid);
        if r[i] != x {
          assert r[i] in multiset(init);
          var j :| 0 <= j < |init| && init[j] == r[i];
          assert le(key(sorted[j]), key(sorted[|sorted| - 1]));
        }
      }
    }
  }

  lemma {:induction false} InsertWithKey<T, K(!new)>(sorted: seq<T>, x: T, key: T -> K, le: (K, K) -> bool, k: K)
    requires TotalOrder(le)
    ensures WithKey(Insert(sorted, x, key, le), key, k) == WithKey(sorted, key, k) + (if key(x) == k then [x] else [])
    decreases |sorted|
  {
    var r := Insert(sorted, x, key, le);
    if |sorted| == 0 || le(key(sorted[|sorted| - 1]), key(x)) {
      assert r[..|r| - 1] == sorted;
    } else {
      var last := sorted[|sorted| - 1];
      var init := sorted[..|sorted| - 1];
      InsertWithKey(init, x, key, le, k);
      var mid := Insert(init, x, key, le);
      assert r == mid + [last];
      assert r[..|r| - 1] == mid;
      assert key(last) != key(x);
    }
  }

  /** Stable insertion sort: sorted by key, a permutation of the input, and elements with
      equal keys keep their input order. */
  function Sort<T, K(!new, ==)>(s: seq<T>, key: T -> K, le: (K, K) -> bool): (r: seq<T>)
    requires TotalOrder(le)
    ensures |r| == |s|
    ensures SortedBy(r, key, le)
    ensures multiset(r) == multiset(s)
    ensures forall k :: WithKey(r, key, k) == WithKey(s, key, k)
    decreases |s|
  {
    if |s| == 0 then []
    else
      var init := s[..|s| - 1];
      assert s == init + [s[|s| - 1]];
      var sortedInit := Sort(init, key, le);
      InsertSorted(sortedInit, s[|s| - 1], key, le);
      assert forall k :: WithKey(Insert(sortedInit, s[|s| - 1], key, le), key, k) == WithKey(s, key, k) by {
        forall k
          ensures WithKey(Insert(sortedInit, s[|s| - 1], key, le), key, k) == WithKey(s, key, k)
        {
          InsertWithKey(sortedInit, s[|s| - 1], key, le, k);
        }
      }
      Insert(sortedInit, s[|s| - 1], key, le)
  }

  /** Integer keys in ascending order. */
  function IntLe(a: int, b: int): bool { a <= b }

  lemma IntLeIsTotal()
    ensures TotalOrder(IntLe)
  {
  }
}
