/**
  The multiset union of all lists held in a map of lists. Both request-coalescing
  runtimes keep their waiters in such a map, one list per key; `Bag` is what
  "the total of pending waiters" means.
 */
module Bags {

  ghost function Bag<K, T>(m: map<K, seq<T>>): (b: multiset<T>)
  {
    if m == map[] then multiset{} else
    var k :| k in m;
    multiset(m[k]) + Bag(m - {k})
  }

  /** The bag does not depend on the order in which keys are visited. */
  lemma {:induction false} BagSplit<K, T>(m: map<K, seq<T>>, k: K)
    requires k in m
    ensures Bag(m) == multiset(m[k]) + Bag(m - {k})
    decreases |m|
  {
    var j :| j in m && Bag(m) == multiset(m[j]) + Bag(m - {j});
    if j != k {
      BagSplit(m - {j}, k);
      BagSplit(m - {k}, j);
      assert m - {j} - {k} == m - {k} - {j};
    }
  }

  /** Counted for one element: a key's list and the rest add up to the whole. */
  lemma BagAt<K, T>(m: map<K, seq<T>>, k: K, x: T)
    ensures Bag(m)[x] == (if k in m then multiset(m[k])[x] else 0) + Bag(m - {k})[x]
  {
    if k in m {
      BagSplit(m, k);
    } else {
      assert m - {k} == m;
    }
  }

  /** A list entry counts at least once for the whole bag. */
  lemma BagCounts<K, T>(m: map<K, seq<T>>, k: K, x: T)
    requires k in m
    ensures multiset(m[k])[x] <= Bag(m)[x]
  {
  }

  /** What the bag counts once is held in exactly one list, once. */
  lemma {:induction false} BagOnce<K, T>(m: map<K, seq<T>>, x: T) returns (k: K)
    requires Bag(m)[x] == 1
    ensures k in m && multiset(m[k])[x] == 1
    ensures forall j :: j in m && x in m[j] ==> j == k
    decreases |m|
  {
    var i :| i in m && Bag(m) == multiset(m[i]) + Bag(m - {i});
    forall j | j in m && x in m[j] ensures multiset(m[j])[x] > 0 {
      assert x in multiset(m[j]);
    }
    assert Bag(m)[x] == multiset(m[i])[x] + Bag(m - {i})[x];
    assert x in m[i] <==> x in multiset(m[i]);
    if x in m[i] {
      k := i;
      forall j | j in m && x in m[j] ensures j == k {
        if j != k { BagCounts(m - {i}, j, x); }
      }
    } else {
      k := BagOnce(m - {i}, x);
      assert (m - {i})[k] == m[k];
      assert forall j :: j in m && x in m[j] ==> j in m - {i} && x in (m - {i})[j];
    }
  }

  function NonEmpty<K, T(==)>(m: map<K, seq<T>>): (r: map<K, seq<T>>) {
    map k | k in m && m[k] != [] :: m[k]
  }

  /** Empty lists hold nothing. */
  lemma {:induction false} BagNonEmpty<K, T>(m: map<K, seq<T>>)
    ensures Bag(NonEmpty(m)) == Bag(m)
    decreases |m|
  {
    if m == map[] {
      assert NonEmpty(m) == map[];
    } else {
      var k :| k in m;
      BagSplit(m, k);
      BagNonEmpty(m - {k});
      assert NonEmpty(m) - {k} == NonEmpty(m - {k});
      if m[k] != [] {
        BagSplit(NonEmpty(m), k);
      } else {
        assert NonEmpty(m) - {k} == NonEmpty(m);
      }
    }
  }
}
