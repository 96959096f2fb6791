/**
 * The stable sort `List.sort` performs, on (element, key) pairs: the key is read once
 * from each element before sorting, as `Comparator.comparing` does for a key that the
 * sort itself does not change.
 */
module StableSort {

  datatype Keyed<T, K> = Keyed(val: T, key: K)

  ghost predicate TotalOrder<K(!new)>(leq: (K, K) -> bool)
  {
    && (forall a :: leq(a, a))
    && (forall a, b :: leq(a, b) && leq(b, a) ==> a == b)
    && (forall a, b, c :: leq(a, b) && leq(b, c) ==> leq(a, c))
    && (forall a, b :: leq(a, b) || leq(b, a))
  }

  /** Keys never decrease from left to right. */
  ghost predicate SortedBy<T, K>(s: seq<Keyed<T, K>>, leq: (K, K) -> bool)
  {
    forall i, j :: 0 <= i < j < |s| ==> leq(s[i].key, s[j].key)
  }

  function Vals<T, K>(s: seq<Keyed<T, K>>): seq<T>
  {
    seq(|s|, i requires 0 <= i < |s| => s[i].val)
  }

  /** Each element paired with its key. */
  function KeyedBy<T, K>(s: seq<T>, key: T -> K): seq<Keyed<T, K>>
  {
    seq(|s|, i requires 0 <= i < |s| => Keyed(s[i], key(s[i])))
  }

  /** The elements whose key is `k`, in their order in `s`. */
  function WithKey<T, K(==)>(s: seq<Keyed<T, K>>, k: K): seq<T>
  {
    if s == [] then []
    else (if s[0].key == k then [s[0].val] else []) + WithKey(s[1..], k)
  }

  /** Puts `x` in front of the first element whose key is not below its own. */
  function Insert<T, K>(x: Keyed<T, K>, s: seq<Keyed<T, K>>, leq: (K, K) -> bool): (r: seq<Keyed<T, K>>)
    ensures |r| == |s| + 1
  {
    if s == [] || leq(x.key, s[0].key) then [x] + s
    else [s[0]] + Insert(x, s[1..], leq)
  }

  /** The stable order `List.sort` gives with `Comparator.comparing`, computed by inserting
      each element into the sorted rest. */
  function Sort<T, K>(s: seq<Keyed<T, K>>, leq: (K, K) -> bool): (r: seq<Keyed<T, K>>)
    ensures |r| == |s|
  {
    if s == [] then [] else Insert(s[0], Sort(s[1..], leq), leq)
  }

  lemma ValsCons<T, K>(x: Keyed<T, K>, s: seq<Keyed<T, K>>)
    ensures Vals([x] + s) == [x.val] + Vals(s)
  {
  }

  lemma {:induction false} InsertPermutes<T, K>(x: Keyed<T, K>, s: seq<Keyed<T, K>>, leq: (K, K) -> bool)
    ensures multiset(Insert(x, s, leq)) == multiset(s) + multiset{x}
    ensures multiset(Vals(Insert(x, s, leq))) == multiset(Vals(s)) + multiset{x.val}
  {
    if s == [] || leq(x.key, s[0].key) {
      ValsCons(x, s);
    } else {
      InsertPermutes(x, s[1..], leq);
      assert s == [s[0]] + s[1..];
      ValsCons(s[0], s[1..]);
      ValsCons(s[0], Insert(x, s[1..], leq));
    }
  }

  /** Sorting only reorders: the same pairs, as many times each. */
  lemma {:induction false} SortPermutes<T, K>(s: seq<Keyed<T, K>>, leq: (K, K) -> bool)
    ensures multiset(Sort(s, leq)) == multiset(s)
  {
    if s != [] {
      SortPermutes(s[1..], leq);
      InsertPermutes(s[0], Sort(s[1..], leq), leq);
      assert s == [s[0]] + s[1..];
    }
  }

  /** ... and so the same elements, as many times each. */
  lemma {:induction false} SortKeepsElements<T, K>(s: seq<Keyed<T, K>>, leq: (K, K) -> bool)
    ensures multiset(Vals(Sort(s, leq))) == multiset(Vals(s))
  {
    if s != [] {
      var t := Sort(s[1..], leq);
      SortKeepsElements(s[1..], leq);
      InsertPermutes(s[0], t, leq);
      assert Sort(s, leq) == Insert(s[0], t, leq);
      assert Vals(s) == [s[0].val] + Vals(s[1..]) by {
        assert s == [s[0]] + s[1..];
        ValsCons(s[0], s[1..]);
      }
    }
  }

  lemma {:induction false} InsertSorted<T, K(!new)>(x: Keyed<T, K>, s: seq<Keyed<T, K>>, leq: (K, K) -> bool)
    requires TotalOrder(leq)
    requires SortedBy(s, leq)
    ensures SortedBy(Insert(x, s, leq), leq)
  {
    if s == [] || leq(x.key, s[0].key) {
    } else {
      var rest := Insert(x, s[1..], leq);
      InsertSorted(x, s[1..], leq);
      InsertPermutes(x, s[1..], leq);
      forall j | 0 <= j < |rest| ensures leq(s[0].key, rest[j].key) {
        assert rest[j] in multiset(rest);
        if rest[j] != x {
          assert rest[j] in multiset(s[1..]);
          var m :| 0 <= m < |s[1..]| && s[1..][m] == rest[j];
          assert s[m + 1] == rest[j];
        }
      }
    }
  }

  /** The sorted sequence has non-decreasing keys. */
  lemma {:induction false} SortSorted<T, K(!new)>(s: seq<Keyed<T, K>>, leq: (K, K) -> bool)
    requires TotalOrder(leq)
    ensures SortedBy(Sort(s, leq), leq)
  {
    if s != [] {
      SortSorted(s[1..], leq);
      InsertSorted(s[0], Sort(s[1..], leq), leq);
    }
  }

  /** Sorting elements by a key read from each of them: the result is again each element
      paired with its key, holds the same elements, and has non-decreasing keys. */
  lemma SortByKey<T, K(!new)>(s: seq<T>, key: T -> K, leq: (K, K) -> bool)
    requires TotalOrder(leq)
    ensures KeyedBy(Vals(Sort(KeyedBy(s, key), leq)), key) == Sort(KeyedBy(s, key), leq)
    ensures multiset(Vals(Sort(KeyedBy(s, key), leq))) == multiset(s)
    ensures SortedBy(Sort(KeyedBy(s, key), leq), leq)
  {
    var keyed := KeyedBy(s, key);
    var sorted := Sort(keyed, leq);
    SortPermutes(keyed, leq);
    SortKeepsElements(keyed, leq);
    SortSorted(keyed, leq);
    assert Vals(keyed) == s;
    forall i | 0 <= i < |sorted| ensures sorted[i].key == key(sorted[i].val) {
      assert sorted[i] in multiset(keyed);
    }
  }

  /** Inserting never moves `x` past an element with the same key. */
  lemma {:induction false} InsertWithKey<T, K>(x: Keyed<T, K>, s: seq<Keyed<T, K>>, leq: (K, K) -> bool, k: K)
    requires forall a :: leq(a, a)
    ensures WithKey(Insert(x, s, leq), k) == (if x.key == k then [x.val] else []) + WithKey(s, k)
  {
    if s == [] || leq(x.key, s[0].key) {
      assert ([x] + s)[1..] == s;
    } else {
      var t := Insert(x, s[1..], leq);
      InsertWithKey(x, s[1..], leq, k);
      assert ([s[0]] + t)[1..] == t;
      assert s[0].key != x.key by {
        assert leq(x.key, x.key);
      }
    }
  }

  /** Stability: the elements sharing any one key keep their relative order. */
  lemma {:induction false} SortStable<T, K(!new)>(s: seq<Keyed<T, K>>, leq: (K, K) -> bool, k: K)
    requires TotalOrder(leq)
    ensures WithKey(Sort(s, leq), k) == WithKey(s, k)
  {
    if s != [] {
      SortStable(s[1..], leq, k);
      InsertWithKey(s[0], Sort(s[1..], leq), leq, k);
    }
  }
}
