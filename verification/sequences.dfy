/** Order-preserving filtering and stable sorting of sequences: the list
    queries of the fleet (`ArrayList` filtering loops and `List.sort` with a
    key comparator) stated once, generically. */
module Sequences {

  /** The elements of `s` that satisfy `p`, in their order in `s`. */
  function Filter<T>(s: seq<T>, p: T -> bool): (r: seq<T>)
    ensures |r| <= |s|
    ensures forall i | 0 <= i < |r| :: p(r[i])
  {
    if |s| == 0 then []
    else
      assert s == [s[0]] + s[1..];
      (if p(s[0]) then [s[0]] else []) + Filter(s[1..], p)
  }

  /** Filtering keeps exactly the elements that pass: nothing that passes is
      lost, and nothing that was not in the input appears. */
  lemma {:induction false} FilterMembers<T>(s: seq<T>, p: T -> bool, x: T)
    ensures x in Filter(s, p) <==> x in s && p(x)
  {
    if |s| > 0 {
      FilterMembers(s[1..], p, x);
      assert s == [s[0]] + s[1..];
    }
  }

  lemma FilterMembersAll<T>(s: seq<T>, p: T -> bool)
    ensures forall x :: x in Filter(s, p) <==> x in s && p(x)
  {
    forall x ensures x in Filter(s, p) <==> x in s && p(x) {
      FilterMembers(s, p, x);
    }
  }

  /** Filtering commutes with concatenation: the result keeps the order of
      the input. */
  lemma {:induction false} FilterConcat<T>(a: seq<T>, b: seq<T>, p: T -> bool)
    ensures Filter(a + b, p) == Filter(a, p) + Filter(b, p)
  {
    if |a| == 0 {
      assert a + b == b;
    } else {
      assert (a + b)[0] == a[0];
      assert (a + b)[1..] == a[1..] + b;
      FilterConcat(a[1..], b, p);
    }
  }

  /** Filtering twice with the same test filters once. */
  lemma {:induction false} FilterIdempotent<T>(s: seq<T>, p: T -> bool)
    ensures Filter(Filter(s, p), p) == Filter(s, p)
  {
    if |s| > 0 {
      FilterIdempotent(s[1..], p);
      FilterConcat(if p(s[0]) then [s[0]] else [], Filter(s[1..], p), p);
    }
  }

  /** A filter that every element passes returns its input. */
  lemma {:induction false} FilterKeepsAll<T>(s: seq<T>, p: T -> bool)
    requires forall i | 0 <= i < |s| :: p(s[i])
    ensures Filter(s, p) == s
  {
    if |s| > 0 {
      FilterKeepsAll(s[1..], p);
      assert s == [s[0]] + s[1..];
    }
  }

  /** A filter that no element passes returns nothing. */
  lemma {:induction false} FilterDropsAll<T>(s: seq<T>, p: T -> bool)
    requires forall i | 0 <= i < |s| :: !p(s[i])
    ensures Filter(s, p) == []
  {
    if |s| > 0 {
      FilterDropsAll(s[1..], p);
    }
  }

  /** A relation that holds between every earlier and later element still
      holds after filtering. */
  lemma {:induction false} FilterKeepsPairwise<T>(s: seq<T>, p: T -> bool, rel: (T, T) -> bool)
    requires forall i, j | 0 <= i < j < |s| :: rel(s[i], s[j])
    ensures forall i, j | 0 <= i < j < |Filter(s, p)| :: rel(Filter(s, p)[i], Filter(s, p)[j])
  {
    if |s| > 0 {
      var tail := s[1..];
      FilterKeepsPairwise(tail, p, rel);
      var r := Filter(tail, p);
      forall k | 0 <= k < |r| ensures rel(s[0], r[k]) {
        FilterMembers(tail, p, r[k]);
        var m :| 0 <= m < |tail| && tail[m] == r[k];
        assert s[m + 1] == r[k];
      }
    }
  }

  /** Filtering a prefix one element longer adds at most that element. */
  lemma FilterStep<T>(s: seq<T>, i: nat, p: T -> bool)
    requires i < |s|
    ensures Filter(s[..i + 1], p) == Filter(s[..i], p) + (if p(s[i]) then [s[i]] else [])
  {
    assert s[..i + 1] == s[..i] + [s[i]];
    FilterConcat(s[..i], [s[i]], p);
    assert [s[i]][1..] == [];
  }

  /** The sum of `g` over the elements of `s`. */
  function Sum<T>(s: seq<T>, g: T -> real): real {
    if |s| == 0 then 0.0 else Sum(s[..|s| - 1], g) + g(s[|s| - 1])
  }

  lemma SumAppend<T>(s: seq<T>, x: T, g: T -> real)
    ensures Sum(s + [x], g) == Sum(s, g) + g(x)
  {
    assert (s + [x])[..|s|] == s;
  }

  /** The key of an element that is its own key. */
  function Identity<T>(x: T): T {
    x
  }

  /** `before` is a strict total order on keys. */
  ghost predicate StrictTotalOrder<K(!new)>(before: (K, K) -> bool) {
    && (forall a :: !before(a, a))
    && (forall a, b, c :: before(a, b) && before(b, c) ==> before(a, c))
    && (forall a, b :: a != b ==> before(a, b) || before(b, a))
  }

  /** No element of `s` comes after one whose key `before` puts behind it. */
  ghost predicate SortedBy<T, K>(s: seq<T>, key: T -> K, before: (K, K) -> bool) {
    forall i, j | 0 <= i < j < |s| :: !before(key(s[j]), key(s[i]))
  }

  /** The elements of `s` whose key is `k`, in their order in `s`. */
  function WithKey<T, K(==)>(s: seq<T>, key: T -> K, k: K): seq<T> {
    if |s| == 0 then []
    else (if key(s[0]) == k then [s[0]] else []) + WithKey(s[1..], key, k)
  }

  /** `x` placed in front of the first element of `s` that `before` does not
      put ahead of it. */
  function Insert<T, K>(x: T, s: seq<T>, key: T -> K, before: (K, K) -> bool): seq<T> {
    if |s| == 0 then [x]
    else if before(key(s[0]), key(x)) then [s[0]] + Insert(x, s[1..], key, before)
    else [x] + s
  }

  /** Inserting adds `x` and loses nothing. */
  lemma {:induction false} InsertPermutes<T, K>(x: T, s: seq<T>, key: T -> K, before: (K, K) -> bool)
    ensures multiset(Insert(x, s, key, before)) == multiset(s) + multiset{x}
  {
    if |s| > 0 && before(key(s[0]), key(x)) {
      InsertPermutes(x, s[1..], key, before);
      assert s == [s[0]] + s[1..];
    }
  }

  /** Stable insertion sort of `s` by `key`, ordered by `before`. */
  function Sort<T, K>(s: seq<T>, key: T -> K, before: (K, K) -> bool): (r: seq<T>)
    ensures multiset(r) == multiset(s)
    ensures |r| == |s|
  {
    if |s| == 0 then []
    else
      assert s == [s[0]] + s[1..];
      InsertPermutes(s[0], Sort(s[1..], key, before), key, before);
      Insert(s[0], Sort(s[1..], key, before), key, before)
  }

  lemma {:induction false} InsertKeepsSorted<T, K(!new)>(x: T, s: seq<T>, key: T -> K, before: (K, K) -> bool)
    requires StrictTotalOrder(before)
    requires SortedBy(s, key, before)
    ensures SortedBy(Insert(x, s, key, before), key, before)
  {
    if |s| > 0 && before(key(s[0]), key(x)) {
      var t := Insert(x, s[1..], key, before);
      InsertKeepsSorted(x, s[1..], key, before);
      InsertPermutes(x, s[1..], key, before);
      forall j | 0 <= j < |t|
        ensures !before(key(t[j]), key(s[0]))
      {
        assert t[j] in multiset(s[1..]) + multiset{x};
        if t[j] != x {
          assert t[j] in s[1..];
        }
      }
    }
  }

  /** Sorting yields a sequence ordered by `before` on the keys. */
  lemma {:induction false} SortIsSorted<T, K(!new)>(s: seq<T>, key: T -> K, before: (K, K) -> bool)
    requires StrictTotalOrder(before)
    ensures SortedBy(Sort(s, key, before), key, before)
  {
    if |s| > 0 {
      SortIsSorted(s[1..], key, before);
      InsertKeepsSorted(s[0], Sort(s[1..], key, before), key, before);
    }
  }

  lemma {:induction false} InsertWithKey<T, K>(x: T, s: seq<T>, key: T -> K, before: (K, K) -> bool, k: K)
    requires forall a :: !before(a, a)
    ensures WithKey(Insert(x, s, key, before), key, k)
         == (if key(x) == k then [x] else []) + WithKey(s, key, k)
  {
    if |s| > 0 && before(key(s[0]), key(x)) {
      InsertWithKey(x, s[1..], key, before, k);
      assert ([s[0]] + Insert(x, s[1..], key, before))[1..] == Insert(x, s[1..], key, before);
    } else if |s| > 0 {
      assert ([x] + s)[1..] == s;
    }
  }

  /** Sorting is stable: the elements sharing any one key keep their
      relative order. */
  lemma {:induction false} SortIsStable<T, K>(s: seq<T>, key: T -> K, before: (K, K) -> bool, k: K)
    requires forall a :: !before(a, a)
    ensures WithKey(Sort(s, key, before), key, k) == WithKey(s, key, k)
  {
    if |s| > 0 {
      SortIsStable(s[1..], key, before, k);
      InsertWithKey(s[0], Sort(s[1..], key, before), key, before, k);
    }
  }
}
