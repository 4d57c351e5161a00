/** The stable sort by key of the Rust standard library, as insertion: equal keys keep their order. */
module Sorting {

  predicate SortedBy<T>(s: seq<T>, key: T -> int) {
    forall i, j :: 0 <= i < j < |s| ==> key(s[i]) <= key(s[j])
  }

  /** Inserts behind every element that is not larger. */
  function Insert<T>(s: seq<T>, x: T, key: T -> int): seq<T> {
    if s == [] || key(s[|s| - 1]) <= key(x) then s + [x]
    else Insert(s[..|s| - 1], x, key) + [s[|s| - 1]]
  }

  function StableSort<T>(s: seq<T>, key: T -> int): seq<T> {
    if s == [] then [] else Insert(StableSort(s[..|s| - 1], key), s[|s| - 1], key)
  }

  lemma {:induction false} InsertElements<T>(s: seq<T>, x: T, key: T -> int)
    ensures multiset(Insert(s, x, key)) == multiset(s) + multiset{x}
  {
    if !(s == [] || key(s[|s| - 1]) <= key(x)) {
      var front, last := s[..|s| - 1], s[|s| - 1];
      assert s == front + [last];
      InsertElements(front, x, key);
    }
  }

  lemma {:induction false} InsertSorted<T>(s: seq<T>, x: T, key: T -> int)
    requires SortedBy(s, key)
    ensures SortedBy(Insert(s, x, key), key)
  {
    if !(s == [] || key(s[|s| - 1]) <= key(x)) {
      var front, last := s[..|s| - 1], s[|s| - 1];
      InsertSorted(front, x, key);
      InsertElements(front, x, key);
      var r := Insert(front, x, key);
      forall i | 0 <= i < |r| ensures key(r[i]) <= key(last) {
        BoundedBy(r, front, x, last, key, i);
      }
    }
  }

  lemma BoundedBy<T>(r: seq<T>, front: seq<T>, x: T, last: T, key: T -> int, i: nat)
    requires multiset(r) == multiset(front) + multiset{x} && i < |r|
    requires forall j :: 0 <= j < |front| ==> key(front[j]) <= key(last)
    requires key(x) <= key(last)
    ensures key(r[i]) <= key(last)
  {
    assert r[i] in multiset(r);
    if r[i] != x {
      assert r[i] in multiset(front);
    }
  }

  lemma {:induction false} StableSortSorts<T>(s: seq<T>, key: T -> int)
    ensures SortedBy(StableSort(s, key), key)
    ensures multiset(StableSort(s, key)) == multiset(s)
    ensures |StableSort(s, key)| == |s|
  {
    if s != [] {
      var front, last := s[..|s| - 1], s[|s| - 1];
      assert s == front + [last];
      StableSortSorts(front, key);
      InsertSorted(StableSort(front, key), last, key);
      InsertElements(StableSort(front, key), last, key);
      assert |multiset(StableSort(s, key))| == |multiset(s)|;
    }
  }

  /** The elements with one key, in order. */
  function WithKey<T>(s: seq<T>, key: T -> int, k: int): seq<T> {
    if s == [] then [] else WithKey(s[..|s| - 1], key, k) + if key(s[|s| - 1]) == k then [s[|s| - 1]] else []
  }

  lemma {:induction false} InsertStable<T>(s: seq<T>, x: T, key: T -> int, k: int)
    requires SortedBy(s, key)
    ensures WithKey(Insert(s, x, key), key, k) == WithKey(s, key, k) + if key(x) == k then [x] else []
  {
    if s == [] || key(s[|s| - 1]) <= key(x) {
      assert (s + [x])[..|s|] == s;
    } else {
      var front, last := s[..|s| - 1], s[|s| - 1];
      InsertStable(front, x, key, k);
      var r := Insert(front, x, key);
      assert (r + [last])[..|r|] == r;
      if key(x) == k && key(last) == k {
        assert false;
      }
    }
  }

  /** Sorting does not reorder elements with equal keys. */
  lemma {:induction false} StableSortStable<T>(s: seq<T>, key: T -> int, k: int)
    ensures WithKey(StableSort(s, key), key, k) == WithKey(s, key, k)
  {
    if s != [] {
      var front := s[..|s| - 1];
      StableSortStable(front, key, k);
      StableSortSorts(front, key);
      InsertStable(StableSort(front, key), s[|s| - 1], key, k);
    }
  }

  lemma DistinctFromMultiset<T>(s: seq<T>, i: nat, j: nat)
    requires i < j < |s| && multiset(s)[s[i]] <= 1
    ensures s[i] != s[j]
  {
    assert s == s[..j] + s[j..];
    assert s[i] in s[..j];
  }

  lemma {:induction false} MultisetOfDistinct<T>(s: seq<T>, x: T)
    requires forall i, j :: 0 <= i < j < |s| ==> s[i] != s[j]
    ensures multiset(s)[x] <= 1
  {
    if s != [] {
      var front, last := s[..|s| - 1], s[|s| - 1];
      assert s == front + [last];
      MultisetOfDistinct(front, x);
      if x == last && x in front {
        assert false;
      }
    }
  }

  lemma SortKeepsDistinct<T>(s: seq<T>, key: T -> int)
    requires forall i, j :: 0 <= i < j < |s| ==> s[i] != s[j]
    ensures var r := StableSort(s, key); forall i, j :: 0 <= i < j < |r| ==> r[i] != r[j]
  {
    StableSortSorts(s, key);
    var r := StableSort(s, key);
    forall i: nat, j: nat | i < j < |r| ensures r[i] != r[j] {
      MultisetOfDistinct(s, r[i]);
      DistinctFromMultiset(r, i, j);
    }
  }
}
