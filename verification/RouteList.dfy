/** The routes to one peer, kept in order of round-trip time. */
module RouteList {
  import opened Basics

  /** A tunnel and the remote address behind it; only compared. */
  type RouteKey = nat

  datatype Route = Route(key: RouteKey, metric: byte, rtt: u32)

  predicate Direct(r: Route) {
    r.metric == 1
  }

  predicate Sorted(list: seq<Route>) {
    forall i, j :: 0 <= i < j < |list| ==> list[i].rtt <= list[j].rtt
  }

  predicate Lists(list: seq<Route>, key: RouteKey) {
    exists i :: 0 <= i < |list| && list[i].key == key
  }

  predicate DistinctKeys(list: seq<Route>) {
    forall i, j :: 0 <= i < j < |list| ==> list[i].key != list[j].key
  }

  /** The entries the test keeps, in their order. */
  function Kept(list: seq<Route>, keep: RouteKey -> bool): (r: seq<Route>)
    ensures |r| <= |list|
  {
    if list == [] then []
    else Kept(list[..|list| - 1], keep) + if keep(list[|list| - 1].key) then [list[|list| - 1]] else []
  }

  function Without(list: seq<Route>, key: RouteKey): seq<Route> {
    Kept(list, Other(key))
  }

  function Other(key: RouteKey): RouteKey -> bool {
    (k: RouteKey) => k != key
  }

  // ---------- the two swap loops and the insertion of `add_route` ----------

  /** The place of the first entry with the key, or the length. */
  function Position(list: seq<Route>, key: RouteKey): (p: nat)
    ensures p <= |list|
    ensures p < |list| ==> list[p].key == key
    ensures forall i :: 0 <= i < p ==> list[i].key != key
  {
    if list == [] then 0
    else if list[0].key == key then 0
    else
      var p := Position(list[1..], key);
      assert forall i :: 1 <= i < p + 1 ==> list[i] == list[1..][i - 1];
      p + 1
  }

  function Swapped(list: seq<Route>, i: nat, j: nat): (r: seq<Route>)
    requires i < |list| && j < |list|
    ensures |r| == |list|
  {
    list[i := list[j]][j := list[i]]
  }

  function BubbleUp(list: seq<Route>, i: nat): (r: (seq<Route>, nat))
    requires i < |list|
    ensures |r.0| == |list| && r.1 <= i
    decreases i
  {
    if i > 0 && list[i].rtt < list[i - 1].rtt then BubbleUp(Swapped(list, i, i - 1), i - 1) else (list, i)
  }

  function BubbleDown(list: seq<Route>, i: nat): (r: seq<Route>)
    requires i < |list|
    ensures |r| == |list|
    decreases |list| - i
  {
    if i + 1 < |list| && list[i].rtt > list[i + 1].rtt then BubbleDown(Swapped(list, i, i + 1), i + 1) else list
  }

  /** The first place whose entry is slower. */
  function InsertAt(list: seq<Route>, rtt: u32): (p: nat)
    ensures p <= |list|
    ensures forall i :: 0 <= i < p ==> list[i].rtt <= rtt
    ensures p < |list| ==> rtt < list[p].rtt
  {
    if list == [] || rtt < list[0].rtt then 0
    else
      var p := InsertAt(list[1..], rtt);
      assert forall i :: 1 <= i < p + 1 ==> list[i] == list[1..][i - 1];
      p + 1
  }

  function Placed(list: seq<Route>, r: Route): seq<Route> {
    var p := Position(list, r.key);
    if p < |list| then
      var (l, i) := BubbleUp(list[p := r], p);
      BubbleDown(l, i)
    else
      var q := InsertAt(list, r.rtt);
      list[..q] + [r] + list[q..]
  }

  // ---------- only the entry of the key changes ----------

  lemma {:induction false} KeptAppend(a: seq<Route>, b: seq<Route>, keep: RouteKey -> bool)
    ensures Kept(a + b, keep) == Kept(a, keep) + Kept(b, keep)
  {
    if b == [] {
      assert a + b == a;
    } else {
      var front, last := b[..|b| - 1], b[|b| - 1];
      KeptAppend(a, front, keep);
      assert (a + b)[..|a + b| - 1] == a + front;
    }
  }

  lemma KeptOne(r: Route, keep: RouteKey -> bool)
    ensures Kept([r], keep) == if keep(r.key) then [r] else []
  {
    assert [r][..0] == [];
  }

  /** Exchanging neighbours of which one is not kept does not show. */
  lemma KeptSwap(list: seq<Route>, i: nat, keep: RouteKey -> bool)
    requires i + 1 < |list| && (!keep(list[i].key) || !keep(list[i + 1].key))
    ensures Kept(Swapped(list, i, i + 1), keep) == Kept(list, keep)
  {
    var a, b, x, y := list[..i], list[i + 2..], list[i], list[i + 1];
    assert list == a + ([x] + [y]) + b;
    assert Swapped(list, i, i + 1) == a + ([y] + [x]) + b;
    KeptAppend(a + ([x] + [y]), b, keep);
    KeptAppend(a + ([y] + [x]), b, keep);
    KeptAppend(a, [x] + [y], keep);
    KeptAppend(a, [y] + [x], keep);
    KeptAppend([x], [y], keep);
    KeptAppend([y], [x], keep);
    KeptOne(x, keep);
    KeptOne(y, keep);
  }

  lemma KeptUpdate(list: seq<Route>, p: nat, r: Route, keep: RouteKey -> bool)
    requires p < |list| && !keep(list[p].key) && !keep(r.key)
    ensures Kept(list[p := r], keep) == Kept(list, keep)
  {
    var a, b := list[..p], list[p + 1..];
    assert list == a + [list[p]] + b && list[p := r] == a + [r] + b;
    KeptAppend(a + [list[p]], b, keep);
    KeptAppend(a + [r], b, keep);
    KeptAppend(a, [list[p]], keep);
    KeptAppend(a, [r], keep);
    KeptOne(list[p], keep);
    KeptOne(r, keep);
  }

  lemma {:induction false} BubbleUpKept(list: seq<Route>, i: nat, keep: RouteKey -> bool)
    requires i < |list| && !keep(list[i].key)
    ensures var (l, j) := BubbleUp(list, i); Kept(l, keep) == Kept(list, keep) && l[j] == list[i]
    decreases i
  {
    if i > 0 && list[i].rtt < list[i - 1].rtt {
      KeptSwap(list, i - 1, keep);
      assert Swapped(list, i, i - 1) == Swapped(list, i - 1, i);
      BubbleUpKept(Swapped(list, i, i - 1), i - 1, keep);
    }
  }

  lemma {:induction false} BubbleDownKept(list: seq<Route>, i: nat, keep: RouteKey -> bool)
    requires i < |list| && !keep(list[i].key)
    ensures Kept(BubbleDown(list, i), keep) == Kept(list, keep) && list[i] in BubbleDown(list, i)
    decreases |list| - i
  {
    if i + 1 < |list| && list[i].rtt > list[i + 1].rtt {
      KeptSwap(list, i, keep);
      BubbleDownKept(Swapped(list, i, i + 1), i + 1, keep);
    }
  }

  /** Placing a route changes nothing but the entry of its key: every other entry stays, in its order. */
  lemma PlacedOthers(list: seq<Route>, r: Route)
    ensures Without(Placed(list, r), r.key) == Without(list, r.key) && r in Placed(list, r)
  {
    var keep := Other(r.key);
    var p := Position(list, r.key);
    if p < |list| {
      KeptUpdate(list, p, r, keep);
      BubbleUpKept(list[p := r], p, keep);
      var (l, i) := BubbleUp(list[p := r], p);
      BubbleDownKept(l, i, keep);
    } else {
      var q := InsertAt(list, r.rtt);
      assert list[..q] + list[q..] == list;
      KeptAppend(list[..q] + [r], list[q..], keep);
      KeptAppend(list[..q], [r], keep);
      KeptAppend(list[..q], list[q..], keep);
      KeptOne(r, keep);
    }
  }

  // ---------- keys ----------

  lemma {:induction false} KeptKeys(list: seq<Route>, keep: RouteKey -> bool)
    ensures forall k :: Lists(Kept(list, keep), k) <==> Lists(list, k) && keep(k)
  {
    if list != [] {
      var front, last := list[..|list| - 1], list[|list| - 1];
      KeptKeys(front, keep);
      assert list == front + [last];
      forall k ensures Lists(list, k) <==> Lists(front, k) || k == last.key {
        ListsAppend(front, last, k);
      }
      forall k ensures Lists(Kept(front, keep) + [last], k) <==> Lists(Kept(front, keep), k) || k == last.key {
        ListsAppend(Kept(front, keep), last, k);
      }
      assert Kept(front, keep) + [] == Kept(front, keep);
    }
  }

  lemma ListsAppend(list: seq<Route>, r: Route, k: RouteKey)
    ensures Lists(list + [r], k) <==> Lists(list, k) || k == r.key
  {
    if Lists(list, k) {
      var i :| 0 <= i < |list| && list[i].key == k;
      assert (list + [r])[i].key == k;
    }
    assert (list + [r])[|list|].key == r.key;
  }

  lemma {:induction false} KeptDistinct(list: seq<Route>, keep: RouteKey -> bool)
    requires DistinctKeys(list)
    ensures DistinctKeys(Kept(list, keep))
  {
    if list != [] {
      var front, last := list[..|list| - 1], list[|list| - 1];
      KeptDistinct(front, keep);
      KeptKeys(front, keep);
      assert forall i :: 0 <= i < |front| ==> front[i] == list[i] && list[i].key != last.key;
      AppendDistinct(Kept(front, keep), last);
      assert Kept(front, keep) + [] == Kept(front, keep);
    }
  }

  lemma AppendDistinct(list: seq<Route>, r: Route)
    requires DistinctKeys(list) && !Lists(list, r.key)
    ensures DistinctKeys(list + [r])
  {
  }

  lemma {:induction false} KeptSorted(list: seq<Route>, keep: RouteKey -> bool)
    requires Sorted(list)
    ensures Sorted(Kept(list, keep)) && forall r :: r in Kept(list, keep) ==> r in list
  {
    if list != [] {
      var front, last := list[..|list| - 1], list[|list| - 1];
      KeptSorted(front, keep);
      var k := Kept(front, keep);
      assert forall i :: 0 <= i < |k| ==> k[i] in front;
    }
  }

  /** Exactly the key of the placed route is added. */
  lemma PlacedKeys(list: seq<Route>, r: Route)
    ensures forall k :: Lists(Placed(list, r), k) <==> Lists(list, k) || k == r.key
  {
    PlacedOthers(list, r);
    var keep := Other(r.key);
    KeptKeys(list, keep);
    KeptKeys(Placed(list, r), keep);
    forall k ensures Lists(Placed(list, r), k) <==> Lists(list, k) || k == r.key {
      if k != r.key {
        assert Lists(Without(list, r.key), k) <==> Lists(list, k);
        assert Lists(Without(Placed(list, r), r.key), k) <==> Lists(Placed(list, r), k);
      }
    }
  }

  lemma {:induction false} BubbleUpDistinct(list: seq<Route>, i: nat)
    requires i < |list| && DistinctKeys(list)
    ensures DistinctKeys(BubbleUp(list, i).0)
    decreases i
  {
    if i > 0 && list[i].rtt < list[i - 1].rtt {
      BubbleUpDistinct(Swapped(list, i, i - 1), i - 1);
    }
  }

  lemma {:induction false} BubbleDownDistinct(list: seq<Route>, i: nat)
    requires i < |list| && DistinctKeys(list)
    ensures DistinctKeys(BubbleDown(list, i))
    decreases |list| - i
  {
    if i + 1 < |list| && list[i].rtt > list[i + 1].rtt {
      BubbleDownDistinct(Swapped(list, i, i + 1), i + 1);
    }
  }

  lemma PlacedDistinct(list: seq<Route>, r: Route)
    requires DistinctKeys(list)
    ensures DistinctKeys(Placed(list, r))
  {
    var p := Position(list, r.key);
    if p < |list| {
      BubbleUpDistinct(list[p := r], p);
      var (l, i) := BubbleUp(list[p := r], p);
      BubbleDownDistinct(l, i);
    }
  }

  // ---------- order ----------

  /** Sorted but for the entry at `i`. */
  predicate SortedBut(list: seq<Route>, i: nat) {
    forall a, b :: 0 <= a < b < |list| && a != i && b != i ==> list[a].rtt <= list[b].rtt
  }

  predicate NotBefore(list: seq<Route>, i: nat)
    requires i < |list|
  {
    forall a :: 0 <= a < i ==> list[a].rtt <= list[i].rtt
  }

  lemma SwapSortedBut(list: seq<Route>, i: nat, j: nat)
    requires SortedBut(list, i) && i < |list| && j < |list| && (j == i + 1 || i == j + 1)
    ensures SortedBut(Swapped(list, i, j), j)
  {
    var s := Swapped(list, i, j);
    forall a, b | 0 <= a < b < |s| && a != j && b != j ensures s[a].rtt <= s[b].rtt {
      var c, d := if a == i then j else a, if b == i then j else b;
      assert s[a] == list[c] && s[b] == list[d];
    }
  }

  lemma {:induction false} BubbleUpSorts(list: seq<Route>, i: nat)
    requires i < |list| && SortedBut(list, i)
    requires forall b :: i < b < |list| ==> i > 0 && list[i].rtt < list[i - 1].rtt ==> list[i].rtt <= list[b].rtt
    ensures var (l, j) := BubbleUp(list, i); SortedBut(l, j) && NotBefore(l, j)
    decreases i
  {
    if i > 0 && list[i].rtt < list[i - 1].rtt {
      SwapSortedBut(list, i, i - 1);
      BubbleUpSorts(Swapped(list, i, i - 1), i - 1);
    }
  }

  lemma {:induction false} BubbleDownSorts(list: seq<Route>, i: nat)
    requires i < |list| && SortedBut(list, i) && NotBefore(list, i)
    ensures Sorted(BubbleDown(list, i))
    decreases |list| - i
  {
    if i + 1 < |list| && list[i].rtt > list[i + 1].rtt {
      SwapSortedBut(list, i, i + 1);
      BubbleDownSorts(Swapped(list, i, i + 1), i + 1);
    }
  }

  /** Placing a route in a sorted list keeps it sorted. */
  lemma PlacedSorted(list: seq<Route>, r: Route)
    requires Sorted(list)
    ensures Sorted(Placed(list, r))
  {
    var p := Position(list, r.key);
    if p < |list| {
      var changed := list[p := r];
      BubbleUpSorts(changed, p);
      var (l, i) := BubbleUp(changed, p);
      BubbleDownSorts(l, i);
    }
  }

  // ---------- the list operations as the source runs them ----------

  lemma {:induction false} PositionIs(list: seq<Route>, key: RouteKey, p: nat)
    requires p <= |list| && (p < |list| ==> list[p].key == key)
    requires forall i :: 0 <= i < p ==> list[i].key != key
    ensures Position(list, key) == p
  {
  }

  /** Replaces the entry of the key and lets it bubble to its place, or inserts a new one. */
  method Place(list: seq<Route>, r: Route) returns (l: seq<Route>)
    ensures l == Placed(list, r)
  {
    l := list;
    var idx := 0;
    while idx < |l| && l[idx].key != r.key
      invariant idx <= |l|
      invariant forall i :: 0 <= i < idx ==> l[i].key != r.key
    {
      idx := idx + 1;
    }
    PositionIs(list, r.key, idx);
    if idx < |l| {
      l := l[idx := r];
      ghost var start := l;
      var i := idx;
      while i > 0 && l[i].rtt < l[i - 1].rtt
        invariant i < |l| && BubbleUp(l, i) == BubbleUp(start, idx)
      {
        l := Swapped(l, i, i - 1);
        i := i - 1;
      }
      ghost var (top, at) := BubbleUp(start, idx);
      while i + 1 < |l| && l[i].rtt > l[i + 1].rtt
        invariant i < |l| && BubbleDown(l, i) == BubbleDown(top, at)
        decreases |l| - i
      {
        l := Swapped(l, i, i + 1);
        i := i + 1;
      }
      return;
    }
    var pos := 0;
    while pos < |l| && r.rtt >= l[pos].rtt
      invariant pos <= |l| && forall j :: 0 <= j < pos ==> l[j].rtt <= r.rtt
    {
      pos := pos + 1;
    }
    InsertAtIs(list, r.rtt, pos);
    l := l[..pos] + [r] + l[pos..];
  }

  lemma InsertAtIs(list: seq<Route>, rtt: u32, p: nat)
    requires p <= |list| && (p < |list| ==> rtt < list[p].rtt)
    requires forall i :: 0 <= i < p ==> list[i].rtt <= rtt
    ensures InsertAt(list, rtt) == p
  {
  }

  /** Drops the entries of one key. */
  method Retain(list: seq<Route>, key: RouteKey) returns (l: seq<Route>)
    ensures l == Without(list, key)
  {
    l := [];
    for i := 0 to |list|
      invariant l == Without(list[..i], key)
    {
      assert list[..i + 1][..i] == list[..i];
      if list[i].key != key {
        l := l + [list[i]];
      }
    }
    assert list[..|list|] == list;
  }

  lemma {:induction false} KeptSame(list: seq<Route>, p: RouteKey -> bool, q: RouteKey -> bool)
    requires forall k: RouteKey | Lists(list, k) :: p(k) == q(k)
    ensures Kept(list, p) == Kept(list, q)
  {
    if list != [] {
      var front, last := list[..|list| - 1], list[|list| - 1];
      assert list == front + [last];
      forall k | Lists(front, k) ensures p(k) == q(k) {
        ListsAppend(front, last, k);
      }
      ListsAppend(front, last, last.key);
      KeptSame(front, p, q);
    }
  }

  function Both(p: RouteKey -> bool, q: RouteKey -> bool): RouteKey -> bool {
    (k: RouteKey) => p(k) && q(k)
  }

  lemma {:induction false} KeptTwice(list: seq<Route>, p: RouteKey -> bool, q: RouteKey -> bool)
    ensures Kept(Kept(list, p), q) == Kept(list, Both(p, q))
  {
    if list != [] {
      var front, last := list[..|list| - 1], list[|list| - 1];
      KeptTwice(front, p, q);
      KeptAppend(Kept(front, p), if p(last.key) then [last] else [], q);
      KeptOne(last, q);
    }
  }

  lemma {:induction false} KeptAll(list: seq<Route>, p: RouteKey -> bool)
    requires forall k: RouteKey | Lists(list, k) :: p(k)
    ensures Kept(list, p) == list
  {
    if list != [] {
      var front, last := list[..|list| - 1], list[|list| - 1];
      assert list == front + [last];
      forall k | Lists(front, k) ensures p(k) {
        ListsAppend(front, last, k);
      }
      ListsAppend(front, last, last.key);
      KeptAll(front, p);
    }
  }
}
