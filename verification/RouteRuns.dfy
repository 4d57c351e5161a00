/** Runs of the route table: the three maps stay consistent and refine one timestamped relation,
    expiry is exact, and the first route of a peer is its fastest. */
module RouteRuns {
  import opened Basics
  import opened RouteList
  import opened RouteTable

  datatype Op =
    | AddOwner(id: Ip, key: RouteKey)
    | AddRoute(id: Ip, route: Route)
    | AddIfAbsent(id: Ip, route: Route)
    | Remove(id: Ip, key: RouteKey)
    | Sweep(limit: nat)

  function Apply(t: Tables, op: Op, rtt: u32, now: nat): Tables {
    match op
    case AddOwner(id, key) => OwnerAdded(t, id, key, rtt, now)
    case AddRoute(id, r) => Added(t, id, r, now)
    case AddIfAbsent(id, r) => AddedIfAbsent(t, id, r, now)
    case Remove(id, key) => Removed(t, id, key)
    case Sweep(limit) => Swept(t, limit)
  }

  // ---------- the relation ----------

  /** When each (peer, tunnel) was last seen: all that the table is meant to remember. */
  type Relation = map<Pair, nat>

  ghost predicate Known(rel: Relation, id: Ip) {
    exists key: RouteKey :: (id, key) in rel
  }

  ghost function Next(rel: Relation, op: Op, now: nat): Relation {
    match op
    case AddOwner(id, key) => rel[(id, key) := now]
    case AddRoute(id, r) => if r.metric == 1 || Known(rel, id) then rel[(id, r.key) := now] else rel
    case AddIfAbsent(id, r) => if r.metric == 1 && !Known(rel, id) then rel[(id, r.key) := now] else rel
    case Remove(id, key) => rel - {(id, key)}
    case Sweep(limit) => map p | p in rel && limit < rel[p] :: rel[p]
  }

  // ---------- which pairs each operation lists ----------

  lemma OwnerAddedLists(t: Tables, id: Ip, key: RouteKey, rtt: u32, now: nat)
    ensures forall i, k :: Listed(OwnerAdded(t, id, key, rtt, now), i, k) <==> Listed(t, i, k) || (i == id && k == key)
  {
    var u := OwnerAdded(t, id, key, rtt, now);
    forall i, k ensures Listed(u, i, k) <==> Listed(t, i, k) || (i == id && k == key) {
      if i == id {
        ListsAppend(ListOf(t, id), Route(key, 1, rtt), k);
      }
    }
  }

  lemma AddedLists(t: Tables, id: Ip, r: Route, now: nat)
    requires Direct(r) || id in t.table
    ensures forall i, k :: Listed(Added(t, id, r, now), i, k) <==> Listed(t, i, k) || (i == id && k == r.key)
  {
    hide Placed;
    PlacedKeys(ListOf(t, id), r);
  }

  lemma DroppedLists(t: Tables, id: Ip, key: RouteKey)
    ensures forall i, k :: Listed(Dropped(t, id, key), i, k) <==> Listed(t, i, k) && !(i == id && k == key)
  {
    hide Kept;
    KeptKeys(ListOf(t, id), Other(key));
    assert !Lists([], key);
  }

  lemma PurgedLists(t: Tables, gone: set<Pair>)
    ensures forall i: Ip, k: RouteKey :: Listed(Purged(t, gone), i, k) <==> Listed(t, i, k) && (i, k) !in gone
  {
    hide Kept;
    forall i: Ip, k: RouteKey ensures Listed(Purged(t, gone), i, k) <==> Listed(t, i, k) && (i, k) !in gone {
      if i in t.table {
        KeptKeys(t.table[i], Spared(gone, i));
        assert Lists(Left(t, gone, i), k) <==> Lists(t.table[i], k) && Spared(gone, i)(k);
      }
    }
  }

  // ---------- consistency ----------

  /** `u` is `t` with one more pair listed and stamped, and perhaps owned. */
  ghost predicate Extends(t: Tables, u: Tables, id: Ip, key: RouteKey) {
    && id in u.table && u.table - {id} == t.table - {id}
    && u.table[id] != [] && DistinctKeys(u.table[id])
    && (forall i, k :: Listed(u, i, k) <==> Listed(t, i, k) || (i == id && k == key))
    && (forall p: Pair :: p in u.time <==> p in t.time || p == (id, key))
    && (forall k :: k in u.owner ==> (k in t.owner && u.owner[k] == t.owner[k]) || (k == key && u.owner[k] == id))
  }

  lemma ExtendsConsistent(t: Tables, u: Tables, id: Ip, key: RouteKey)
    requires Consistent(t) && Extends(t, u, id, key)
    ensures Consistent(u)
  {
    hide Listed, DistinctKeys;
    forall other | other in u.table && other != id ensures other in t.table && u.table[other] == t.table[other] {
      assert other in u.table - {id} && other in t.table - {id};
      assert (u.table - {id})[other] == u.table[other] && (t.table - {id})[other] == t.table[other];
    }
  }

  lemma OwnerAddedConsistent(t: Tables, id: Ip, key: RouteKey, rtt: u32, now: nat)
    requires Consistent(t)
    ensures Consistent(OwnerAdded(t, id, key, rtt, now))
  {
    OwnerAddedLists(t, id, key, rtt, now);
    var list := ListOf(t, id);
    if !Lists(list, key) {
      AppendDistinct(list, Route(key, 1, rtt));
    }
    hide Lists, DistinctKeys;
    assert Extends(t, OwnerAdded(t, id, key, rtt, now), id, key);
    ExtendsConsistent(t, OwnerAdded(t, id, key, rtt, now), id, key);
  }

  lemma AddedConsistent(t: Tables, id: Ip, r: Route, now: nat)
    requires Consistent(t)
    ensures Consistent(Added(t, id, r, now))
  {
    hide Placed, DistinctKeys, Lists;
    if Direct(r) || id in t.table {
      AddedLists(t, id, r, now);
      PlacedOthers(ListOf(t, id), r);
      EmptyDistinct();
      PlacedDistinct(ListOf(t, id), r);
      assert Extends(t, Added(t, id, r, now), id, r.key) by {
        hide Listed;
      }
      ExtendsConsistent(t, Added(t, id, r, now), id, r.key);
    }
  }

  lemma EmptyDistinct()
    ensures DistinctKeys([])
  {
  }

  lemma RemovedConsistent(t: Tables, id: Ip, key: RouteKey)
    requires Consistent(t)
    ensures Consistent(Removed(t, id, key))
  {
    hide Kept, DistinctKeys;
    DroppedLists(t, id, key);
    if id in t.table {
      KeptDistinct(t.table[id], Other(key));
    }
    var u := Removed(t, id, key);
    assert forall i, k :: Listed(u, i, k) == Listed(Dropped(t, id, key), i, k);
  }

  lemma SweptConsistent(t: Tables, limit: nat)
    requires Consistent(t)
    ensures Consistent(Swept(t, limit))
  {
    hide Kept, DistinctKeys;
    var gone := Expired(t, limit);
    PurgedLists(t, gone);
    forall id | id in t.table ensures DistinctKeys(Left(t, gone, id)) {
      KeptDistinct(t.table[id], Spared(gone, id));
    }
    var u := Swept(t, limit);
    assert forall i, k :: Listed(u, i, k) == Listed(Purged(t, gone), i, k);
  }

  lemma StepConsistent(t: Tables, op: Op, rtt: u32, now: nat)
    requires Consistent(t)
    ensures Consistent(Apply(t, op, rtt, now))
  {
    hide Consistent, OwnerAdded, Added, Removed, Swept;
    match op
    case AddOwner(id, key) => OwnerAddedConsistent(t, id, key, rtt, now);
    case AddRoute(id, r) => AddedConsistent(t, id, r, now);
    case AddIfAbsent(id, r) => AddedConsistent(t, id, r, now);
    case Remove(id, key) => RemovedConsistent(t, id, key);
    case Sweep(limit) => SweptConsistent(t, limit);
  }

  // ---------- refinement ----------

  lemma KnownIsListed(t: Tables, id: Ip)
    requires Consistent(t)
    ensures Known(t.time, id) <==> id in t.table
    ensures Known(t.time, id) <==> Get(t, id).Some?
  {
    if id in t.table {
      assert Listed(t, id, t.table[id][0].key);
    }
  }

  lemma StepRefines(t: Tables, op: Op, rtt: u32, now: nat)
    requires Consistent(t)
    ensures Apply(t, op, rtt, now).time == Next(t.time, op, now)
  {
    hide Consistent, Placed, Kept;
    match op
    case AddOwner(id, key) =>
    case AddRoute(id, r) => KnownIsListed(t, id);
    case AddIfAbsent(id, r) => KnownIsListed(t, id);
    case Remove(id, key) =>
    case Sweep(limit) =>
  }

  ghost predicate Run(ss: seq<Tables>, ops: seq<Op>, nows: seq<nat>, rtt: u32) {
    && |ss| == |ops| + 1 && |nows| == |ops| && ss[0] == EMPTY
    && forall i {:trigger ops[i]} :: 0 <= i < |ops| ==> ss[i + 1] == Apply(ss[i], ops[i], rtt, nows[i])
  }

  ghost function Seen(ops: seq<Op>, nows: seq<nat>): Relation
    requires |ops| == |nows|
  {
    if ops == [] then map[] else Next(Seen(ops[..|ops| - 1], nows[..|ops| - 1]), ops[|ops| - 1], nows[|ops| - 1])
  }

  /** After any run the table lists exactly the (peer, tunnel) pairs of the relation, each tunnel once,
      with no empty list; it finds a route exactly for the known peers; and whoever owns a tunnel is
      listed with it. */
  lemma {:induction false} TableRefinesRelation(ss: seq<Tables>, ops: seq<Op>, nows: seq<nat>, rtt: u32, n: nat)
    requires Run(ss, ops, nows, rtt) && n <= |ops|
    ensures Consistent(ss[n]) && ss[n].time == Seen(ops[..n], nows[..n])
    ensures forall id: Ip, key: RouteKey :: Listed(ss[n], id, key) <==> (id, key) in Seen(ops[..n], nows[..n])
    ensures forall id: Ip :: Get(ss[n], id).Some? <==> Known(Seen(ops[..n], nows[..n]), id)
  {
    hide Apply, Next, Get;
    if n > 0 {
      TableRefinesRelation(ss, ops, nows, rtt, n - 1);
      var t, op, now := ss[n - 1], ops[n - 1], nows[n - 1];
      assert ss[n] == Apply(t, op, rtt, now);
      assert ops[..n][..n - 1] == ops[..n - 1] && nows[..n][..n - 1] == nows[..n - 1];
      StepConsistent(t, op, rtt, now);
      StepRefines(t, op, rtt, now);
    }
    forall id: Ip ensures Get(ss[n], id).Some? <==> Known(ss[n].time, id) {
      KnownIsListed(ss[n], id);
    }
  }

  // ---------- expiry ----------

  predicate SeenAfter(t: Tables, limit: nat, id: Ip, key: RouteKey) {
    (id, key) in t.time && limit < t.time[(id, key)]
  }

  /** A sweep leaves exactly the pairs stamped after the limit, with their stamps. */
  lemma SweepIsExact(t: Tables, limit: nat)
    requires Consistent(t)
    ensures forall id: Ip, key: RouteKey :: Listed(Swept(t, limit), id, key) <==> SeenAfter(t, limit, id, key)
    ensures Swept(t, limit).time == map p: Pair | p in t.time && limit < t.time[p] :: t.time[p]
  {
    hide Kept, DistinctKeys, Lists;
    var u, gone := Swept(t, limit), Expired(t, limit);
    PurgedLists(t, gone);
    forall id: Ip, key: RouteKey ensures Listed(u, id, key) <==> SeenAfter(t, limit, id, key) {
      assert Listed(u, id, key) == Listed(Purged(t, gone), id, key);
    }
  }

  /** The routes left to a peer stay in their order, a peer goes exactly when it has none left, and
      an owner stays exactly when its pair does. */
  lemma SweepKeepsOrder(t: Tables, limit: nat, id: Ip, key: RouteKey)
    requires Consistent(t)
    ensures var u := Swept(t, limit);
      && (id in u.table <==> exists k: RouteKey :: SeenAfter(t, limit, id, k))
      && (id in u.table ==>
            id in t.table && u.table[id] == Kept(t.table[id], (k: RouteKey) => SeenAfter(t, limit, id, k)))
      && (key in u.owner <==> key in t.owner && SeenAfter(t, limit, t.owner[key], key))
      && (key in u.owner ==> u.owner[key] == t.owner[key])
  {
    hide Kept, DistinctKeys;
    var u, gone := Swept(t, limit), Expired(t, limit);
    SweepIsExact(t, limit);
    SweptConsistent(t, limit);
    if id in u.table {
      assert Listed(u, id, u.table[id][0].key);
      KeptSame(t.table[id], Spared(gone, id), (k: RouteKey) => SeenAfter(t, limit, id, k));
    }
  }

  // ---------- order of round-trip times ----------

  ghost predicate AllSorted(t: Tables) {
    forall id :: id in t.table ==> Sorted(t.table[id])
  }

  /** The unmeasured route of a new tunnel goes to the end of the list, which stays sorted exactly
      when the tunnel is known already, the list is empty, or its last route is no slower. */
  lemma OwnerAddedSorted(t: Tables, id: Ip, key: RouteKey, rtt: u32, now: nat)
    requires AllSorted(t)
    ensures var list := ListOf(t, id);
      AllSorted(OwnerAdded(t, id, key, rtt, now))
      <==> Lists(list, key) || list == [] || list[|list| - 1].rtt <= rtt
  {
    var list, u := ListOf(t, id), OwnerAdded(t, id, key, rtt, now);
    if !Lists(list, key) && list != [] {
      var n := |list|;
      assert u.table[id][n - 1] == list[n - 1] && u.table[id][n].rtt == rtt;
    }
    if Lists(list, key) || list == [] || list[|list| - 1].rtt <= rtt {
      assert Sorted(u.table[id]);
    }
  }

  /** Every recorded time is at most `rtt`. */
  ghost predicate Within(t: Tables, rtt: u32) {
    forall id, i :: id in t.table && 0 <= i < |t.table[id]| ==> t.table[id][i].rtt <= rtt
  }

  predicate SampleWithin(op: Op, rtt: u32) {
    (op.AddRoute? || op.AddIfAbsent?) ==> op.route.rtt <= rtt
  }

  lemma {:induction false} KeptElements(list: seq<Route>, keep: RouteKey -> bool)
    ensures forall r :: r in Kept(list, keep) ==> r in list
  {
    if list != [] {
      KeptElements(list[..|list| - 1], keep);
    }
  }

  lemma PlacedElements(list: seq<Route>, r: Route)
    ensures forall s :: s in Placed(list, r) ==> s == r || s in list || s.key == r.key
  {
    hide Placed;
    PlacedOthers(list, r);
    var after := Placed(list, r);
    KeptElements(list, Other(r.key));
    forall s | s in after && s.key != r.key ensures s in list {
      var i :| 0 <= i < |after| && after[i] == s;
      assert after == after[..i] + [s] + after[i + 1..];
      KeptAppend(after[..i] + [s], after[i + 1..], Other(r.key));
      KeptAppend(after[..i], [s], Other(r.key));
      KeptOne(s, Other(r.key));
    }
  }

  lemma PlacedWithin(list: seq<Route>, r: Route, rtt: u32)
    requires DistinctKeys(list) && r.rtt <= rtt && forall i :: 0 <= i < |list| ==> list[i].rtt <= rtt
    ensures forall i :: 0 <= i < |Placed(list, r)| ==> Placed(list, r)[i].rtt <= rtt
  {
    hide Placed;
    PlacedElements(list, r);
    PlacedDistinct(list, r);
    PlacedOthers(list, r);
    var after := Placed(list, r);
    var at :| 0 <= at < |after| && after[at] == r;
    forall i | 0 <= i < |after| ensures after[i].rtt <= rtt {
      if after[i].key != r.key {
        assert after[i] in after && after[i] in list;
      } else if i != at {
        assert false;
      }
    }
  }

  lemma StepSorted(t: Tables, op: Op, rtt: u32, now: nat)
    requires Consistent(t) && AllSorted(t) && Within(t, rtt) && SampleWithin(op, rtt)
    ensures AllSorted(Apply(t, op, rtt, now)) && Within(Apply(t, op, rtt, now), rtt)
  {
    hide Placed, Kept, Sorted, DistinctKeys;
    EmptyDistinct();
    assert Sorted([]) by {
      EmptySorted();
    }
    match op
    case AddOwner(id, key) =>
      OwnerAddedSorted(t, id, key, rtt, now);
    case AddRoute(id, r) =>
      PlacedSorted(ListOf(t, id), r);
      PlacedWithin(ListOf(t, id), r, rtt);
    case AddIfAbsent(id, r) =>
      PlacedSorted(ListOf(t, id), r);
      PlacedWithin(ListOf(t, id), r, rtt);
    case Remove(id, key) =>
      KeptSorted(ListOf(t, id), Other(key));
      KeptStays(ListOf(t, id), Other(key), rtt);
    case Sweep(limit) =>
      forall id | id in t.table ensures Sorted(Left(t, Expired(t, limit), id)) {
        KeptSorted(t.table[id], Spared(Expired(t, limit), id));
      }
      forall id | id in t.table
        ensures forall i :: 0 <= i < |Left(t, Expired(t, limit), id)| ==> Left(t, Expired(t, limit), id)[i].rtt <= rtt
      {
        KeptStays(t.table[id], Spared(Expired(t, limit), id), rtt);
      }
  }

  lemma EmptySorted()
    ensures Sorted([])
  {
  }

  lemma KeptStays(list: seq<Route>, keep: RouteKey -> bool, rtt: u32)
    requires forall i :: 0 <= i < |list| ==> list[i].rtt <= rtt
    ensures forall i :: 0 <= i < |Kept(list, keep)| ==> Kept(list, keep)[i].rtt <= rtt
  {
    KeptElements(list, keep);
    var k := Kept(list, keep);
    forall i | 0 <= i < |k| ensures k[i].rtt <= rtt {
      assert k[i] in list;
    }
  }

  /** While no sample is slower than the time given to unmeasured routes, the route found for a peer
      is one of its fastest, after every run. */
  lemma {:induction false} FirstIsFastest(ss: seq<Tables>, ops: seq<Op>, nows: seq<nat>, rtt: u32, n: nat)
    requires Run(ss, ops, nows, rtt) && n <= |ops|
    requires forall i :: 0 <= i < n ==> SampleWithin(ops[i], rtt)
    ensures AllSorted(ss[n]) && Within(ss[n], rtt)
    ensures forall id: Ip, r: Route ::
      r in ListOf(ss[n], id) ==>
        Get(ss[n], id).Some? && Get(ss[n], id).value.rtt <= r.rtt && Get(ss[n], id).value in ListOf(ss[n], id)
  {
    hide Apply, SampleWithin;
    if n > 0 {
      FirstIsFastest(ss, ops, nows, rtt, n - 1);
      TableRefinesRelation(ss, ops, nows, rtt, n - 1);
      assert ss[n] == Apply(ss[n - 1], ops[n - 1], rtt, nows[n - 1]);
      StepSorted(ss[n - 1], ops[n - 1], rtt, nows[n - 1]);
    }
  }
}
