/** What the route table holds, entry by entry: after every run each peer's list consists of the routes
    last recorded for its tunnels, and each tunnel is owned by the peer that claimed it. */
module RouteMemory {
  import opened Basics
  import opened RouteList
  import opened RouteTable
  import opened RouteRuns

  /** The route recorded for each (peer, tunnel), the owner of each tunnel, and the time of each pair. */
  datatype Memory = Memory(routes: map<Pair, Route>, owner: map<RouteKey, Ip>, time: map<Pair, nat>)

  ghost predicate HasRoute(m: Memory, id: Ip) {
    exists key: RouteKey :: (id, key) in m.routes
  }

  /** Claiming a tunnel records a direct route unless there is a route, and takes it from another owner. */
  function Claimed(m: Memory, id: Ip, key: RouteKey, rtt: u32, now: nat): Memory {
    Memory(map[(id, key) := Route(key, 1, rtt)] + m.routes, m.owner[key := id], m.time[(id, key) := now])
  }

  /** Recording a route replaces the pair's; a direct one claims a tunnel nobody owns. */
  function Recorded(m: Memory, id: Ip, r: Route, now: nat): Memory {
    Memory(m.routes[(id, r.key) := r],
           if r.metric == 1 then map[r.key := id] + m.owner else m.owner,
           m.time[(id, r.key) := now])
  }

  /** Forgetting some pairs forgets their routes, their times, and the claims made with them. */
  ghost function Forgotten(m: Memory, gone: iset<Pair>): Memory {
    Memory(map p | p in m.routes && p !in gone :: m.routes[p],
           map key | key in m.owner && (m.owner[key], key) !in gone :: m.owner[key],
           map p | p in m.time && p !in gone :: m.time[p])
  }

  ghost function After(m: Memory, op: Op, rtt: u32, now: nat): Memory {
    match op
    case AddOwner(id, key) => Claimed(m, id, key, rtt, now)
    case AddRoute(id, r) => if r.metric == 1 || HasRoute(m, id) then Recorded(m, id, r, now) else m
    case AddIfAbsent(id, r) => if r.metric == 1 && !HasRoute(m, id) then Recorded(m, id, r, now) else m
    case Remove(id, key) => Forgotten(m, iset{(id, key)})
    case Sweep(limit) => Forgotten(m, iset p | p in m.time && m.time[p] <= limit)
  }

  ghost function Remembered(ops: seq<Op>, nows: seq<nat>, rtt: u32): Memory
    requires |ops| == |nows|
  {
    if ops == [] then Memory(map[], map[], map[])
    else
      var n := |ops| - 1;
      After(Remembered(ops[..n], nows[..n], rtt), ops[n], rtt, nows[n])
  }

  predicate Records(m: Memory, id: Ip, r: Route) {
    (id, r.key) in m.routes && m.routes[(id, r.key)] == r
  }

  /** The table holds just these routes, owners and times. */
  ghost predicate Holds(t: Tables, m: Memory) {
    && (forall id: Ip, r: Route :: r in ListOf(t, id) <==> Records(m, id, r))
    && (forall p: Pair :: p in m.routes ==> m.routes[p].key == p.1)
    && t.owner == m.owner && t.time == m.time
  }

  // ---------- what each list operation leaves, entry by entry ----------

  lemma {:induction false} KeptExactly(list: seq<Route>, keep: RouteKey -> bool)
    ensures forall r :: r in Kept(list, keep) <==> r in list && keep(r.key)
  {
    if list != [] {
      KeptExactly(list[..|list| - 1], keep);
      assert list == list[..|list| - 1] + [list[|list| - 1]];
    }
  }

  lemma PlacedExactly(list: seq<Route>, r: Route)
    requires DistinctKeys(list)
    ensures forall s :: s in Placed(list, r) <==> s == r || (s in list && s.key != r.key)
  {
    hide Placed;
    PlacedOthers(list, r);
    PlacedDistinct(list, r);
    KeptExactly(list, Other(r.key));
    KeptExactly(Placed(list, r), Other(r.key));
    var after := Placed(list, r);
    forall s ensures s in after <==> s == r || (s in list && s.key != r.key) {
      if s in after && s.key == r.key {
        OneEntry(after, r, s);
      } else {
        assert s in Without(after, r.key) <==> s in after && s.key != r.key;
        assert s in Without(list, r.key) <==> s in list && s.key != r.key;
      }
    }
  }

  lemma OneEntry(list: seq<Route>, r: Route, s: Route)
    requires DistinctKeys(list) && r in list && s in list && r.key == s.key
    ensures r == s
  {
  }

  lemma ListedIsRecorded(t: Tables, m: Memory, id: Ip, key: RouteKey)
    requires Holds(t, m)
    ensures Lists(ListOf(t, id), key) <==> (id, key) in m.routes
  {
    if Lists(ListOf(t, id), key) {
      var i :| 0 <= i < |ListOf(t, id)| && ListOf(t, id)[i].key == key;
      assert ListOf(t, id)[i] in ListOf(t, id);
    }
    if (id, key) in m.routes {
      assert Records(m, id, m.routes[(id, key)]);
    }
  }

  lemma KnownHasRoute(t: Tables, m: Memory, id: Ip)
    requires Consistent(t) && Holds(t, m)
    ensures HasRoute(m, id) <==> id in t.table
  {
    if HasRoute(m, id) {
      var key: RouteKey :| (id, key) in m.routes;
      ListedIsRecorded(t, m, id, key);
    }
    if id in t.table {
      ListedIsRecorded(t, m, id, t.table[id][0].key);
    }
  }

  // ---------- the operations ----------

  lemma ClaimLists(t: Tables, id: Ip, key: RouteKey, rtt: u32, now: nat, i: Ip)
    ensures ListOf(OwnerAdded(t, id, key, rtt, now), i) ==
      if i != id || Lists(ListOf(t, id), key) then ListOf(t, i) else ListOf(t, id) + [Route(key, 1, rtt)]
  {
    hide Lists;
  }

  lemma RecordLists(t: Tables, id: Ip, r: Route, now: nat, i: Ip)
    requires r.metric == 1 || id in t.table
    ensures ListOf(Added(t, id, r, now), i) == if i != id then ListOf(t, i) else Placed(ListOf(t, id), r)
  {
    hide Placed;
  }

  lemma DropLists(t: Tables, id: Ip, key: RouteKey, i: Ip)
    ensures ListOf(Removed(t, id, key), i) == if i != id then ListOf(t, i) else Without(ListOf(t, id), key)
  {
  }

  lemma SweepLists(t: Tables, limit: nat, i: Ip)
    ensures ListOf(Swept(t, limit), i) == Kept(ListOf(t, i), Spared(Expired(t, limit), i))
  {
  }

  lemma ClaimHolds(t: Tables, m: Memory, id: Ip, key: RouteKey, rtt: u32, now: nat)
    requires Holds(t, m)
    ensures Holds(OwnerAdded(t, id, key, rtt, now), Claimed(m, id, key, rtt, now))
  {
    var u, n := OwnerAdded(t, id, key, rtt, now), Claimed(m, id, key, rtt, now);
    ListedIsRecorded(t, m, id, key);
    forall i: Ip, r: Route ensures r in ListOf(u, i) <==> Records(n, i, r) {
      assert r in ListOf(t, i) <==> Records(m, i, r);
      ClaimLists(t, id, key, rtt, now, i);
      hide OwnerAdded, ListOf, Lists;
    }
  }

  lemma RecordEach(t: Tables, m: Memory, id: Ip, r: Route, now: nat, i: Ip, s: Route)
    requires DistinctKeys(ListOf(t, id)) && (r.metric == 1 || id in t.table)
    requires s in ListOf(t, i) <==> Records(m, i, s)
    ensures s in ListOf(Added(t, id, r, now), i) <==> Records(Recorded(m, id, r, now), i, s)
  {
    PlacedExactly(ListOf(t, id), r);
    RecordLists(t, id, r, now, i);
    hide Added, ListOf, Placed, DistinctKeys;
  }

  lemma RecordHolds(t: Tables, m: Memory, id: Ip, r: Route, now: nat)
    requires DistinctKeys(ListOf(t, id)) && Holds(t, m) && (r.metric == 1 || id in t.table)
    ensures Holds(Added(t, id, r, now), Recorded(m, id, r, now))
  {
    hide Placed, DistinctKeys, ListOf, Records;
    forall i: Ip, s: Route
      ensures s in ListOf(Added(t, id, r, now), i) <==> Records(Recorded(m, id, r, now), i, s)
    {
      RecordEach(t, m, id, r, now, i, s);
    }
  }

  lemma DropHolds(t: Tables, m: Memory, id: Ip, key: RouteKey)
    requires Holds(t, m)
    ensures Holds(Removed(t, id, key), Forgotten(m, iset{(id, key)}))
  {
    var u, n := Removed(t, id, key), Forgotten(m, iset{(id, key)});
    KeptExactly(ListOf(t, id), Other(key));
    assert u.owner == n.owner;
    assert u.time == n.time;
    hide Kept;
    forall i: Ip, s: Route ensures s in ListOf(u, i) <==> Records(n, i, s) {
      assert s in ListOf(t, i) <==> Records(m, i, s);
      DropLists(t, id, key, i);
      hide Removed, ListOf;
    }
  }

  lemma SweepHolds(t: Tables, m: Memory, limit: nat)
    requires Holds(t, m)
    ensures Holds(Swept(t, limit), Forgotten(m, iset p | p in m.time && m.time[p] <= limit))
  {
    hide Kept;
    var u, n := Swept(t, limit), Forgotten(m, iset p | p in m.time && m.time[p] <= limit);
    assert u.owner == n.owner;
    assert u.time == n.time;
    forall i: Ip, s: Route ensures s in ListOf(u, i) <==> Records(n, i, s) {
      assert s in ListOf(t, i) <==> Records(m, i, s);
      KeptExactly(ListOf(t, i), Spared(Expired(t, limit), i));
      SweepLists(t, limit, i);
      hide Swept, ListOf;
    }
  }

  lemma DistinctOf(t: Tables, id: Ip)
    requires Consistent(t)
    ensures DistinctKeys(ListOf(t, id))
  {
  }

  lemma StepHolds(t: Tables, m: Memory, op: Op, rtt: u32, now: nat)
    requires Consistent(t) && Holds(t, m)
    ensures Holds(Apply(t, op, rtt, now), After(m, op, rtt, now))
  {
    hide OwnerAdded, Claimed, Recorded, Removed, Swept, Forgotten, Placed, Holds, Consistent;
    match op
    case AddOwner(id, key) => ClaimHolds(t, m, id, key, rtt, now);
    case AddRoute(id, r) =>
      KnownHasRoute(t, m, id);
      DistinctOf(t, id);
      if r.metric == 1 || id in t.table {
        RecordHolds(t, m, id, r, now);
      }
    case AddIfAbsent(id, r) =>
      KnownHasRoute(t, m, id);
      DistinctOf(t, id);
      if r.metric == 1 && id !in t.table {
        RecordHolds(t, m, id, r, now);
      }
    case Remove(id, key) => DropHolds(t, m, id, key);
    case Sweep(limit) => SweepHolds(t, m, limit);
  }

  /** After any run the lists hold exactly the routes last recorded for their pairs, and owners and times
      are those recorded; so a peer has a direct route exactly when one was recorded for it. */
  lemma {:induction false} TableRemembers(ss: seq<Tables>, ops: seq<Op>, nows: seq<nat>, rtt: u32, n: nat)
    requires Run(ss, ops, nows, rtt) && n <= |ops|
    ensures Holds(ss[n], Remembered(ops[..n], nows[..n], rtt))
  {
    hide Apply, After, Holds;
    if n > 0 {
      TableRemembers(ss, ops, nows, rtt, n - 1);
      TableRefinesRelation(ss, ops, nows, rtt, n - 1);
      assert ss[n] == Apply(ss[n - 1], ops[n - 1], rtt, nows[n - 1]);
      assert ops[..n][..n - 1] == ops[..n - 1] && nows[..n][..n - 1] == nows[..n - 1];
      StepHolds(ss[n - 1], Remembered(ops[..n - 1], nows[..n - 1], rtt), ops[n - 1], rtt, nows[n - 1]);
    } else {
      assert Holds(EMPTY, Memory(map[], map[], map[])) by {
        EmptyHolds();
      }
    }
  }

  lemma EmptyHolds()
    ensures Holds(EMPTY, Memory(map[], map[], map[]))
  {
  }

  // ---------- punching ----------

  ghost predicate NeedsPunch(t: Tables, id: Ip) {
    forall r :: r in ListOf(t, id) ==> r.metric != 1
  }

  /** Claiming a tunnel stops the punching of its peer exactly when the tunnel was new to the peer or
      some route to it was direct: a relay route under the same tunnel stays what it is. A direct route
      stops it always. */
  lemma PunchedIff(t: Tables, id: Ip, key: RouteKey, rtt: u32, now: nat, r: Route)
    ensures !NeedsPunch(OwnerAdded(t, id, key, rtt, now), id) <==> !Lists(ListOf(t, id), key) || !NeedsPunch(t, id)
    ensures r.metric == 1 ==> !NeedsPunch(Added(t, id, r, now), id)
    ensures ListOf(t, id) <= ListOf(OwnerAdded(t, id, key, rtt, now), id)
  {
    var u := OwnerAdded(t, id, key, rtt, now);
    if !Lists(ListOf(t, id), key) {
      assert Route(key, 1, rtt) in ListOf(u, id);
    }
    if r.metric == 1 {
      PlacedOthers(ListOf(t, id), r);
      assert r in ListOf(Added(t, id, r, now), id);
    }
  }
}
