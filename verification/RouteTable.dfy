/** The three maps of the route table, its operations run one at a time, and the timestamped
    relation they refine. */
module RouteTable {
  import opened Basics
  import opened RouteList

  type Pair = (Ip, RouteKey)

  /** Routes by peer, the peer that owns each tunnel, and when each (peer, tunnel) was last seen. */
  datatype Tables = Tables(table: map<Ip, seq<Route>>, owner: map<RouteKey, Ip>, time: map<Pair, nat>)

  const EMPTY := Tables(map[], map[], map[])

  function ListOf(t: Tables, id: Ip): seq<Route> {
    if id in t.table then t.table[id] else []
  }

  predicate Listed(t: Tables, id: Ip, key: RouteKey) {
    Lists(ListOf(t, id), key)
  }

  function Get(t: Tables, id: Ip): Option<Route> {
    if ListOf(t, id) == [] then None else Some(t.table[id][0])
  }

  // ---------- the effect of each operation ----------

  /** `rtt` is the round-trip time given to a route that has not been measured. */
  function OwnerAdded(t: Tables, id: Ip, key: RouteKey, rtt: u32, now: nat): Tables {
    var list := ListOf(t, id);
    Tables(t.table[id := if Lists(list, key) then list else list + [Route(key, 1, rtt)]],
           t.owner[key := id], t.time[(id, key) := now])
  }

  function Added(t: Tables, id: Ip, r: Route, now: nat): Tables {
    if !Direct(r) && id !in t.table then t
    else
      Tables(t.table[id := Placed(ListOf(t, id), r)],
             if Direct(r) && r.key !in t.owner then t.owner[r.key := id] else t.owner,
             t.time[(id, r.key) := now])
  }

  function AddedIfAbsent(t: Tables, id: Ip, r: Route, now: nat): Tables {
    if id in t.table then t else Added(t, id, r, now)
  }

  /** Takes one (peer, tunnel) out of the lists and the owners, leaving the stamps. */
  function Dropped(t: Tables, id: Ip, key: RouteKey): Tables {
    var list := Without(ListOf(t, id), key);
    Tables(if id !in t.table then t.table else if list == [] then t.table - {id} else t.table[id := list],
           if key in t.owner && t.owner[key] == id then t.owner - {key} else t.owner,
           t.time)
  }

  function Removed(t: Tables, id: Ip, key: RouteKey): Tables {
    Dropped(t, id, key).(time := t.time - {(id, key)})
  }

  function Expired(t: Tables, limit: nat): set<Pair> {
    set p | p in t.time && t.time[p] <= limit
  }

  /** The tables without the pairs in `gone`, all at once. */
  function Purged(t: Tables, gone: set<Pair>): Tables {
    Tables(map id | id in t.table && Left(t, gone, id) != [] :: Left(t, gone, id),
           map key | key in t.owner && (t.owner[key], key) !in gone :: t.owner[key],
           t.time)
  }

  function Left(t: Tables, gone: set<Pair>, id: Ip): seq<Route>
    requires id in t.table
  {
    Kept(t.table[id], Spared(gone, id))
  }

  function Spared(gone: set<Pair>, id: Ip): RouteKey -> bool {
    (k: RouteKey) => (id, k) !in gone
  }

  function Swept(t: Tables, limit: nat): Tables {
    var gone := Expired(t, limit);
    Purged(t, gone).(time := t.time - gone)
  }

  // ---------- what holds between operations ----------

  predicate NoEmptyList(t: Tables) {
    forall id :: id in t.table ==> t.table[id] != []
  }

  ghost predicate Consistent(t: Tables) {
    && NoEmptyList(t)
    && (forall id :: id in t.table ==> DistinctKeys(t.table[id]))
    && (forall id: Ip, key: RouteKey :: Listed(t, id, key) <==> (id, key) in t.time)
    && (forall key :: key in t.owner ==> Listed(t, t.owner[key], key))
  }

  // ---------- the sweep drops pairs one by one; together that is the purge ----------

  lemma PurgeNothing(t: Tables)
    requires NoEmptyList(t)
    ensures Purged(t, {}) == t
  {
    forall id | id in t.table ensures Left(t, {}, id) == t.table[id] {
      KeptAll(t.table[id], Spared({}, id));
    }
  }

  lemma LeftMore(t: Tables, gone: set<Pair>, id: Ip, key: RouteKey, other: Ip)
    requires other in t.table
    ensures Left(t, gone + {(id, key)}, other)
         == if other == id then Without(Left(t, gone, other), key) else Left(t, gone, other)
  {
    var list := t.table[other];
    var more := Spared(gone + {(id, key)}, other);
    var less := Spared(gone, other);
    if other == id {
      KeptTwice(list, less, Other(key));
      KeptSame(list, more, Both(less, Other(key)));
    } else {
      KeptSame(list, more, less);
    }
  }

  /** Dropping one more pair from a purged table purges that pair too. */
  lemma DropIsPurge(t: Tables, gone: set<Pair>, id: Ip, key: RouteKey)
    ensures Dropped(Purged(t, gone), id, key) == Purged(t, gone + {(id, key)})
  {
    hide Left;
    var before, after := Purged(t, gone), Purged(t, gone + {(id, key)});
    var got := Dropped(before, id, key);
    forall other | other in t.table
      ensures Left(t, gone + {(id, key)}, other)
           == if other == id then Without(Left(t, gone, other), key) else Left(t, gone, other)
    {
      LeftMore(t, gone, id, key, other);
    }
    assert Without([], key) == [];
    assert got.table == after.table;
    assert got.owner == after.owner;
  }

  lemma DropKeepsStamps(t: Tables, id: Ip, key: RouteKey, time: map<Pair, nat>)
    ensures Dropped(t.(time := time), id, key) == Dropped(t, id, key).(time := time)
  {
  }

  // ---------- the class ----------

  class RouteTables {
    var table: map<Ip, seq<Route>>
    var owner: map<RouteKey, Ip>
    var time: map<Pair, nat>
    const defaultRtt: u32

    function State(): Tables
      reads this
    {
      Tables(table, owner, time)
    }

    constructor (rtt: u32)
      ensures State() == EMPTY && defaultRtt == rtt
    {
      table, owner, time, defaultRtt := map[], map[], map[], rtt;
    }

    method GetById(id: Ip) returns (r: Option<Route>)
      ensures r == Get(State(), id)
    {
      if id !in table {
        return None;
      }
      var list := table[id];
      r := if list == [] then None else Some(list[0]);
    }

    /** A peer needs punching when none of its routes is direct. */
    method NeedPunch(id: Ip) returns (need: bool)
      ensures need <==> forall r :: r in ListOf(State(), id) ==> r.metric != 1
    {
      if id !in table {
        return true;
      }
      var list := table[id];
      need := !exists i :: 0 <= i < |list| && Direct(list[i]);
    }

    method AddOwnerRoute(id: Ip, key: RouteKey, now: nat)
      modifies this
      ensures State() == OwnerAdded(old(State()), id, key, defaultRtt, now)
    {
      owner := owner[key := id];
      time := time[(id, key) := now];
      if id !in table {
        table := table[id := []];
      }
      var list := table[id];
      if exists i :: 0 <= i < |list| && list[i].key == key {
        return;
      }
      table := table[id := list + [Route(key, 1, defaultRtt)]];
    }

    method AddRoute(id: Ip, r: Route, now: nat)
      modifies this
      ensures State() == Added(old(State()), id, r, now)
    {
      if Direct(r) {
        if r.key !in owner {
          owner := owner[r.key := id];
        }
      } else if id !in table {
        return;
      }
      time := time[(id, r.key) := now];
      var list := if id in table then table[id] else [];
      list := Place(list, r);
      table := table[id := list];
    }

    method AddRouteIfAbsent(id: Ip, r: Route, now: nat)
      modifies this
      ensures State() == AddedIfAbsent(old(State()), id, r, now)
    {
      if id in table {
        return;
      }
      AddRoute(id, r, now);
    }

    /** The part of a removal that the sweep repeats for every expired pair. */
    method Forget(id: Ip, key: RouteKey)
      modifies this`table, this`owner
      ensures State() == Dropped(old(State()), id, key)
    {
      if id in table {
        var list := Retain(table[id], key);
        table := table[id := list];
        if list == [] {
          table := table - {id};
        }
      }
      if key in owner && owner[key] == id {
        owner := owner - {key};
      }
    }

    method RemoveRoute(id: Ip, key: RouteKey)
      modifies this
      ensures State() == Removed(old(State()), id, key)
    {
      Forget(id, key);
      time := time - {(id, key)};
    }

    /** Collects the expired stamps, then forgets those pairs one by one. */
    method RemoveOldestRoute(limit: nat)
      requires NoEmptyList(State())
      modifies this
      ensures State() == Swept(old(State()), limit)
    {
      hide Dropped, Purged, Expired;
      ghost var t := State();
      var gone := CollectExpired(limit);
      PurgeNothing(t);
      assert Elements(gone[..0]) == {};
      assert gone == [] ==> gone == gone[..0] && t.time - {} == t.time;
      if gone == [] {
        return;
      }
      for i := 0 to |gone|
        invariant time == t.time - Elements(gone)
        invariant State() == Purged(t, Elements(gone[..i])).(time := time)
      {
        DropIsPurge(t, Elements(gone[..i]), gone[i].0, gone[i].1);
        DropKeepsStamps(Purged(t, Elements(gone[..i])), gone[i].0, gone[i].1, time);
        assert Elements(gone[..i + 1]) == Elements(gone[..i]) + {(gone[i].0, gone[i].1)};
        Forget(gone[i].0, gone[i].1);
      }
      assert gone[..|gone|] == gone;
    }

    /** Takes the expired stamps out, in the order in which the stamp map happens to list them. */
    method CollectExpired(limit: nat) returns (gone: seq<Pair>)
      modifies this`time
      ensures Elements(gone) == Expired(old(State()), limit)
      ensures time == old(time) - Elements(gone)
    {
      ghost var start := time;
      var order := IterationOrder(time.Keys);
      gone := [];
      for i := 0 to |order|
        invariant forall p :: p in gone <==> p in order[..i] && start[p] <= limit
        invariant time == start - Elements(gone)
      {
        var p := order[i];
        assert order[..i + 1] == order[..i] + [p] && p !in order[..i];
        if time[p] <= limit {
          gone := gone + [p];
          time := time - {p};
        }
      }
      assert order[..|order|] == order;
    }
  }
}
