/** The server view under concurrency. An update holds the lock of the server maps while it rewrites
    the merged list; a clear empties the list first and the maps later, holding one lock at a time. */
module ServerLocks {
  import opened Basics
  import opened ServerInfo

  type Tid = nat

  /** `holder` is inside an update, the maps written and the list not; `halfway` are the clears that
      have emptied the list only. */
  datatype State = State(servers: Servers, list: seq<Client>, holder: Option<Tid>, halfway: set<Tid>)

  datatype Action =
    | UpdateMaps(tid: Tid, id: u32, self: Ip, clients: ClientList, now: int)
    | UpdateList(tid: Tid)
    | RenewBoth(ids: seq<u32>)
    | ConnectOne(id: u32, val: bool)
    | MeasureOne(id: u32, rtt: u32)
    | ClearList(tid: Tid)
    | ClearMaps(tid: Tid)

  const START := State(map[], [], None, {})

  /** Every step but the emptying of the list needs the lock of the maps. */
  ghost predicate Step(s: State, a: Action, t: State) {
    match a
    case UpdateMaps(tid, id, self, clients, now) =>
      s.holder == None && tid !in s.halfway
      && t == s.(servers := Updated(s.servers, id, self, clients, now), holder := Some(tid))
    case UpdateList(tid) =>
      s.holder == Some(tid) && Merged(t.list, s.servers) && t == s.(list := t.list, holder := None)
    case RenewBoth(ids) =>
      s.holder == None && t == s.(servers := Renewed(ids), list := [])
    case ConnectOne(id, val) =>
      s.holder == None && t == s.(servers := Apply(s.servers, Connect(id, val)))
    case MeasureOne(id, rtt) =>
      s.holder == None && t == s.(servers := Apply(s.servers, Measure(id, rtt)))
    case ClearList(tid) =>
      s.holder != Some(tid) && tid !in s.halfway && t == s.(list := [], halfway := s.halfway + {tid})
    case ClearMaps(tid) =>
      s.holder == None && tid in s.halfway
      && t == s.(servers := Cleared(s.servers), halfway := s.halfway - {tid})
  }

  ghost predicate Run(ss: seq<State>, actions: seq<Action>) {
    && |ss| == |actions| + 1 && ss[0] == START
    && forall i {:trigger actions[i]} :: 0 <= i < |actions| ==> Step(ss[i], actions[i], ss[i + 1])
  }

  // ---------- since the last update ----------

  predicate Syncs(a: Action) {
    a.UpdateList? || a.RenewBoth?
  }

  /** Some clear has emptied the list since the last update. */
  predicate ListCleared(actions: seq<Action>, n: nat)
    requires n <= |actions|
  {
    n > 0 && !Syncs(actions[n - 1]) && (actions[n - 1].ClearList? || ListCleared(actions, n - 1))
  }

  /** Some clear has emptied the maps since the last update. */
  predicate MapsCleared(actions: seq<Action>, n: nat)
    requires n <= |actions|
  {
    n > 0 && !Syncs(actions[n - 1]) && (actions[n - 1].ClearMaps? || MapsCleared(actions, n - 1))
  }

  ghost predicate Nobody(servers: Servers) {
    forall ip :: !Known(servers, ip)
  }

  /** The last update left nobody known. */
  ghost predicate NobodyThen(ss: seq<State>, actions: seq<Action>, n: nat)
    requires n <= |actions| && |ss| == |actions| + 1
  {
    n == 0 || if Syncs(actions[n - 1]) then Nobody(ss[n].servers) else NobodyThen(ss, actions, n - 1)
  }

  // ---------- when the list is the summary of the maps ----------

  lemma MergedEmpty(list: seq<Client>, servers: Servers)
    ensures Merged([], servers) <==> Nobody(servers)
    ensures Merged(list, servers) ==> (list == [] <==> Nobody(servers))
  {
    if Merged(list, servers) && list != [] {
      assert list[0] in list && Known(servers, list[0].ip);
    }
  }

  lemma SameNobody(a: Servers, b: Servers)
    requires forall id :: NodeOf(a, id).clients == NodeOf(b, id).clients
    ensures Nobody(a) <==> Nobody(b)
  {
    forall ip ensures Known(a, ip) == Known(b, ip) {
      assert forall id :: Lists(a, id, ip) == Lists(b, id, ip);
    }
  }

  lemma ClearedNobody(servers: Servers)
    ensures Nobody(Cleared(servers)) && Keyed(Cleared(servers))
  {
    assert forall id :: NodeOf(Cleared(servers), id).clients == map[];
  }

  ghost predicate Inv(s: State, l: bool, m: bool, nobody: bool) {
    && Keyed(s.servers)
    && (s.holder == None ==>
          && (l ==> s.list == []) && (m ==> Nobody(s.servers))
          && (!m ==> (Nobody(s.servers) <==> nobody)) && (!l ==> (s.list == [] <==> nobody))
          && (!l && !m ==> Merged(s.list, s.servers)))
  }

  lemma ChangeKeeps(s: State, t: State, l: bool, m: bool, nobody: bool)
    requires Inv(s, l, m, nobody) && s.holder == None && t == s.(servers := t.servers)
    requires forall id :: NodeOf(s.servers, id).clients == NodeOf(t.servers, id).clients
    ensures Inv(t, l, m, nobody)
  {
    SameNobody(s.servers, t.servers);
    forall id, ip | Lists(t.servers, id, ip) ensures NodeOf(t.servers, id).clients[ip].ip == ip {
      assert Lists(s.servers, id, ip);
    }
    if !l && !m {
      MergedStays(s.list, s.servers, t.servers);
    }
  }

  lemma StepKeeps(s: State, a: Action, t: State, l: bool, m: bool, nobody: bool)
    requires Inv(s, l, m, nobody) && Step(s, a, t)
    ensures Inv(t, !Syncs(a) && (a.ClearList? || l), !Syncs(a) && (a.ClearMaps? || m),
                if Syncs(a) then Nobody(t.servers) else nobody)
  {
    hide Merged, Updated, Known, Keyed;
    match a
    case UpdateMaps(tid, id, self, clients, now) =>
      UpdatedKeyed(s.servers, id, self, clients, now);
    case UpdateList(tid) =>
      MergedEmpty(t.list, t.servers);
    case RenewBoth(ids) =>
      RenewedNobody(ids);
      MergedEmpty([], t.servers);
    case ConnectOne(id, val) =>
      ChangeKeeps(s, t, l, m, nobody);
    case MeasureOne(id, rtt) =>
      ChangeKeeps(s, t, l, m, nobody);
    case ClearList(tid) =>
    case ClearMaps(tid) =>
      ClearedNobody(s.servers);
  }

  lemma RenewedNobody(ids: seq<u32>)
    ensures Nobody(Renewed(ids)) && Keyed(Renewed(ids))
  {
    assert forall id :: NodeOf(Renewed(ids), id).clients == map[];
  }

  lemma {:induction false} InvAlways(ss: seq<State>, actions: seq<Action>, n: nat)
    requires Run(ss, actions) && n <= |actions|
    ensures Inv(ss[n], ListCleared(actions, n), MapsCleared(actions, n), NobodyThen(ss, actions, n))
  {
    hide Inv, Step;
    if n == 0 {
      StartsWell();
    } else {
      InvAlways(ss, actions, n - 1);
      assert Step(ss[n - 1], actions[n - 1], ss[n]);
      StepKeeps(ss[n - 1], actions[n - 1], ss[n], ListCleared(actions, n - 1), MapsCleared(actions, n - 1),
                NobodyThen(ss, actions, n - 1));
    }
  }

  lemma StartsWell()
    ensures Inv(START, false, false, true)
  {
    MergedEmpty([], map[]);
  }

  /** At any moment outside an update, in every interleaving, the list is the summary of the maps
      exactly when, since the last update, clears have emptied both of them or neither, or that update
      left nobody known. */
  lemma SummaryHoldsIff(ss: seq<State>, actions: seq<Action>, n: nat)
    requires Run(ss, actions) && n <= |actions| && ss[n].holder == None
    ensures Merged(ss[n].list, ss[n].servers) <==>
      (ListCleared(actions, n) <==> MapsCleared(actions, n)) || NobodyThen(ss, actions, n)
  {
    hide Merged, Step;
    InvAlways(ss, actions, n);
    MergedEmpty(ss[n].list, ss[n].servers);
  }

  // ---------- clears that are not interrupted ----------

  lemma {:induction false} HalfwayWhenListOnly(ss: seq<State>, actions: seq<Action>, n: nat)
    requires Run(ss, actions) && n <= |actions|
    ensures ListCleared(actions, n) && !MapsCleared(actions, n) ==> ss[n].halfway != {}
  {
    if n > 0 {
      HalfwayWhenListOnly(ss, actions, n - 1);
      assert Step(ss[n - 1], actions[n - 1], ss[n]);
      if actions[n - 1].ClearList? {
        assert actions[n - 1].tid in ss[n].halfway;
      }
    }
  }

  lemma {:induction false} MapsOnlyWhenInterrupted(ss: seq<State>, actions: seq<Action>, n: nat)
    requires Run(ss, actions) && n <= |actions|
    requires forall i :: 0 <= i < n && actions[i].ClearMaps? ==> ListCleared(actions, i)
    ensures MapsCleared(actions, n) ==> ListCleared(actions, n)
  {
    if n > 0 {
      MapsOnlyWhenInterrupted(ss, actions, n - 1);
    }
  }

  /** If no update falls between the two halves of a clear, so that the list is still empty when the maps
      follow, the summary holds whenever no call is under way. */
  lemma UninterruptedClearsAgree(ss: seq<State>, actions: seq<Action>, n: nat)
    requires Run(ss, actions) && n <= |actions| && ss[n].holder == None && ss[n].halfway == {}
    requires forall i :: 0 <= i < n && actions[i].ClearMaps? ==> ListCleared(actions, i)
    ensures Merged(ss[n].list, ss[n].servers)
  {
    hide Merged, Step;
    HalfwayWhenListOnly(ss, actions, n);
    MapsOnlyWhenInterrupted(ss, actions, n);
    SummaryHoldsIff(ss, actions, n);
  }

  /** With an update in between, a finished clear leaves a client in the list that no map knows. */
  lemma InterruptedClearDisagrees(id: u32, self: Ip, ip: Ip) returns (ss: seq<State>, actions: seq<Action>)
    requires ip != self
    ensures Run(ss, actions) && |actions| == 4
    ensures ss[4].holder == None && ss[4].halfway == {} && !Merged(ss[4].list, ss[4].servers)
  {
    var c := Client(ip, true);
    var news := ClientList(1, [c], true, 0);
    var servers := Updated(map[], id, self, news, 0);
    OthersOne(c, self);
    assert Merged([c], servers) by {
      OnlyClient(servers, id, c);
    }
    actions := [ClearList(0), UpdateMaps(1, id, self, news, 0), UpdateList(1), ClearMaps(0)];
    ss := [START, START.(halfway := {0}), State(servers, [], Some(1), {0}), State(servers, [c], None, {0}),
           State(Cleared(servers), [c], None, {})];
    hide Merged;
    assert {} + {0} == {0} && {0} - {0} == {};
    forall i {:trigger actions[i]} | 0 <= i < 4 ensures Step(ss[i], actions[i], ss[i + 1]) {
    }
    ClearedNobody(servers);
    MergedEmpty([c], Cleared(servers));
  }

  lemma OthersOne(c: Client, self: Ip)
    requires c.ip != self
    ensures Others([c], self) == map[c.ip := c]
  {
    assert [c][..0] == [];
  }

  lemma OnlyClient(servers: Servers, id: u32, c: Client)
    requires id in servers && servers[id].clients == map[c.ip := c] && servers.Keys == {id} && c.online
    ensures Merged([c], servers)
  {
    assert Lists(servers, id, c.ip) && OnlineAt(servers, id, c.ip);
    forall ip | Known(servers, ip) ensures ip == c.ip {
      var s :| Lists(servers, s, ip);
    }
  }
}
