/** What each server says about the other clients, and the merged list that summarises it. */
module ServerInfo {
  import opened Basics

  datatype Client = Client(ip: Ip, online: bool)

  datatype ServerNode = ServerNode(connected: bool, rtt: Option<u32>, dataVersion: nat, clients: map<Ip, Client>)

  /** A client list as a server sends it: the whole of it, or only what changed. */
  datatype ClientList = ClientList(dataVersion: nat, clients: seq<Client>, isAll: bool, time: int)

  type Servers = map<u32, ServerNode>

  const NEW_NODE := ServerNode(false, None, 0, map[])
  const DEFAULT_RTT: u32 := 500
  const MAX_RTT: u32 := 0xFFFF_FFFF

  /** Nothing is known of the server. */
  predicate IsBlank(node: ServerNode) {
    !node.connected && node.rtt.None? && node.dataVersion == 0 && node.clients == map[]
  }

  function NodeOf(servers: Servers, id: u32): ServerNode {
    if id in servers then servers[id] else NEW_NODE
  }

  // ---------- who is known and who is online ----------

  predicate Lists(servers: Servers, id: u32, ip: Ip) {
    ip in NodeOf(servers, id).clients
  }

  predicate OnlineAt(servers: Servers, id: u32, ip: Ip) {
    Lists(servers, id, ip) && NodeOf(servers, id).clients[ip].online
  }

  ghost predicate Known(servers: Servers, ip: Ip) {
    exists id :: Lists(servers, id, ip)
  }

  ghost predicate Online(servers: Servers, ip: Ip) {
    exists id :: OnlineAt(servers, id, ip)
  }

  ghost predicate Keyed(servers: Servers) {
    forall id, ip :: Lists(servers, id, ip) ==> NodeOf(servers, id).clients[ip].ip == ip
  }

  /** Each known address once, online when some server says so. */
  ghost predicate Merged(list: seq<Client>, servers: Servers) {
    && (forall i, j :: 0 <= i < j < |list| ==> list[i].ip != list[j].ip)
    && (forall c :: c in list ==> Known(servers, c.ip) && (c.online <==> Online(servers, c.ip)))
    && (forall ip :: Known(servers, ip) ==> Client(ip, Online(servers, ip)) in list)
  }

  /** The merged list is determined by the servers' maps, up to its order: the orders in which the
      maps are walked do not matter. */
  lemma MergedIsUnique(a: seq<Client>, b: seq<Client>, servers: Servers)
    requires Merged(a, servers) && Merged(b, servers)
    ensures multiset(a) == multiset(b)
  {
    forall c ensures multiset(a)[c] == multiset(b)[c] {
      AtMostOnce(a, c);
      AtMostOnce(b, c);
      if c in a {
        assert Client(c.ip, Online(servers, c.ip)) == c && c in b;
      }
      if c in b {
        assert Client(c.ip, Online(servers, c.ip)) == c && c in a;
      }
    }
  }

  lemma {:induction false} AtMostOnce(list: seq<Client>, c: Client)
    requires forall i, j :: 0 <= i < j < |list| ==> list[i].ip != list[j].ip
    ensures multiset(list)[c] == if c in list then 1 else 0
  {
    if list != [] {
      var front, last := list[..|list| - 1], list[|list| - 1];
      assert list == front + [last];
      AtMostOnce(front, c);
    }
  }

  /** A list stays the summary of maps whose clients did not change. */
  lemma MergedStays(list: seq<Client>, a: Servers, b: Servers)
    requires Merged(list, a) && Keyed(a)
    requires forall id :: NodeOf(a, id).clients == NodeOf(b, id).clients
    ensures Merged(list, b) && Keyed(b)
  {
    forall ip ensures Known(a, ip) == Known(b, ip) && Online(a, ip) == Online(b, ip) {
      assert forall id :: Lists(a, id, ip) == Lists(b, id, ip) && OnlineAt(a, id, ip) == OnlineAt(b, id, ip);
    }
  }

  // ---------- what each method does to the maps ----------

  /** The entries of a list that are not about this client itself; a later entry wins. */
  function Others(list: seq<Client>, self: Ip): map<Ip, Client> {
    if list == [] then map[]
    else
      var m, last := Others(list[..|list| - 1], self), list[|list| - 1];
      if last.ip == self then m else m[last.ip := last]
  }

  function Updated(servers: Servers, id: u32, self: Ip, list: ClientList, now: int): Servers {
    var node, others := NodeOf(servers, id), Others(list.clients, self);
    servers[id := ServerNode(
      node.connected,
      if now > list.time then Some(((now - list.time) % 0x1_0000_0000) as u32) else node.rtt,
      list.dataVersion,
      if list.isAll then others else node.clients + others)]
  }

  /** `update_server`: fresh nodes for the given servers. */
  function Renewed(ids: seq<u32>): Servers {
    map id | id in ids :: NEW_NODE
  }

  function Cleared(servers: Servers): Servers {
    map id | id in servers :: NEW_NODE
  }

  predicate Names(list: seq<Client>, ip: Ip) {
    exists i :: 0 <= i < |list| && list[i].ip == ip
  }

  /** `c` is the last entry of the list for its address. */
  ghost predicate IsLast(list: seq<Client>, c: Client) {
    exists i :: 0 <= i < |list| && list[i] == c && forall j :: i < j < |list| ==> list[j].ip != c.ip
  }

  lemma {:induction false} OthersMeans(list: seq<Client>, self: Ip)
    ensures forall ip :: ip in Others(list, self) <==> ip != self && Names(list, ip)
    ensures forall ip :: ip in Others(list, self) ==> Others(list, self)[ip].ip == ip && Others(list, self)[ip] in list
    ensures forall ip :: ip in Others(list, self) ==> IsLast(list, Others(list, self)[ip])
  {
    if list != [] {
      var front, last := list[..|list| - 1], list[|list| - 1];
      OthersMeans(front, self);
      assert list == front + [last];
      forall ip ensures Names(list, ip) <==> Names(front, ip) || last.ip == ip {
        NamesNext(front, last, ip);
      }
      hide Names, IsLast;
      forall ip | ip in Others(list, self) ensures IsLast(list, Others(list, self)[ip]) {
        if ip != last.ip || last.ip == self {
          assert ip in Others(front, self) && Others(front, self)[ip].ip == ip != last.ip;
        }
        LastNext(front, last, Others(list, self)[ip]);
      }
    }
  }

  lemma NamesNext(front: seq<Client>, last: Client, ip: Ip)
    ensures Names(front + [last], ip) <==> Names(front, ip) || last.ip == ip
  {
    var list := front + [last];
    if Names(front, ip) {
      var i :| 0 <= i < |front| && front[i].ip == ip;
      assert list[i].ip == ip;
    }
    assert list[|front|].ip == last.ip;
  }

  lemma LastNext(front: seq<Client>, last: Client, c: Client)
    ensures c == last || (IsLast(front, c) && c.ip != last.ip) ==> IsLast(front + [last], c)
  {
    var list := front + [last];
    if c == last {
      assert list[|front|] == c;
    } else if IsLast(front, c) && c.ip != last.ip {
      var i :| 0 <= i < |front| && front[i] == c && forall j :: i < j < |front| ==> front[j].ip != c.ip;
      assert list[i] == c;
    }
  }

  /** What a received list does to the maps: it replaces the server's clients when it is the whole of them
      and otherwise adds to them, the own address left out, its last entry for an address counting.
      The other servers stay as they are. */
  ghost predicate IsUpdate(before: Servers, after: Servers, id: u32, self: Ip, list: ClientList, now: int) {
    && id in after && (forall s :: s != id ==> (s in after <==> s in before) && NodeOf(after, s) == NodeOf(before, s))
    && var node := after[id];
    && (forall ip ::
          ip in node.clients <==> (ip != self && Names(list.clients, ip)) || (!list.isAll && Lists(before, id, ip)))
    && (forall ip :: ip in node.clients ==>
          if ip != self && Names(list.clients, ip)
          then node.clients[ip].ip == ip && IsLast(list.clients, node.clients[ip])
          else node.clients[ip] == NodeOf(before, id).clients[ip])
    && node.connected == NodeOf(before, id).connected && node.dataVersion == list.dataVersion
    && (now <= list.time ==> node.rtt == NodeOf(before, id).rtt)
    && (list.time < now ==> node.rtt.Some? && node.rtt.value as int == (now - list.time) % 0x1_0000_0000)
  }

  lemma UpdatedMeans(servers: Servers, id: u32, self: Ip, list: ClientList, now: int)
    ensures IsUpdate(servers, Updated(servers, id, self, list, now), id, self, list, now)
  {
    hide IsLast, Names;
    OthersMeans(list.clients, self);
  }

  lemma UpdatedKeyed(servers: Servers, id: u32, self: Ip, list: ClientList, now: int)
    requires Keyed(servers)
    ensures Keyed(Updated(servers, id, self, list, now))
  {
    OthersMeans(list.clients, self);
    var after := Updated(servers, id, self, list, now);
    forall s, ip | Lists(after, s, ip) ensures NodeOf(after, s).clients[ip].ip == ip {
      if s != id {
        assert Lists(servers, s, ip);
      } else if ip !in Others(list.clients, self) {
        assert Lists(servers, id, ip);
      }
    }
  }

  // ---------- choosing a server ----------

  /** The first of the fastest among those that qualify. */
  function Fastest(ids: seq<u32>, rtt: u32 -> Option<u32>): (r: Option<u32>)
    ensures r.Some? ==> rtt(r.value).Some?
  {
    if ids == [] then None
    else
      var r, last := Fastest(ids[..|ids| - 1], rtt), ids[|ids| - 1];
      if rtt(last).None? then r
      else if r.None? || rtt(last).value < rtt(r.value).value then Some(last)
      else r
  }

  ghost predicate IsFastest(ids: seq<u32>, rtt: u32 -> Option<u32>, i: int) {
    && 0 <= i < |ids| && rtt(ids[i]).Some?
    && (forall j :: 0 <= j < |ids| && rtt(ids[j]).Some? ==> rtt(ids[i]).value <= rtt(ids[j]).value)
    && (forall j :: 0 <= j < i && rtt(ids[j]).Some? ==> rtt(ids[i]).value < rtt(ids[j]).value)
  }

  lemma {:induction false} FastestMeans(ids: seq<u32>, rtt: u32 -> Option<u32>)
    ensures Fastest(ids, rtt).None? <==> forall id :: id in ids ==> rtt(id).None?
    ensures Fastest(ids, rtt).Some? ==> exists i :: IsFastest(ids, rtt, i) && ids[i] == Fastest(ids, rtt).value
  {
    if ids != [] {
      var n := |ids| - 1;
      FastestMeans(ids[..n], rtt);
      assert ids == ids[..n] + [ids[n]];
      var r := Fastest(ids[..n], rtt);
      if Fastest(ids, rtt) == r && r.Some? {
        var i :| IsFastest(ids[..n], rtt, i) && ids[..n][i] == r.value;
        assert forall j :: 0 <= j < n ==> ids[..n][j] == ids[j];
        assert IsFastest(ids, rtt, i);
      } else if rtt(ids[n]).Some? {
        assert forall j :: 0 <= j < n ==> ids[..n][j] == ids[j];
        assert IsFastest(ids, rtt, n);
      }
    }
  }

  function ConnectedRtt(servers: Servers, id: u32): Option<u32> {
    if id !in servers || !servers[id].connected then None
    else Some(if servers[id].rtt.Some? then servers[id].rtt.value else MAX_RTT)
  }

  function OnlineRtt(servers: Servers, ip: Ip, id: u32): Option<u32> {
    if OnlineAt(servers, id, ip) then ConnectedRtt(servers, id) else None
  }

  /** Per server, the addresses it shows online and its round-trip time. */
  type View = map<u32, (seq<Ip>, u32)>

  ghost predicate IsView(view: View, servers: Servers, ids: set<u32>) {
    && view.Keys == ids <= servers.Keys
    && forall id :: id in ids ==>
      && view[id].1 == (if servers[id].rtt.Some? then servers[id].rtt.value else DEFAULT_RTT)
      && Enumerates(view[id].0, OnlineSet(servers[id].clients))
  }

  function OnlineSet(clients: map<Ip, Client>): set<Ip> {
    set ip | ip in clients && clients[ip].online
  }

  function ByConnected(servers: Servers): u32 -> Option<u32> {
    (id: u32) => ConnectedRtt(servers, id)
  }

  function ByOnline(servers: Servers, ip: Ip): u32 -> Option<u32> {
    (id: u32) => OnlineRtt(servers, ip, id)
  }

  // ---------- the class ----------

  class ServerInfoCollection {
    var clientList: seq<Client>
    var servers: Servers

    ghost predicate Valid()
      reads this
    {
      Keyed(servers) && Merged(clientList, servers)
    }

    constructor ()
      ensures Valid() && clientList == [] && servers == map[]
    {
      clientList, servers := [], map[];
    }

    method UpdateServer(ids: seq<u32>)
      modifies this
      ensures Valid() && servers == Renewed(ids)
      ensures forall id :: id in servers <==> id in ids
      ensures forall id :: id in servers ==> IsBlank(servers[id])
    {
      servers, clientList := map[], [];
      for i := 0 to |ids|
        invariant servers == Renewed(ids[..i]) && clientList == []
      {
        assert ids[..i + 1] == ids[..i] + [ids[i]];
        servers := servers[ids[i] := NEW_NODE];
      }
      assert ids[..|ids|] == ids;
      assert forall id :: NodeOf(servers, id).clients == map[];
    }

    method UpdateClientSimpleList(id: u32, self: Ip, list: ClientList, now: int)
      requires Valid()
      modifies this
      ensures Valid() && servers == Updated(old(servers), id, self, list, now)
      ensures IsUpdate(old(servers), servers, id, self, list, now)
    {
      UpdatedMeans(servers, id, self, list, now);
      UpdatedKeyed(servers, id, self, list, now);
      var node := NodeOf(servers, id);
      if now > list.time {
        node := node.(rtt := Some(((now - list.time) % 0x1_0000_0000) as u32));
      }
      node := node.(dataVersion := list.dataVersion);
      var others := CollectOthers(list.clients, self);
      node := node.(clients := if list.isAll then others else node.clients + others);
      servers := servers[id := node];
      clientList := Merge(servers);
    }

    method SetServerConnected(id: u32, val: bool) returns (was: bool)
      requires Valid()
      modifies this`servers
      ensures Valid() && was == NodeOf(old(servers), id).connected
      ensures servers == old(servers)[id := NodeOf(old(servers), id).(connected := val)]
    {
      was := NodeOf(servers, id).connected;
      ghost var before := servers;
      servers := servers[id := NodeOf(servers, id).(connected := val)];
      MergedStays(clientList, before, servers);
    }

    method SetServerRtt(id: u32, rtt: u32)
      requires Valid()
      modifies this`servers
      ensures Valid()
      ensures servers == if id in old(servers) then old(servers)[id := old(servers)[id].(rtt := Some(rtt))]
        else old(servers)
    {
      ghost var before := servers;
      if id in servers {
        servers := servers[id := servers[id].(rtt := Some(rtt))];
      }
      MergedStays(clientList, before, servers);
    }

    /** Keeps the nodes and forgets everything learnt from them. */
    method Clear()
      modifies this
      ensures Valid() && servers == Cleared(old(servers)) && clientList == []
      ensures servers.Keys == old(servers).Keys && forall id :: id in servers ==> IsBlank(servers[id])
    {
      clientList := [];
      servers := map id | id in servers :: NEW_NODE;
      assert forall id :: NodeOf(servers, id).clients == map[];
    }

    method FindConnectedServer(ids: seq<u32>) returns (r: Option<u32>)
      ensures r.None? <==> forall id :: id in ids ==> !(id in servers && servers[id].connected)
      ensures r.Some? ==> exists i :: IsFastest(ids, ByConnected(servers), i) && ids[i] == r.value
      ensures r.Some? ==> r.value in ids && r.value in servers && servers[r.value].connected
      ensures r.Some? && servers[r.value].rtt.None? ==>
        forall id :: id in ids && id in servers && servers[id].connected && servers[id].rtt.Some? ==>
          servers[id].rtt.value == MAX_RTT
      ensures r.Some? && servers[r.value].rtt.Some? ==>
        forall id :: id in ids && id in servers && servers[id].connected && servers[id].rtt.Some? ==>
          servers[r.value].rtt.value <= servers[id].rtt.value
    {
      FastestMeans(ids, ByConnected(servers));
      r := Fastest(ids, ByConnected(servers));
    }

    /** The fastest connected server, of those listed, that shows the address online. */
    method FindIpToServer(ids: seq<u32>, ip: Ip) returns (r: Option<u32>)
      ensures r.None? <==>
        forall id :: id in ids ==> !(id in servers && servers[id].connected && OnlineAt(servers, id, ip))
      ensures r.Some? ==> exists i :: IsFastest(ids, ByOnline(servers, ip), i) && ids[i] == r.value
      ensures r.Some? ==>
        r.value in ids && r.value in servers && servers[r.value].connected && OnlineAt(servers, r.value, ip)
      ensures r.Some? && servers[r.value].rtt.Some? ==>
        forall id ::
          id in ids && id in servers && servers[id].connected && OnlineAt(servers, id, ip) && servers[id].rtt.Some?
          ==> servers[r.value].rtt.value <= servers[id].rtt.value
    {
      FastestMeans(ids, ByOnline(servers, ip));
      r := Fastest(ids, ByOnline(servers, ip));
    }

    /** The addresses some server shows online, each once. */
    method ClientOnlineIps() returns (ips: seq<Ip>)
      requires Valid()
      ensures forall ip :: ip in ips <==> Online(servers, ip)
      ensures forall i, j :: 0 <= i < j < |ips| ==> ips[i] != ips[j]
    {
      ips := [];
      for i := 0 to |clientList|
        invariant forall ip :: ip in ips <==> Client(ip, true) in clientList[..i]
        invariant forall a, b :: 0 <= a < b < |ips| ==> ips[a] != ips[b]
      {
        var c := clientList[i];
        assert clientList[..i + 1] == clientList[..i] + [c];
        if c.online {
          assert Client(c.ip, true) == c && c !in clientList[..i];
          ips := ips + [c.ip];
        }
      }
      assert clientList[..|clientList|] == clientList;
      forall ip ensures Client(ip, true) in clientList <==> Online(servers, ip) {
        if Online(servers, ip) {
          assert Client(ip, Online(servers, ip)) in clientList;
        }
      }
    }

    method ExistsOnlineClientIp(ip: Ip) returns (found: bool)
      requires Valid()
      ensures found <==> Online(servers, ip)
    {
      found := exists i :: 0 <= i < |clientList| && clientList[i].ip == ip && clientList[i].online;
      if Online(servers, ip) {
        assert Client(ip, true) in clientList;
      }
    }

    /** Per server, the addresses it shows online, in some order, and its round-trip time. */
    method ServerClientIpMap() returns (view: View)
      requires Valid()
      ensures IsView(view, servers, servers.Keys)
    {
      view := map[];
      var todo := servers.Keys;
      while todo != {}
        invariant todo <= servers.Keys && IsView(view, servers, servers.Keys - todo)
      {
        var id :| id in todo;
        var clients := servers[id].clients;
        var ips := IterationOrder(OnlineSet(clients));
        view := view[id := (ips, if servers[id].rtt.Some? then servers[id].rtt.value else DEFAULT_RTT)];
        todo := todo - {id};
      }
    }
  }

  method CollectOthers(list: seq<Client>, self: Ip) returns (m: map<Ip, Client>)
    ensures m == Others(list, self)
  {
    m := map[];
    for i := 0 to |list|
      invariant m == Others(list[..i], self)
    {
      assert list[..i + 1][..i] == list[..i];
      if list[i].ip != self {
        m := m[list[i].ip := list[i]];
      }
    }
    assert list[..|list|] == list;
  }

  // ---------- merging ----------

  ghost predicate ListedBy(servers: Servers, seen: set<u32>, ip: Ip) {
    exists id :: id in seen && Lists(servers, id, ip)
  }

  ghost predicate OnlineBy(servers: Servers, seen: set<u32>, ip: Ip) {
    exists id :: id in seen && OnlineAt(servers, id, ip)
  }

  /** What has been merged after the servers in `seen`. */
  ghost predicate MergedFrom(m: map<Ip, Client>, servers: Servers, seen: set<u32>) {
    && (forall ip :: ip in m <==> ListedBy(servers, seen, ip))
    && (forall ip :: ip in m ==> m[ip] == Client(ip, OnlineBy(servers, seen, ip)))
  }

  method MergeServer(m: map<Ip, Client>, clients: map<Ip, Client>) returns (r: map<Ip, Client>)
    requires forall ip :: ip in clients ==> clients[ip].ip == ip
    requires forall ip :: ip in m ==> m[ip].ip == ip
    ensures r.Keys == m.Keys + clients.Keys
    ensures forall ip :: ip in r ==>
      r[ip] == Client(ip, (ip in m && m[ip].online) || (ip in clients && clients[ip].online))
  {
    r := m;
    var todo := clients.Keys;
    while todo != {}
      invariant todo <= clients.Keys && r.Keys == m.Keys + (clients.Keys - todo)
      invariant forall ip :: ip in r ==>
        r[ip] == Client(ip, (ip in m && m[ip].online) || (ip in clients && ip !in todo && clients[ip].online))
    {
      var ip :| ip in todo;
      var c := clients[ip];
      if c.ip in r {
        if c.online {
          r := r[c.ip := r[c.ip].(online := true)];
        }
      } else {
        r := r[c.ip := c];
      }
      todo := todo - {ip};
    }
  }

  lemma SeenMore(servers: Servers, seen: set<u32>, id: u32, ip: Ip)
    ensures ListedBy(servers, seen + {id}, ip) <==> ListedBy(servers, seen, ip) || Lists(servers, id, ip)
    ensures OnlineBy(servers, seen + {id}, ip) <==> OnlineBy(servers, seen, ip) || OnlineAt(servers, id, ip)
    ensures OnlineBy(servers, seen, ip) ==> ListedBy(servers, seen, ip)
  {
    assert id in seen + {id};
    if s :| s in seen && Lists(servers, s, ip) {
      assert s in seen + {id};
    }
    if s :| s in seen && OnlineAt(servers, s, ip) {
      assert s in seen + {id} && Lists(servers, s, ip);
    }
  }

  lemma MergeMore(m: map<Ip, Client>, r: map<Ip, Client>, servers: Servers, seen: set<u32>, id: u32)
    requires MergedFrom(m, servers, seen) && id in servers
    requires r.Keys == m.Keys + servers[id].clients.Keys
    requires forall ip :: ip in r ==>
      r[ip] == Client(ip, (ip in m && m[ip].online) || (ip in servers[id].clients && servers[id].clients[ip].online))
    ensures MergedFrom(r, servers, seen + {id})
  {
    hide ListedBy, OnlineBy;
    forall ip
      ensures ip in r <==> ListedBy(servers, seen + {id}, ip)
      ensures ip in r ==> r[ip] == Client(ip, OnlineBy(servers, seen + {id}, ip))
    {
      SeenMore(servers, seen, id, ip);
      assert ip in r <==> ip in m || ip in servers[id].clients;
      assert OnlineAt(servers, id, ip) <==> ip in servers[id].clients && servers[id].clients[ip].online;
    }
  }

  /** Merging one server leaves out of `todo` what remains to be merged. */
  lemma MergeNext(m: map<Ip, Client>, r: map<Ip, Client>, servers: Servers, todo: set<u32>, id: u32)
    requires MergedFrom(m, servers, servers.Keys - todo) && id in todo && todo <= servers.Keys
    requires r.Keys == m.Keys + servers[id].clients.Keys
    requires forall ip :: ip in r ==>
      r[ip] == Client(ip, (ip in m && m[ip].online) || (ip in servers[id].clients && servers[id].clients[ip].online))
    ensures MergedFrom(r, servers, servers.Keys - (todo - {id}))
  {
    hide MergedFrom;
    MergeMore(m, r, servers, servers.Keys - todo, id);
    assert servers.Keys - todo + {id} == servers.Keys - (todo - {id});
  }

  lemma KeyedAt(servers: Servers, id: u32)
    requires Keyed(servers) && id in servers
    ensures forall ip :: ip in servers[id].clients ==> servers[id].clients[ip].ip == ip
  {
    assert forall ip :: ip in servers[id].clients ==> Lists(servers, id, ip);
  }

  method Merge(servers: Servers) returns (list: seq<Client>)
    requires Keyed(servers)
    ensures Merged(list, servers)
  {
    hide Keyed, ListedBy, OnlineBy, Merged;
    var m: map<Ip, Client> := map[];
    var todo := servers.Keys;
    NothingMerged(servers);
    while todo != {}
      invariant todo <= servers.Keys && MergedFrom(m, servers, servers.Keys - todo)
    {
      var id :| id in todo;
      KeyedAt(servers, id);
      var r := MergeServer(m, servers[id].clients);
      MergeNext(m, r, servers, todo, id);
      m, todo := r, todo - {id};
    }
    assert servers.Keys - {} == servers.Keys;
    list := Values(m);
    ValuesMerged(m, list, servers);
  }

  lemma NothingMerged(servers: Servers)
    ensures MergedFrom(map[], servers, servers.Keys - servers.Keys)
  {
  }

  lemma ValuesMerged(m: map<Ip, Client>, list: seq<Client>, servers: Servers)
    requires MergedFrom(m, servers, servers.Keys)
    requires forall i, j :: 0 <= i < j < |list| ==> list[i].ip != list[j].ip
    requires forall c: Client :: c in list <==> c.ip in m && m[c.ip] == c
    ensures Merged(list, servers)
  {
    AllMerged(m, servers);
    hide MergedFrom, Known, Online;
    forall ip | Known(servers, ip) ensures Client(ip, Online(servers, ip)) in list {
      assert m[ip] in list;
    }
  }

  lemma AllMerged(m: map<Ip, Client>, servers: Servers)
    requires MergedFrom(m, servers, servers.Keys)
    ensures forall ip :: ip in m <==> Known(servers, ip)
    ensures forall ip :: ip in m ==> m[ip] == Client(ip, Online(servers, ip))
  {
    forall ip ensures ListedBy(servers, servers.Keys, ip) <==> Known(servers, ip) {
      if id :| Lists(servers, id, ip) {
        assert id in servers.Keys;
      }
    }
    forall ip ensures OnlineBy(servers, servers.Keys, ip) <==> Online(servers, ip) {
      if id :| OnlineAt(servers, id, ip) {
        assert id in servers.Keys;
      }
    }
  }

  /** The values of a map, in some order. */
  method Values(m: map<Ip, Client>) returns (list: seq<Client>)
    requires forall ip :: ip in m ==> m[ip].ip == ip
    ensures forall i, j :: 0 <= i < j < |list| ==> list[i].ip != list[j].ip
    ensures forall c: Client :: c in list <==> c.ip in m && m[c.ip] == c
  {
    var order := IterationOrder(m.Keys);
    list := [];
    for i := 0 to |order|
      invariant |list| == i && forall j :: 0 <= j < i ==> list[j] == m[order[j]]
    {
      list := list + [m[order[i]]];
    }
    forall c: Client | c.ip in m && m[c.ip] == c ensures c in list {
      var i :| 0 <= i < |order| && order[i] == c.ip;
      assert list[i] == c;
    }
  }

  // ---------- runs ----------

  datatype Op =
    | Renew(ids: seq<u32>)
    | Update(id: u32, self: Ip, list: ClientList, now: int)
    | Connect(id: u32, val: bool)
    | Measure(id: u32, rtt: u32)
    | Forget

  function Apply(servers: Servers, op: Op): Servers {
    match op
    case Renew(ids) => Renewed(ids)
    case Update(id, self, list, now) => Updated(servers, id, self, list, now)
    case Connect(id, val) => servers[id := NodeOf(servers, id).(connected := val)]
    case Measure(id, rtt) => if id in servers then servers[id := servers[id].(rtt := Some(rtt))] else servers
    case Forget => Cleared(servers)
  }

  function After(ops: seq<Op>): Servers {
    if ops == [] then map[] else Apply(After(ops[..|ops| - 1]), ops[|ops| - 1])
  }

  predicate From(op: Op, self: Ip) {
    op.Update? ==> op.self == self
  }

  /** A client never meets its own address among the others, as long as its address stays. */
  lemma {:induction false} OwnIpNeverKnown(ops: seq<Op>, self: Ip, list: seq<Client>)
    requires forall i :: 0 <= i < |ops| ==> From(ops[i], self)
    requires Merged(list, After(ops))
    ensures !Known(After(ops), self) && forall c :: c in list ==> c.ip != self
  {
    OwnIpNeverListed(ops, self);
  }

  lemma {:induction false} OwnIpNeverListed(ops: seq<Op>, self: Ip)
    requires forall i :: 0 <= i < |ops| ==> From(ops[i], self)
    ensures forall id :: !Lists(After(ops), id, self)
  {
    if ops != [] {
      var front, op := ops[..|ops| - 1], ops[|ops| - 1];
      OwnIpNeverListed(front, self);
      assert From(op, self);
      if op.Update? {
        OthersMeans(op.list.clients, self);
      }
      forall id ensures !Lists(After(ops), id, self) {
        assert !Lists(After(front), id, self);
      }
    }
  }
}
