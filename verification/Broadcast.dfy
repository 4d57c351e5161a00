/** Planning a broadcast: first to the peers with a direct route, then through the servers. */
module Broadcast {
  import opened Basics
  import opened ServerInfo

  /** What is asked of a server: send to all its clients, to all but some, or to some. */
  datatype Mode = ToAll | Excluding(ips: seq<Ip>) | Only(ips: seq<Ip>)

  datatype Send = Send(server: u32, mode: Mode)

  /** A server delivers to the clients it shows online, within what it is asked. */
  predicate Reaches(view: View, s: Send, ip: Ip) {
    && s.server in view && ip in view[s.server].0
    && match s.mode
       case ToAll => true
       case Excluding(ips) => ip !in ips
       case Only(ips) => ip in ips
  }

  /** How many of the sends reach an address. */
  function Hits(view: View, sends: seq<Send>, ip: Ip): nat {
    if sends == [] then 0
    else Hits(view, sends[..|sends| - 1], ip) + if Reaches(view, sends[|sends| - 1], ip) then 1 else 0
  }

  // ---------- directly ----------

  /** The first peers, up to the cap, that a send over a direct route gets through to. */
  function Taken(ips: seq<Ip>, cap: nat, sent: Ip -> bool): seq<Ip> {
    if ips == [] then []
    else
      var before, last := Taken(ips[..|ips| - 1], cap, sent), ips[|ips| - 1];
      if |before| >= Max(cap, 1) || !sent(last) then before else before + [last]
  }

  method P2pBroadcast(ips: seq<Ip>, cap: nat, sent: Ip -> bool) returns (list: seq<Ip>)
    ensures list == Taken(ips, cap, sent)
  {
    list := [];
    for i := 0 to |ips|
      invariant list == Taken(ips[..i], cap, sent) && |list| < Max(cap, 1)
    {
      assert ips[..i + 1][..i] == ips[..i];
      if sent(ips[i]) {
        list := list + [ips[i]];
        if |list| >= cap {
          TakenFull(ips, i + 1, cap, sent);
          return;
        }
      }
    }
    assert ips[..|ips|] == ips;
  }

  lemma {:induction false} TakenFull(ips: seq<Ip>, n: nat, cap: nat, sent: Ip -> bool)
    requires n <= |ips| && |Taken(ips[..n], cap, sent)| >= Max(cap, 1)
    ensures Taken(ips, cap, sent) == Taken(ips[..n], cap, sent)
    decreases |ips|
  {
    if n == |ips| {
      assert ips[..n] == ips;
    } else {
      var front := ips[..|ips| - 1];
      assert front[..n] == ips[..n];
      TakenFull(front, n, cap, sent);
    }
  }

  lemma {:induction false} TakenSome(ips: seq<Ip>, cap: nat, sent: Ip -> bool)
    ensures var t := Taken(ips, cap, sent);
      && |t| <= |ips| && |t| <= Max(cap, 1) && (|t| == |ips| ==> t == ips)
      && (forall ip :: ip in t ==> ip in ips && sent(ip))
  {
    if ips != [] {
      TakenSome(ips[..|ips| - 1], cap, sent);
      assert ips == ips[..|ips| - 1] + [ips[|ips| - 1]];
    }
  }

  lemma {:induction false} TakenAll(ips: seq<Ip>, cap: nat, sent: Ip -> bool, ip: Ip)
    requires |Taken(ips, cap, sent)| < Max(cap, 1) && ip in ips && sent(ip)
    ensures ip in Taken(ips, cap, sent)
  {
    var front, last := ips[..|ips| - 1], ips[|ips| - 1];
    assert ips == front + [last];
    if ip in front {
      TakenAll(front, cap, sent, ip);
    }
  }

  /** At most the cap is taken, only peers that a send got through to, each once; all are taken when
      the counts agree; such a peer is left out only when the cap was reached, and never in favour of a
      later one. */
  lemma {:induction false} TakenMeans(ips: seq<Ip>, cap: nat, sent: Ip -> bool)
    requires forall i, j :: 0 <= i < j < |ips| ==> ips[i] != ips[j]
    ensures var t := Taken(ips, cap, sent);
      && |t| <= Max(cap, 1) && (|t| == |ips| ==> t == ips)
      && (forall ip :: ip in t ==> ip in ips && sent(ip))
      && (forall i, j :: 0 <= i < j < |t| ==> t[i] != t[j])
      && (|t| < Max(cap, 1) ==> forall ip :: ip in ips && sent(ip) ==> ip in t)
      && (forall i, j :: 0 <= i < j < |ips| && ips[j] in t && sent(ips[i]) ==> ips[i] in t)
  {
    TakenSome(ips, cap, sent);
    if ips != [] {
      var front := ips[..|ips| - 1];
      TakenMeans(front, cap, sent);
      TakenSome(front, cap, sent);
      assert ips[|ips| - 1] !in front;
    }
    if |Taken(ips, cap, sent)| < Max(cap, 1) {
      forall ip | ip in ips && sent(ip) ensures ip in Taken(ips, cap, sent) {
        TakenAll(ips, cap, sent, ip);
      }
    }
  }

  // ---------- through the servers ----------

  function Score(view: View, id: u32): real
    requires id in view
  {
    |view[id].0| as real / (view[id].1 as real + 1.0)
  }

  ghost predicate IsBest(view: View, best: u32) {
    best in view && forall id :: id in view ==> Score(view, id) <= Score(view, best)
  }

  /** The best server has at least as many clients for its round-trip time as any other: the products
      of clients and time (and one) compare crosswise. */
  lemma BestMeans(view: View, best: u32)
    ensures IsBest(view, best) <==> best in view && forall id :: id in view ==>
      |view[id].0| * (view[best].1 as nat + 1) <= |view[best].0| * (view[id].1 as nat + 1)
  {
    if best in view {
      forall id | id in view
        ensures Score(view, id) <= Score(view, best) <==>
          |view[id].0| * (view[best].1 as nat + 1) <= |view[best].0| * (view[id].1 as nat + 1)
      {
        Crosswise(|view[id].0|, view[id].1 as nat + 1, |view[best].0|, view[best].1 as nat + 1);
      }
    }
  }

  lemma Crosswise(a: nat, b: nat, c: nat, d: nat)
    requires b > 0 && d > 0
    ensures a as real / b as real <= c as real / d as real <==> a * d <= c * b
  {
    var x, y := a as real / b as real, c as real / d as real;
    var p, q := b as real, d as real;
    assert x * p == a as real && y * q == c as real;
    assert (a * d) as real == x * p * q && (c * b) as real == y * q * p;
    assert p * q > 0.0;
    assert x * (p * q) <= y * (p * q) <==> x <= y;
  }

  method BestServer(view: View) returns (best: u32)
    requires view != map[]
    ensures IsBest(view, best)
  {
    var first :| first in view;
    best := first;
    var todo := view.Keys - {first};
    while todo != {}
      invariant todo <= view.Keys && best in view
      invariant forall id :: id in view && id !in todo ==> Score(view, id) <= Score(view, best)
    {
      var id :| id in todo;
      if Score(view, id) >= Score(view, best) {
        best := id;
      }
      todo := todo - {id};
    }
  }

  lemma ScorePositive(view: View, id: u32)
    requires id in view
    ensures Score(view, id) > 0.0 <==> view[id].0 != []
  {
    var n, d := |view[id].0| as real, view[id].1 as real + 1.0;
    if n > 0.0 {
      assert n / d > 0.0;
    }
  }

  /** When the best server shows nobody online, no server does. */
  lemma BestEmpty(view: View, best: u32)
    requires IsBest(view, best) && view[best].0 == []
    ensures forall id :: id in view ==> view[id].0 == []
  {
    forall id | id in view ensures view[id].0 == [] {
      ScorePositive(view, id);
      ScorePositive(view, best);
    }
  }

  /** The addresses to leave out. */
  function Excluded(exclude: Option<seq<Ip>>): seq<Ip> {
    if exclude.Some? then exclude.value else []
  }

  predicate Wanted(view: View, best: u32, exclude: Option<seq<Ip>>, ip: Ip)
    requires best in view
  {
    ip !in view[best].0 && ip !in Excluded(exclude)
  }

  function Targets(view: View, best: u32, exclude: Option<seq<Ip>>, ips: seq<Ip>): (t: seq<Ip>)
    requires best in view
    ensures forall ip :: ip in t <==> ip in ips && Wanted(view, best, exclude, ip)
  {
    if ips == [] then []
    else
      var t, last := Targets(view, best, exclude, ips[..|ips| - 1]), ips[|ips| - 1];
      assert ips == ips[..|ips| - 1] + [last];
      if Wanted(view, best, exclude, last) then t + [last] else t
  }

  function MainMode(exclude: Option<seq<Ip>>): Mode {
    if exclude.Some? then Excluding(exclude.value) else ToAll
  }

  /** The best server serves all its clients but the excluded; each other server with a sender serves
      those of its clients that neither the best one nor the exclusion covers, if there are any. */
  ghost predicate IsPlan(view: View, senders: set<u32>, exclude: Option<seq<Ip>>, best: u32, sends: seq<Send>,
                         done: set<u32>) {
    && best in view && sends != [] && sends[0] == Send(best, MainMode(exclude))
    && (forall i :: 1 <= i < |sends| ==>
          && sends[i].server in done && sends[i].server in senders && sends[i].server in view
          && sends[i].mode == Only(Targets(view, best, exclude, view[sends[i].server].0)))
    && (forall i, j :: 0 <= i < j < |sends| ==> sends[i].server != sends[j].server)
    && (forall id ::
          id in done && id in view && id in senders && id != best && Targets(view, best, exclude, view[id].0) != []
          ==> exists i :: 1 <= i < |sends| && sends[i].server == id)
  }

  /** The servers other than the best that have a sender and show the address online. */
  function Carriers(view: View, senders: set<u32>, best: u32, ip: Ip): set<u32> {
    set id | id in view && id in senders && id != best && ip in view[id].0
  }

  method SendRawBroadcast(view: View, senders: set<u32>, exclude: Option<seq<Ip>>)
    returns (r: Result<seq<Send>>, ghost best: u32)
    ensures view == map[] ==> r == Err
    ensures view != map[] ==> IsBest(view, best)
    ensures view != map[] && view[best].0 == [] ==> r == Ok([])
    ensures view != map[] && view[best].0 != [] ==>
      if best in senders then r.Ok? && IsPlan(view, senders, exclude, best, r.value, view.Keys) else r == Err
  {
    best := 0;
    if view == map[] {
      return Err, best;
    }
    if |view| == 1 {
      var id :| id in view;
      assert view.Keys == {id} by {
        SubsetSize({id}, view.Keys);
      }
      best := id;
      if view[id].0 == [] {
        return Ok([]), best;
      }
      if id !in senders {
        return Err, best;
      }
      return Ok([Send(id, MainMode(exclude))]), best;
    }
    var max := BestServer(view);
    best := max;
    if view[max].0 == [] {
      return Ok([]), best;
    }
    if max !in senders {
      return Err, best;
    }
    var sends := [Send(max, MainMode(exclude))];
    var todo := view.Keys;
    while todo != {}
      invariant todo <= view.Keys
      invariant IsPlan(view, senders, exclude, max, sends, view.Keys - todo)
    {
      var id :| id in todo;
      ghost var was := sends;
      if id != max {
        var targets := Targets(view, max, exclude, view[id].0);
        if targets != [] && id in senders {
          sends := sends + [Send(id, Only(targets))];
        }
      }
      PlanMore(view, senders, exclude, max, was, sends, view.Keys - todo, id);
      assert view.Keys - todo + {id} == view.Keys - (todo - {id});
      todo := todo - {id};
    }
    assert view.Keys - {} == view.Keys;
    r := Ok(sends);
  }

  lemma PlanMore(view: View, senders: set<u32>, exclude: Option<seq<Ip>>, best: u32, was: seq<Send>, sends: seq<Send>,
                 done: set<u32>, id: u32)
    requires IsPlan(view, senders, exclude, best, was, done) && id in view && id !in done
    requires var targets := Targets(view, best, exclude, view[id].0);
      sends == if id != best && targets != [] && id in senders then was + [Send(id, Only(targets))] else was
    ensures IsPlan(view, senders, exclude, best, sends, done + {id})
  {
    hide Targets;
    forall s | s in done + {id} && s in view && s in senders && s != best
        && Targets(view, best, exclude, view[s].0) != []
      ensures exists i :: 1 <= i < |sends| && sends[i].server == s
    {
      if s == id {
        assert sends[|was|].server == id;
      } else {
        var i :| 1 <= i < |was| && was[i].server == s;
        assert sends[i].server == s;
      }
    }
  }

  // ---------- who is reached how often ----------

  /** An excluded address is reached by no server; an address of the best server once; any other once
      by each other server that shows it online and has a sender. */
  function Expected(view: View, senders: set<u32>, exclude: Option<seq<Ip>>, best: u32, ip: Ip): nat
    requires best in view
  {
    if ip in Excluded(exclude) then 0
    else if ip in view[best].0 then 1
    else |Carriers(view, senders, best, ip)|
  }

  lemma {:induction false} CountServers(view: View, senders: set<u32>, exclude: Option<seq<Ip>>, best: u32,
                                        sends: seq<Send>,
                                         ip: Ip, n: nat)
    requires IsPlan(view, senders, exclude, best, sends, view.Keys) && 1 <= n <= |sends|
    ensures ip in Excluded(exclude) ==> Hits(view, sends[..n], ip) == 0
    ensures ip !in Excluded(exclude) && ip in view[best].0 ==> Hits(view, sends[..n], ip) == 1
    ensures ip !in Excluded(exclude) && ip !in view[best].0 ==>
      Hits(view, sends[..n], ip) == |Served(view, sends, ip, n)|
  {
    assert sends[..n][..n - 1] == sends[..n - 1];
    if n == 1 {
      assert Hits(view, sends[..0], ip) == 0;
      assert Served(view, sends, ip, 1) == {};
    } else {
      CountServers(view, senders, exclude, best, sends, ip, n - 1);
      var s := sends[n - 1];
      assert Reaches(view, s, ip) <==> ip in view[s.server].0 && Wanted(view, best, exclude, ip);
      ServedMore(view, sends, ip, n);
    }
  }

  ghost function Served(view: View, sends: seq<Send>, ip: Ip, n: nat): set<u32>
    requires n <= |sends|
  {
    set i | 1 <= i < n && sends[i].server in view && ip in view[sends[i].server].0 :: sends[i].server
  }

  lemma ServedMore(view: View, sends: seq<Send>, ip: Ip, n: nat)
    requires 2 <= n <= |sends| && sends[n - 1].server in view
    requires forall i, j :: 0 <= i < j < |sends| ==> sends[i].server != sends[j].server
    ensures |Served(view, sends, ip, n)|
         == |Served(view, sends, ip, n - 1)| + if ip in view[sends[n - 1].server].0 then 1 else 0
  {
    var s := sends[n - 1].server;
    assert s !in Served(view, sends, ip, n - 1);
    if ip in view[s].0 {
      assert Served(view, sends, ip, n) == Served(view, sends, ip, n - 1) + {s};
    } else {
      assert Served(view, sends, ip, n) == Served(view, sends, ip, n - 1);
    }
  }

  /** The exact number of sends of a plan that reach an address. */
  lemma HitsExact(view: View, senders: set<u32>, exclude: Option<seq<Ip>>, best: u32, sends: seq<Send>, ip: Ip)
    requires IsPlan(view, senders, exclude, best, sends, view.Keys)
    ensures Hits(view, sends, ip) == Expected(view, senders, exclude, best, ip)
  {
    CountServers(view, senders, exclude, best, sends, ip, |sends|);
    assert sends[..|sends|] == sends;
    if Wanted(view, best, exclude, ip) {
      var all := Carriers(view, senders, best, ip);
      forall id | id in all ensures id in Served(view, sends, ip, |sends|) {
        assert ip in Targets(view, best, exclude, view[id].0);
        var i :| 1 <= i < |sends| && sends[i].server == id;
      }
      assert Served(view, sends, ip, |sends|) == all;
    }
  }

  lemma OnlineInView(servers: Servers, view: View, ip: Ip)
    requires IsView(view, servers, servers.Keys)
    ensures Online(servers, ip) <==> exists id :: id in view && ip in view[id].0
  {
    if id :| OnlineAt(servers, id, ip) {
      assert ip in view[id].0;
    }
    if id :| id in view && ip in view[id].0 {
      assert OnlineAt(servers, id, ip);
    }
  }

  /** With a sender for every server, a plan reaches exactly the online addresses that are not
      excluded; each of them once if the best server has it, or only one other does, and so always
      once with at most two servers. */
  lemma PlanReaches(servers: Servers, view: View, senders: set<u32>, exclude: Option<seq<Ip>>, best: u32,
                    sends: seq<Send>, ip: Ip)
    requires IsView(view, servers, servers.Keys) && IsPlan(view, senders, exclude, best, sends, view.Keys)
    requires view.Keys <= senders
    ensures Hits(view, sends, ip) > 0 <==> Online(servers, ip) && ip !in Excluded(exclude)
    ensures Hits(view, sends, ip) > 0 ==>
      (Hits(view, sends, ip) == 1 <==> ip in view[best].0 || |Carriers(view, senders, best, ip)| == 1)
    ensures |view| <= 2 ==> Hits(view, sends, ip) <= 1
  {
    hide IsPlan, Hits, IsView;
    HitsExact(view, senders, exclude, best, sends, ip);
    OnlineInView(servers, view, ip);
    assert best in view by {
      PlanHasBest(view, senders, exclude, best, sends);
    }
    var all := Carriers(view, senders, best, ip);
    SubsetSize(all, view.Keys - {best});
    if id :| id in view && ip in view[id].0 && id != best {
      assert id in all;
    }
  }

  lemma PlanHasBest(view: View, senders: set<u32>, exclude: Option<seq<Ip>>, best: u32, sends: seq<Send>)
    requires IsPlan(view, senders, exclude, best, sends, view.Keys)
    ensures best in view
  {
  }

  const P2P_CAP: nat := 16

  /** Sends a broadcast to up to 16 peers directly and to the rest through the servers. When that
      succeeds and every server has a sender, each online address is reached and no other is, an
      address reached directly through no server, and with at most two servers none twice. */
  method Ipv4BroadcastOutbound(info: ServerInfoCollection, p2p: Option<Ip -> bool>, senders: set<u32>)
    returns (direct: seq<Ip>, r: Result<seq<Send>>, ghost view: View)
    requires info.Valid()
    ensures IsView(view, info.servers, info.servers.Keys)
    ensures p2p.Some? && |direct| < 16 ==> forall ip :: Online(info.servers, ip) && p2p.value(ip) ==> ip in direct
    ensures |direct| <= 16 && forall ip :: ip in direct ==> Online(info.servers, ip) && p2p.Some? && p2p.value(ip)
    ensures view == map[] ==> r == Err
    ensures view.Keys <= senders ==> (r == Err <==> view == map[])
    ensures r.Ok? && view.Keys <= senders ==> forall ip ::
      && (ip in direct || Hits(view, r.value, ip) > 0 <==> Online(info.servers, ip))
      && !(ip in direct && Hits(view, r.value, ip) > 0)
      && (|view| <= 2 ==> Hits(view, r.value, ip) <= 1)
  {
    hide Taken, IsBest, IsPlan, Carriers, Hits, IsView;
    var list := info.ClientOnlineIps();
    direct := [];
    if p2p.Some? {
      direct := P2pBroadcast(list, P2P_CAP, p2p.value);
      TakenMeans(list, P2P_CAP, p2p.value);
    }
    var exclude := if direct == [] then None else Some(direct);
    var ips := info.ServerClientIpMap();
    view := ips;
    if exclude.Some? && |direct| == |list| {
      var ip := direct[0];
      OnlineInView(info.servers, view, ip);
      NoHits(view);
      return direct, Ok([]), view;
    }
    ghost var best;
    r, best := SendRawBroadcast(ips, senders, exclude);
    forall ip | r.Ok? && view.Keys <= senders
      ensures ip in direct || Hits(view, r.value, ip) > 0 <==> Online(info.servers, ip)
      ensures !(ip in direct && Hits(view, r.value, ip) > 0)
      ensures |view| <= 2 ==> Hits(view, r.value, ip) <= 1
    {
      CoveredOnce(info.servers, view, senders, exclude, best, r.value, ip);
    }
  }

  lemma NoHits(view: View)
    ensures forall ip :: Hits(view, [], ip) == 0
  {
  }

  lemma CoveredOnce(servers: Servers, view: View, senders: set<u32>, exclude: Option<seq<Ip>>, best: u32,
                    sends: seq<Send>, ip: Ip)
    requires IsView(view, servers, servers.Keys) && view.Keys <= senders && IsBest(view, best)
    requires if view[best].0 == [] then sends == [] else IsPlan(view, senders, exclude, best, sends, view.Keys)
    ensures Hits(view, sends, ip) > 0 <==> Online(servers, ip) && ip !in Excluded(exclude)
    ensures |view| <= 2 ==> Hits(view, sends, ip) <= 1
  {
    if view[best].0 == [] {
      BestEmpty(view, best);
      OnlineInView(servers, view, ip);
    } else {
      PlanReaches(servers, view, senders, exclude, best, sends, ip);
    }
  }

  const THREE: View := map[1 := ([10], 0), 2 := ([20], 500), 3 := ([20], 500)]
  const THREE_SENDS := [Send(1, ToAll), Send(2, Only([20])), Send(3, Only([20]))]

  lemma ThreeBest()
    ensures IsBest(THREE, 1) && THREE.Keys == {1, 2, 3}
  {
    assert Score(THREE, 1) == 1.0 && Score(THREE, 2) == Score(THREE, 3) == 1.0 / 501.0;
  }

  lemma ThreeTargets()
    ensures Targets(THREE, 1, None, [20]) == [20]
  {
    assert [20][..0] == [] && Targets(THREE, 1, None, []) == [];
  }

  lemma ThreePlan()
    ensures IsPlan(THREE, THREE.Keys, None, 1, THREE_SENDS, THREE.Keys)
  {
    ThreeTargets();
    hide IsBest, Targets;
    assert THREE_SENDS[1].server == 2 && THREE_SENDS[2].server == 3;
  }

  /** With three servers an address that two of them share, and the best lacks, is reached twice. */
  lemma ReachedTwice()
    ensures |THREE| == 3 && IsBest(THREE, 1) && IsPlan(THREE, THREE.Keys, None, 1, THREE_SENDS, THREE.Keys)
    ensures Hits(THREE, THREE_SENDS, 20) == 2
  {
    hide IsPlan, IsBest, Hits, Targets;
    ThreeBest();
    ThreePlan();
    HitsExact(THREE, THREE.Keys, None, 1, THREE_SENDS, 20);
    assert Carriers(THREE, THREE.Keys, 1, 20) == {2, 3};
  }
}
