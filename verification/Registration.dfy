/** Registering with several servers in two phases, and keeping one connection alive afterwards. */
module Registration {
  import opened Basics

  /** What a server grants: an address and the network it lies in. */
  datatype Grant = Grant(ip: Ip, prefix: nat, gateway: Ip)

  datatype Reply = Reg(grant: Grant) | Error | ConfirmReg(success: bool)

  /** One request: it may fail before it is sent, or get no readable reply in time. */
  datatype Attempt = NotSent | NoReply | Replied(reply: Reply)

  /** What the servers will do, by position: on pre-registration and on confirmation. */
  datatype World = World(pre: nat -> Attempt, confirm: nat -> Attempt)

  /** A request that reached the wire. */
  datatype Event = PreRegister(server: nat, ip: Option<Ip>) | Confirm(server: nat)

  predicate Accepted(a: Attempt) {
    a.Replied? && a.reply.Reg?
  }

  predicate Confirmed(a: Attempt) {
    a == Replied(ConfirmReg(true))
  }

  class Manager {
    /** The address to ask for. */
    var ip: Option<Ip>
    var connected: bool

    constructor (ip: Option<Ip>)
      ensures this.ip == ip && !connected
    {
      this.ip, connected := ip, false;
    }

    /** Connects and registers; a connection that is refused a grant is closed again. */
    method ConnectAndReg(server: nat, a: Attempt) returns (sent: seq<Event>)
      modifies this`connected
      ensures sent == if a.NotSent? then [] else [PreRegister(server, ip)]
      ensures Accepted(a) ==> connected
      ensures a.Replied? && !a.reply.Reg? ==> !connected
    {
      if a.NotSent? {
        return [];
      }
      connected := true;
      sent := [PreRegister(server, ip)];
      if a.Replied? && !a.reply.Reg? {
        connected := false;
      }
    }

    method SetIp(ip: Ip)
      modifies this`ip
      ensures this.ip == Some(ip)
    {
      this.ip := Some(ip);
    }
  }

  // ---------- what the two phases put on the wire ----------

  /** The pre-registrations of the servers from 1 on, in the order in which they happened. */
  function PreRegistered(order: seq<nat>, w: World, ip: Ip): seq<Event> {
    if order == [] then []
    else
      var last := order[|order| - 1];
      PreRegistered(order[..|order| - 1], w, ip) + if w.pre(last).NotSent? then [] else [PreRegister(last, Some(ip))]
  }

  function ConfirmsSent(order: seq<nat>, w: World): seq<Event> {
    if order == [] then []
    else
      var last := order[|order| - 1];
      ConfirmsSent(order[..|order| - 1], w) + if w.confirm(last).NotSent? then [] else [Confirm(last)]
  }

  ghost predicate AllAccepted(w: World, n: nat) {
    forall i :: 0 <= i < n ==> Accepted(w.pre(i))
  }

  ghost predicate AllConfirmed(w: World, n: nat) {
    forall i :: 0 <= i < n ==> Confirmed(w.confirm(i))
  }

  /** What reaches the wire before any confirmation: the first server alone, then, if it grants an
      address, the others in some order with that address. */
  ghost predicate Asks(trace: seq<Event>, w: World, n: nat, first: Option<Ip>, order: seq<nat>) {
    && n > 0
    && var opening := if w.pre(0).NotSent? then [] else [PreRegister(0, first)];
    if !Accepted(w.pre(0)) then trace == opening
    else Enumerates(order, Below(n) - {0}) && trace == opening + PreRegistered(order, w, w.pre(0).reply.grant.ip)
  }

  /** The confirmations, in some order, if every server accepted. */
  ghost predicate Confirms(trace: seq<Event>, w: World, n: nat, order: seq<nat>) {
    if AllAccepted(w, n) then Enumerates(order, Below(n)) && trace == ConfirmsSent(order, w) else trace == []
  }

  ghost predicate Trace(trace: seq<Event>, w: World, n: nat, first: Option<Ip>) {
    exists asks, confirms, second, third ::
      trace == asks + confirms && Asks(asks, w, n, first, second) && Confirms(confirms, w, n, third)
  }

  /** The first phase: pre-registers with the first server and, with what it grants, with the rest. */
  method PreRegisterAll(managers: seq<Manager>, w: World) returns (trace: seq<Event>, ghost order: seq<nat>)
    requires managers != [] && forall i, j :: 0 <= i < j < |managers| ==> managers[i] != managers[j]
    modifies set m | m in managers
    ensures Asks(trace, w, |managers|, old(managers[0].ip), order)
    ensures Accepted(w.pre(0)) ==>
      forall i :: 1 <= i < |managers| ==> managers[i].ip == Some(w.pre(0).reply.grant.ip)
  {
    var n := |managers|;
    order := [];
    trace := managers[0].ConnectAndReg(0, w.pre(0));
    if !Accepted(w.pre(0)) {
      return;
    }
    var ip := w.pre(0).reply.grant.ip;
    for i := 1 to n
      invariant forall j :: 1 <= j < i ==> managers[j].ip == Some(ip)
    {
      managers[i].SetIp(ip);
    }
    ghost var opening := trace;
    var second := IterationOrder(Below(n) - {0});
    for k := 0 to |second|
      invariant forall j :: 1 <= j < n ==> managers[j].ip == Some(ip)
      invariant trace == opening + PreRegistered(second[..k], w, ip)
    {
      var i := second[k];
      assert i in second && second[..k + 1][..k] == second[..k];
      var sent := managers[i].ConnectAndReg(i, w.pre(i));
      trace := trace + sent;
    }
    assert second[..|second|] == second;
    order := second;
  }

  /** The second phase: confirms with every server, whatever the others answer to that. */
  method ConfirmAll(n: nat, w: World) returns (trace: seq<Event>)
    requires AllAccepted(w, n)
    ensures exists order :: Confirms(trace, w, n, order)
  {
    var third := IterationOrder(Below(n));
    trace := [];
    for k := 0 to |third|
      invariant trace == ConfirmsSent(third[..k], w)
    {
      assert third[..k + 1][..k] == third[..k];
      if !w.confirm(third[k]).NotSent? {
        trace := trace + [Confirm(third[k])];
      }
    }
    assert third[..|third|] == third;
    assert Confirms(trace, w, n, third);
  }

  method CoordinatedRegistration(managers: seq<Manager>, w: World) returns (r: Result<Grant>, trace: seq<Event>)
    requires forall i, j :: 0 <= i < j < |managers| ==> managers[i] != managers[j]
    modifies set m | m in managers
    ensures managers == [] ==> r == Err && trace == []
    ensures managers != [] ==> Trace(trace, w, |managers|, old(managers[0].ip))
    ensures r.Ok? <==> managers != [] && AllAccepted(w, |managers|) && AllConfirmed(w, |managers|)
    ensures r.Ok? ==> w.pre(0) == Replied(Reg(r.value))
    ensures managers != [] && Accepted(w.pre(0)) ==>
      forall i :: 1 <= i < |managers| ==> managers[i].ip == Some(w.pre(0).reply.grant.ip)
  {
    hide Asks, Confirms, Trace;
    if managers == [] {
      return Err, [];
    }
    var n := |managers|;
    ghost var first := managers[0].ip;
    ghost var second;
    trace, second := PreRegisterAll(managers, w);
    ghost var asks := trace;
    for i := 0 to n
      invariant forall j :: 0 <= j < i ==> Accepted(w.pre(j))
    {
      if !Accepted(w.pre(i)) {
        assert Confirms([], w, n, []) by {
          NoConfirms(w, n);
        }
        TraceOf(asks, [], w, n, first, second, []);
        assert asks + [] == asks;
        return Err, trace;
      }
    }
    var confirms := ConfirmAll(n, w);
    ghost var third :| Confirms(confirms, w, n, third);
    TraceOf(asks, confirms, w, n, first, second, third);
    trace := trace + confirms;
    for i := 0 to n
      invariant forall j :: 0 <= j < i ==> Confirmed(w.confirm(j))
    {
      if !Confirmed(w.confirm(i)) {
        return Err, trace;
      }
    }
    r := Ok(w.pre(0).reply.grant);
  }

  lemma NoConfirms(w: World, n: nat)
    requires !AllAccepted(w, n)
    ensures Confirms([], w, n, [])
  {
  }

  lemma TraceOf(asks: seq<Event>, confirms: seq<Event>, w: World, n: nat, first: Option<Ip>, second: seq<nat>,
                third: seq<nat>)
    requires Asks(asks, w, n, first, second) && Confirms(confirms, w, n, third)
    ensures Trace(asks + confirms, w, n, first)
  {
  }

  // ---------- what that order promises ----------

  lemma {:induction false} PreRegisteredEvents(order: seq<nat>, w: World, ip: Ip)
    ensures forall e :: e in PreRegistered(order, w, ip) <==>
      e.PreRegister? && e.server in order && !w.pre(e.server).NotSent? && e.ip == Some(ip)
  {
    if order != [] {
      PreRegisteredEvents(order[..|order| - 1], w, ip);
      assert order == order[..|order| - 1] + [order[|order| - 1]];
    }
  }

  lemma {:induction false} ConfirmEvents(order: seq<nat>, w: World)
    ensures forall e ::
      e in ConfirmsSent(order, w) <==> e.Confirm? && e.server in order && !w.confirm(e.server).NotSent?
  {
    if order != [] {
      ConfirmEvents(order[..|order| - 1], w);
      assert order == order[..|order| - 1] + [order[|order| - 1]];
    }
  }

  /** A server is asked exactly when it is the first, or the first granted an address and it is one of the
      others; unless the request cannot be sent. */
  ghost predicate IsAsked(w: World, n: nat, first: Option<Ip>, e: Event) {
    && e.PreRegister? && e.server < n && !w.pre(e.server).NotSent?
    && if e.server == 0 then e.ip == first
       else w.pre(0).Replied? && w.pre(0).reply.Reg? && e.ip == Some(w.pre(0).reply.grant.ip)
  }

  lemma AsksEvents(asks: seq<Event>, w: World, n: nat, first: Option<Ip>, order: seq<nat>)
    requires Asks(asks, w, n, first, order)
    ensures forall e :: e in asks <==> IsAsked(w, n, first, e)
    ensures asks != [] ==> asks[0] == PreRegister(0, first)
  {
    if Accepted(w.pre(0)) {
      PreRegisteredEvents(order, w, w.pre(0).reply.grant.ip);
    }
  }

  lemma ConfirmsEvents(confirms: seq<Event>, w: World, n: nat, order: seq<nat>)
    requires Confirms(confirms, w, n, order)
    ensures forall e ::
      e in confirms <==> e.Confirm? && AllAccepted(w, n) && e.server < n && !w.confirm(e.server).NotSent?
  {
    if AllAccepted(w, n) {
      ConfirmEvents(order, w);
    }
  }

  /** For every pattern of replies: a confirmation is sent only when every server has accepted, and
      then to every server it can be sent to; the first server is asked first, and if it grants an
      address each other one is asked for that address, else none; and no pre-registration follows a
      confirmation. */
  lemma TwoPhases(trace: seq<Event>, w: World, n: nat, first: Option<Ip>)
    requires Trace(trace, w, n, first)
    ensures forall i: nat :: Confirm(i) in trace <==> AllAccepted(w, n) && i < n && !w.confirm(i).NotSent?
    ensures forall i: nat, ip :: PreRegister(i, ip) in trace <==> IsAsked(w, n, first, PreRegister(i, ip))
    ensures trace != [] ==> trace[0] == PreRegister(0, first)
    ensures forall a, b :: 0 <= a < b < |trace| && trace[a].Confirm? ==> trace[b].Confirm?
  {
    var asks, confirms, second, third :|
      trace == asks + confirms && Asks(asks, w, n, first, second) && Confirms(confirms, w, n, third);
    AsksEvents(asks, w, n, first, second);
    ConfirmsEvents(confirms, w, n, third);
    assert confirms != [] ==> asks != [] by {
      if confirms != [] {
        assert confirms[0] in confirms;
        assert IsAsked(w, n, first, PreRegister(0, first));
      }
    }
    hide Asks, Confirms, AllAccepted, Accepted, IsAsked;
    forall i | 0 <= i < |asks| ensures trace[i].PreRegister? {
      assert trace[i] in asks;
      AskedIsPre(w, n, first, trace[i]);
    }
    forall i | |asks| <= i < |trace| ensures trace[i].Confirm? {
      assert trace[i] in confirms;
    }
  }

  lemma AskedIsPre(w: World, n: nat, first: Option<Ip>, e: Event)
    requires IsAsked(w, n, first, e)
    ensures e.PreRegister?
  {
  }

  // ---------- the connection afterwards ----------

  datatype Link = Connected | Disconnected | Stopped

  /** A reply that keeps the connection: the same address, prefix and gateway as at the start. */
  predicate Unchanged(initial: Grant, a: Attempt) {
    Accepted(a) && a.reply.grant == initial
  }

  /** A reply that ends it. */
  predicate Refused(initial: Grant, a: Attempt) {
    a.Replied? && a != Replied(Reg(initial))
  }

  /** Serves a connection that is lost again and again, through the given reconnection attempts. */
  method ServeConnected(initial: Grant, attempts: seq<Attempt>) returns (log: seq<Link>)
    ensures log == [Connected] + Reconnects(initial, attempts)
  {
    log := [];
    var alreadyConnected := true;
    var k := 0;
    while true
      invariant 0 <= k <= |attempts|
      invariant if alreadyConnected then k == 0 && log == []
                else log + Reconnects(initial, attempts[k..]) == [Connected] + Reconnects(initial, attempts)
      decreases |attempts| - k, if alreadyConnected then 1 else 0
    {
      if !alreadyConnected {
        log := log + [Disconnected];
        if k == |attempts| {
          return;
        }
        var a := attempts[k];
        assert attempts[k..][0] == a && attempts[k..][1..] == attempts[k + 1..];
        k := k + 1;
        if !a.Replied? {
          continue;
        }
        if !Accepted(a) || a.reply.grant != initial {
          break;
        }
      }
      log := log + [Connected];
      alreadyConnected := false;
      assert attempts[0..] == attempts;
    }
    log := log + [Disconnected, Stopped];
  }

  function Reconnects(initial: Grant, attempts: seq<Attempt>): seq<Link> {
    [Disconnected] +
    if attempts == [] then []
    else if !attempts[0].Replied? then Reconnects(initial, attempts[1..])
    else if Unchanged(initial, attempts[0]) then [Connected] + Reconnects(initial, attempts[1..])
    else [Disconnected, Stopped]
  }

  function Lives(log: seq<Link>): nat {
    if log == [] then 0 else (if log[0].Connected? then 1 else 0) + Lives(log[1..])
  }

  function Matches(initial: Grant, attempts: seq<Attempt>): nat {
    if attempts == [] || Refused(initial, attempts[0]) then 0
    else (if attempts[0] == Replied(Reg(initial)) then 1 else 0) + Matches(initial, attempts[1..])
  }

  lemma LivesNext(l: Link, log: seq<Link>)
    ensures Lives([l] + log) == Lives(log) + if l.Connected? then 1 else 0
  {
    assert ([l] + log)[1..] == log;
  }

  /** The connection goes live again exactly once for each unchanged grant that comes before the first
      refusal or change; failed attempts are only retried. */
  lemma {:induction false} LiveOnlyUnchanged(initial: Grant, attempts: seq<Attempt>)
    ensures Lives(Reconnects(initial, attempts)) == Matches(initial, attempts)
  {
    LivesNext(Disconnected, []);
    if attempts != [] {
      var rest := Reconnects(initial, attempts[1..]);
      LiveOnlyUnchanged(initial, attempts[1..]);
      LivesNext(Connected, rest);
      LivesNext(Disconnected, rest);
      LivesNext(Disconnected, [Connected] + rest);
      LivesNext(Disconnected, [Stopped]);
      LivesNext(Disconnected, [Disconnected, Stopped]);
      assert [Disconnected] + [Stopped] == [Disconnected, Stopped];
    }
  }

  ghost predicate AnyRefused(initial: Grant, attempts: seq<Attempt>) {
    exists i :: 0 <= i < |attempts| && Refused(initial, attempts[i])
  }

  /** It stops exactly when some attempt is refused or brings a change. */
  lemma {:induction false} StopsWhenChanged(initial: Grant, attempts: seq<Attempt>)
    ensures Stopped in Reconnects(initial, attempts) <==> AnyRefused(initial, attempts)
  {
    if attempts != [] {
      StopsWhenChanged(initial, attempts[1..]);
      if AnyRefused(initial, attempts[1..]) {
        var i :| 0 <= i < |attempts[1..]| && Refused(initial, attempts[1..][i]);
        assert attempts[1..][i] == attempts[i + 1];
      }
      if AnyRefused(initial, attempts) {
        var i :| 0 <= i < |attempts| && Refused(initial, attempts[i]);
        assert i > 0 ==> attempts[1..][i - 1] == attempts[i];
      }
    }
  }

  function Losses(log: seq<Link>): nat {
    if log == [] then 0 else (if log[0].Disconnected? then 1 else 0) + Losses(log[1..])
  }

  lemma LossesNext(l: Link, log: seq<Link>)
    ensures Losses([l] + log) == Losses(log) + if l.Disconnected? then 1 else 0
  {
    assert ([l] + log)[1..] == log;
  }

  /** The attempts made: all up to the first refusal or change, that one included. */
  function Made(initial: Grant, attempts: seq<Attempt>): nat {
    if attempts == [] then 0
    else if Refused(initial, attempts[0]) then 1
    else 1 + Made(initial, attempts[1..])
  }

  /** The link is down before every attempt and after the last; it goes up only from down, and nothing
      follows a stop. */
  lemma {:induction false} DownBeforeEachAttempt(initial: Grant, attempts: seq<Attempt>)
    ensures var log := Reconnects(initial, attempts);
      && Losses(log) == Made(initial, attempts) + 1 && log[0] == Disconnected
      && (forall i :: 0 <= i < |log| && log[i].Connected? ==> i > 0 && log[i - 1].Disconnected?)
      && (forall i :: 0 <= i < |log| && log[i].Stopped? ==> i == |log| - 1)
  {
    LossesNext(Disconnected, []);
    if attempts != [] {
      var rest := Reconnects(initial, attempts[1..]);
      DownBeforeEachAttempt(initial, attempts[1..]);
      LossesNext(Connected, rest);
      LossesNext(Disconnected, rest);
      LossesNext(Disconnected, [Connected] + rest);
      LossesNext(Disconnected, [Stopped]);
      LossesNext(Disconnected, [Disconnected, Stopped]);
      assert [Disconnected] + [Stopped] == [Disconnected, Stopped];
    }
  }
}
