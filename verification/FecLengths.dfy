/** Which batches FEC protects: the decoder stores originals unpadded, so decoding needs every shard it
    holds to be as long as the parity. Recovery from every loss pattern holds for a batch exactly when
    its payloads all have one length. */
module FecLengths {
  import opened Basics
  import opened ErasureCode
  import opened FecMessage
  import opened FecShard
  import opened NetPacket
  import opened FecDecoder
  import opened FecDelivery
  import opened FecRecovery
  import Encoder = FecEncoder

  ghost predicate EqualLengths(items: seq<Fields>) {
    forall i, j :: 0 <= i < |items| && 0 <= j < |items| ==> |items[i].payload| == |items[j].payload|
  }

  /** Whichever shards are lost, as many as there are originals are enough. */
  ghost predicate RecoversEveryPattern(rs: RsCode, items: seq<Fields>) {
    forall key, ss, es, os :: BatchRun(rs, items, key, ss, es, os) && |Seen(es, key)| >= |items|
        ==> Complete(items, Log(es, os, key))
  }

  lemma EqualIsFull(items: seq<Fields>)
    requires items != []
    ensures EqualLengths(items) <==> forall i: nat :: i < |items| ==> Full(items, i)
  {
    var shards := PackedShards(items);
    Encoder.LongestBounds(shards);
    var l :| 0 <= l < |shards| && |shards[l]| == Longest(items);
    assert Full(items, l);
    if forall i: nat :: i < |items| ==> Full(items, i) {
      forall i, j | 0 <= i < |items| && 0 <= j < |items| ensures |items[i].payload| == |items[j].payload| {
        assert Full(items, i) && Full(items, j);
      }
    }
  }

  // ---------- a run that loses an original for good ----------

  const KEY := Key(0, 0)

  function OriginalEvent(items: seq<Fields>, i: nat): Event
    requires i < |items|
  {
    Event(EMPTY_HEADER.(typeByte := items[i].typeByte), Some(FecPacket(0, i, items[i].payload, None)), 0)
  }

  function ParityEvent(rs: RsCode, items: seq<Fields>): Event {
    var shards := ParityData(|items|, Parities(items));
    Event(EMPTY_HEADER, Some(FecPacket(0, |items|, ParityOf(rs, items, 0), Some(shards))), 0)
  }

  /** The decoder's answer to an event for the group at time 0, when no cleanup is due. */
  lemma Extend(rs: RsCode, items: seq<Fields>, ss: seq<State>, es: seq<Event>, os: seq<Outcome>, e: Event)
    returns (t: State, o: Outcome)
    requires BatchRun(rs, items, KEY, ss, es, os) && ss[|es|].lastCleanup == 0
    requires For(e, KEY) && OfBatch(rs, items, e.head, e.body.value) && e.now == 0
    ensures BatchRun(rs, items, KEY, ss + [t], es + [e], os + [o])
    ensures t.lastCleanup == 0 && KEY in t.groups
    ensures (t.groups[KEY], o) == GroupReceive(rs, GroupAt(ss[|es|].groups, KEY, 0), e.head, e.body.value, 0)
    ensures Log(es + [e], os + [o], KEY) == Log(es, os, KEY) + Of(o)
    ensures Seen(es + [e], KEY) == Seen(es, KEY) + {e.body.value.index}
  {
    hide GroupReceive, CleanedUp, ParityOf;
    var s := ss[|es|];
    var (h, out) := GroupReceive(rs, GroupAt(s.groups, KEY, 0), e.head, e.body.value, 0);
    t, o := State(s.groups[KEY := h], 0), out;
    assert Receives(rs, s, e.head, e.body, 0, t, o);
    var ss', es', os' := ss + [t], es + [e], os + [o];
    forall i | 0 <= i < |es'|
      ensures Receives(rs, ss'[i], es'[i].head, es'[i].body, es'[i].now, ss'[i + 1], os'[i])
      ensures (KEY in ss'[i].groups || For(es'[i], KEY)) ==> KEY in ss'[i + 1].groups
      ensures For(es'[i], KEY) ==> OfBatch(rs, items, es'[i].head, es'[i].body.value)
    {
      if i < |es| {
        assert es'[i] == es[i];
      }
    }
    assert es'[..|es|] == es && os'[..|es|] == os;
  }

  /** All originals up to `n` but `j`. */
  function Others(n: nat, j: nat): set<nat> {
    Below(n) - {j}
  }

  lemma OthersNext(n: nat, j: nat)
    ensures n == j ==> Others(n + 1, j) == Others(n, j)
    ensures n != j ==> Others(n + 1, j) == Others(n, j) + {n}
  {
  }

  /** The group after the originals below `n` except `j`, and nothing else. */
  ghost predicate Partial(rs: RsCode, items: seq<Fields>, g: FecGroup, j: nat, n: nat) {
    StoredOk(rs, items, g, Others(n, j)) && g.data == 0
  }

  /** A run that ends without having delivered `j`, with no cleanup so far. */
  ghost predicate Without(rs: RsCode, items: seq<Fields>, j: nat, seen: set<nat>, ss: seq<State>, es: seq<Event>,
                          os: seq<Outcome>) {
    && BatchRun(rs, items, KEY, ss, es, os)
    && |ss| == |es| + 1 && |os| == |es|
    && ss[|es|].lastCleanup == 0
    && Seen(es, KEY) == seen
    && !Fills(Log(es, os, KEY), j)
  }

  lemma ExtendWithout(rs: RsCode, items: seq<Fields>, j: nat, seen: set<nat>, ss: seq<State>, es: seq<Event>,
                      os: seq<Outcome>, e: Event)
    returns (t: State, o: Outcome)
    requires Without(rs, items, j, seen, ss, es, os)
    requires For(e, KEY) && OfBatch(rs, items, e.head, e.body.value) && e.now == 0
    requires !Fills(Of(GroupReceive(rs, GroupAt(ss[|es|].groups, KEY, 0), e.head, e.body.value, 0).1), j)
    ensures Without(rs, items, j, seen + {e.body.value.index}, ss + [t], es + [e], os + [o])
    ensures GroupAt(t.groups, KEY, 0) == GroupReceive(rs, GroupAt(ss[|es|].groups, KEY, 0), e.head, e.body.value, 0).0
  {
    t, o := Extend(rs, items, ss, es, os, e);
    FillsAppend(Log(es, os, KEY), Of(o), j);
  }

  /** Before any parity an original is just stored and handed on. */
  lemma OriginalPasses(rs: RsCode, items: seq<Fields>, g: FecGroup, seen: set<nat>, head: Header, f: FecPacket)
    requires Batch(items) && StoredOk(rs, items, g, seen) && g.data == 0
    requires IsOriginal(items, head, f) && f.index !in seen
    ensures var (h, o) := GroupReceive(rs, g, head, f, 0);
      StoredOk(rs, items, h, seen + {f.index}) && h.data == 0 && Of(o) == DirectOf(head, f)
  {
    NewShard(rs, items, g, seen, head, f, 0);
  }

  lemma NothingSent(rs: RsCode, items: seq<Fields>, j: nat)
    requires Batch(items)
    ensures Without(rs, items, j, Others(0, j), [State(map[], 0)], [], [])
    ensures Partial(rs, items, NewGroup(0), j, 0)
  {
    assert Others(0, j) == {};
    FreshGroupWaits(rs, items, 0);
  }

  lemma OneMore(rs: RsCode, items: seq<Fields>, g: FecGroup, j: nat, n: nat)
    requires Batch(items) && n < |items| && n != j && Partial(rs, items, g, j, n)
    ensures var e := OriginalEvent(items, n);
      && For(e, KEY) && OfBatch(rs, items, e.head, e.body.value)
      && var (h, o) := GroupReceive(rs, g, e.head, e.body.value, 0);
         Partial(rs, items, h, j, n + 1) && !Fills(Of(o), j)
  {
    hide SlotsOk, CountsOk, GroupReceive;
    var e := OriginalEvent(items, n);
    assert Others(n + 1, j) == Others(n, j) + {n};
    OriginalPasses(rs, items, g, Others(n, j), e.head, e.body.value);
    DirectExact(rs, items, e.head, e.body.value);
  }

  lemma {:induction false} SendOthers(rs: RsCode, items: seq<Fields>, j: nat, n: nat)
    returns (ss: seq<State>, es: seq<Event>, os: seq<Outcome>, g: FecGroup)
    requires Batch(items) && n <= |items|
    ensures Without(rs, items, j, Others(n, j), ss, es, os)
    ensures g == GroupAt(ss[|es|].groups, KEY, 0) && Partial(rs, items, g, j, n)
  {
    hide Others, StoredOk, BatchRun, GroupReceive, OfBatch, For, Log, Seen, Fills, Batch;
    if n == 0 {
      ss, es, os, g := [State(map[], 0)], [], [], NewGroup(0);
      NothingSent(rs, items, j);
    } else {
      ss, es, os, g := SendOthers(rs, items, j, n - 1);
      OthersNext(n - 1, j);
      if n - 1 == j {
        assert Partial(rs, items, g, j, n);
      } else {
        OneMore(rs, items, g, j, n - 1);
        var t, o := ExtendWithout(rs, items, j, Others(n - 1, j), ss, es, os, OriginalEvent(items, n - 1));
        ss, es, os := ss + [t], es + [OriginalEvent(items, n - 1)], os + [o];
        g := GroupAt(t.groups, KEY, 0);
        assert Partial(rs, items, g, j, n);
      }
    }
  }

  /** All originals but one, and one parity, are enough shards with an original missing. */
  lemma OthersAndParity(items: seq<Fields>, j: nat)
    requires j < |items|
    ensures var seen := Others(|items|, j) + {|items|};
      |seen| == |items| && HasParity(items, seen) && !AllOriginals(items, seen)
  {
    assert Below(|items|) == Others(|items|, j) + {j};
    assert |items| in Others(|items|, j) + {|items|};
  }

  lemma ParityIsOfBatch(rs: RsCode, items: seq<Fields>)
    requires Batch(items)
    ensures var e := ParityEvent(rs, items);
      OfBatch(rs, items, e.head, e.body.value) && e.body.value.index == |items| && e.body.value.parityData.Some?
  {
    hide ParityOf;
  }

  lemma PartialOpen(rs: RsCode, items: seq<Fields>, g: FecGroup, j: nat)
    requires Partial(rs, items, g, j, |items|)
    ensures !Done(g) && |items| !in Others(|items|, j)
  {
    hide SlotsOk;
  }

  lemma ParityArrives(rs: RsCode, items: seq<Fields>, g: FecGroup, j: nat)
    requires Batch(items) && j < |items| && Partial(rs, items, g, j, |items|)
    ensures var e, seen := ParityEvent(rs, items), Others(|items|, j) + {|items|};
      && Accepts(g, e.body.value)
      && var s := Stored(g, e.head, e.body.value, 0);
         && StoredOk(rs, items, s, seen) && Enough(s)
         && GroupReceive(rs, g, e.head, e.body.value, 0) == Settled(rs, s, e.head, [])
  {
    hide SlotsOk, ParityOf, GroupReceive, Enough, Settled;
    var k := |items|;
    var e, seen := ParityEvent(rs, items), Others(k, j);
    ParityIsOfBatch(rs, items);
    PartialOpen(rs, items, g, j);
    NewShard(rs, items, g, seen, e.head, e.body.value, 0);
    hide CountsOk, Stored, StoredOk, Others, HasParity, AllOriginals, OfBatch, Accepts;
    EnoughIff(rs, items, Stored(g, e.head, e.body.value, 0), seen + {k});
    OthersAndParity(items, j);
  }

  /** With enough shards but one of them short, the parity that completes the number changes nothing. */
  lemma ParityFails(rs: RsCode, items: seq<Fields>, g: FecGroup, short: nat, j: nat)
    requires Batch(items) && short < |items| && j < |items| && short != j && !Full(items, short)
    requires Mds(rs, |items|, Parities(items)) && Solver(rs, |items|, Parities(items))
    requires Partial(rs, items, g, j, |items|)
    ensures GroupReceive(rs, g, ParityEvent(rs, items).head, ParityEvent(rs, items).body.value, 0).1 == Failed
  {
    hide SlotsOk, CountsOk, ParityOf, Reconstruct;
    var e, seen := ParityEvent(rs, items), Others(|items|, j) + {|items|};
    ParityArrives(rs, items, g, j);
    var s := Stored(g, e.head, e.body.value, 0);
    FullIsUniform(rs, items, s, seen);
    assert short in seen;
    DecodesIff(rs, items, s, seen, e.head);
  }

  /** With one original short, one missing and one parity packet in place of the missing one, decoding
      fails and the missing original is not delivered. */
  lemma ShortLosesAnother(rs: RsCode, items: seq<Fields>, short: nat, j: nat)
    returns (ss: seq<State>, es: seq<Event>, os: seq<Outcome>)
    requires Batch(items) && short < |items| && j < |items| && short != j && !Full(items, short)
    requires Mds(rs, |items|, Parities(items)) && Solver(rs, |items|, Parities(items))
    ensures BatchRun(rs, items, KEY, ss, es, os) && |Seen(es, KEY)| >= |items| && !Fills(Log(es, os, KEY), j)
  {
    hide SlotsOk, CountsOk, Run, Survives, ParityOf, GroupReceive;
    var g;
    ss, es, os, g := SendOthers(rs, items, j, |items|);
    ParityFails(rs, items, g, short, j);
    var e := ParityEvent(rs, items);
    var t, o := ExtendWithout(rs, items, j, Others(|items|, j), ss, es, os, e);
    assert Below(|items|) == Others(|items|, j) + {j};
    ss, es, os := ss + [t], es + [e], os + [o];
  }

  /** The exact condition for recovery. */
  lemma RecoversIffEqualLengths(rs: RsCode, items: seq<Fields>)
    requires Batch(items)
    requires Mds(rs, |items|, Parities(items)) && Solver(rs, |items|, Parities(items))
    ensures RecoversEveryPattern(rs, items) <==> EqualLengths(items)
  {
    EqualIsFull(items);
    if EqualLengths(items) {
      forall key, ss, es, os | BatchRun(rs, items, key, ss, es, os) && |Seen(es, key)| >= |items|
        ensures Complete(items, Log(es, os, key))
      {
        Recovers(rs, items, key, ss, es, os);
      }
    } else {
      var short: nat :| short < |items| && !Full(items, short);
      var a, b :| 0 <= a < |items| && 0 <= b < |items| && |items[a].payload| != |items[b].payload|;
      var j := if a != short then a else b;
      var ss, es, os := ShortLosesAnother(rs, items, short, j);
    }
  }

  ghost predicate HasParity(items: seq<Fields>, seen: set<nat>) {
    exists p :: p in seen && p >= |items|
  }

  predicate AllOriginals(items: seq<Fields>, seen: set<nat>) {
    forall i: nat :: i < |items| ==> i in seen
  }

  lemma EnoughIff(rs: RsCode, items: seq<Fields>, s: FecGroup, seen: set<nat>)
    requires Batch(items) && StoredOk(rs, items, s, seen)
    ensures s.data != 0 <==> HasParity(items, seen)
    ensures s.count == |items| <==> AllOriginals(items, seen)
    ensures Enough(s) <==> HasParity(items, seen) && !AllOriginals(items, seen) && |seen| >= |items|
  {
    SeenIsPresent(rs, items, s, seen);
    AllBelow(seen, |items|);
    if s.data == 0 {
      forall i | i in seen ensures i < |items| {
        assert HasShard(s, i);
      }
    }
  }

  /** Exactly when a new shard makes `receive` fail: some parity is there, enough shards are there, an
      original is missing, and one of the originals stored is shorter than the longest. An original
      whose receive fails is taken from the network and never handed on: its slot is closed. */
  lemma ReceiveFailsIff(rs: RsCode, items: seq<Fields>, g: FecGroup, seen: set<nat>, head: Header, f: FecPacket,
                        now: nat)
    requires Batch(items) && StoredOk(rs, items, g, seen) && !Done(g)
    requires OfBatch(rs, items, head, f) && f.index !in seen
    requires Mds(rs, |items|, Parities(items)) && Solver(rs, |items|, Parities(items))
    ensures var (h, o), all := GroupReceive(rs, g, head, f, now), seen + {f.index};
      && (o == Failed <==>
            HasParity(items, all) && !AllOriginals(items, all) && |all| >= |items| && !FullLength(items, all))
      && Closed(h, f.index)
  {
    hide SlotsOk, CountsOk, ParityOf, Reconstruct, OfBatch, Pack;
    NewShard(rs, items, g, seen, head, f, now);
    var all, s := seen + {f.index}, Stored(g, head, f, now);
    EnoughIff(rs, items, s, all);
    FullIsUniform(rs, items, s, all);
    if Enough(s) {
      DecodesIff(rs, items, s, all, head);
    }
    StoredSlots(g, head, f, now, f.index);
  }
}
