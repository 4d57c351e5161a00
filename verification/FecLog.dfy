/** The flags of what is delivered: over every run of a batch whose originals arrive with the flags they
    were sent with, each packet carries either its own flags or those solved from the flags column of
    the shards seen by then. The theorems about that column thereby speak of the delivery log. */
module FecLog {
  import opened Basics
  import opened ErasureCode
  import opened FecMessage
  import opened FecShard
  import opened NetPacket
  import opened FecDecoder
  import opened FecDelivery
  import opened FecRecovery
  import opened FecLengths
  import opened FecFlags
  import opened FecLinear
  import opened FecSession
  import Encoder = FecEncoder
  import Numbering = FecNumbering

  /** The originals of the batch arrive with the flags `Encode` sent them with. */
  ghost predicate FlagsAsSent(items: seq<Fields>, key: Key, es: seq<Event>) {
    forall i {:trigger es[i]} :: 0 <= i < |es| && For(es[i], key) ==> AsSent(items, es[i].head, es[i].body.value)
  }

  predicate AsSent(items: seq<Fields>, head: Header, f: FecPacket) {
    f.parityData.None? && f.index < |items| ==> head.flagsByte == WireFlags(items[f.index].flagsByte)
  }

  /** Originals are stored with the flags they were sent with. */
  ghost predicate FlagsKept(items: seq<Fields>, g: FecGroup) {
    forall i: nat ::
      i < |items| && HasShard(g, i) ==> g.shards[i].value == Pack(items[i].(flagsByte := WireFlags(items[i].flagsByte)))
  }

  ghost predicate GroupKept(rs: RsCode, items: seq<Fields>, g: FecGroup, seen: set<nat>) {
    Done(g) || (StoredOk(rs, items, g, seen) && FlagsKept(items, g))
  }

  ghost predicate RsGood(rs: RsCode, items: seq<Fields>) {
    Mds(rs, |items|, Parities(items)) && Solver(rs, |items|, Parities(items))
  }

  /** A packet delivered when the slots `seen` were filled: the original in hand with its own flags, or
      a missing one with the flags solved from the flags column. */
  predicate FlagsOf(rs: RsCode, items: seq<Fields>, seen: set<nat>, d: Delivery) {
    var flags := d.packet.head.flagsByte;
    d.index < |items| &&
    if d.index in seen then flags == With(items[d.index].flagsByte, FEC, false)
    else flags == RebuiltFlags(rs, items, Parities(items), seen, d.index)
         && |seen| >= |items| && forall i :: i in seen ==> i < |items| + Parities(items)
  }

  ghost predicate AllFlagsOf(rs: RsCode, items: seq<Fields>, seen: set<nat>, ds: seq<Delivery>) {
    forall j :: 0 <= j < |ds| ==> FlagsOf(rs, items, seen, ds[j])
  }

  // ---------- one receive ----------

  lemma StoredKeeps(items: seq<Fields>, g: FecGroup, head: Header, f: FecPacket, now: nat)
    requires FlagsKept(items, g) && Accepts(g, f) && AsSent(items, head, f)
    requires f.parityData.None? ==> f.index < |items| && head.typeByte == items[f.index].typeByte
                                    && f.payload == items[f.index].payload
    requires f.parityData.Some? ==> f.index >= |items|
    ensures FlagsKept(items, Stored(g, head, f, now))
  {
    hide Pack, WireFlags;
    var s := Stored(g, head, f, now);
    forall i: nat | i < |items| && HasShard(s, i)
      ensures s.shards[i].value == Pack(items[i].(flagsByte := WireFlags(items[i].flagsByte)))
    {
      StoredSlots(g, head, f, now, i);
      if i == f.index {
        var was := Fields(head.typeByte, head.flagsByte, f.payload);
        assert was == items[i].(flagsByte := WireFlags(items[i].flagsByte));
      }
    }
  }

  /** The flags of a packet rebuilt from the stored shards are those solved from the flags column. */
  lemma SolvedColumn(rs: RsCode, items: seq<Fields>, s: FecGroup, seen: set<nat>, head: Header, i: nat)
    requires Batch(items) && StoredOk(rs, items, s, seen) && FlagsKept(items, s) && s.data != 0 && |seen| >= |items|
    requires RsGood(rs, items) && Uniform(s.shards, Longest(items)) && i < |items|
    ensures var p := Rebuilt(head, SolvedShard(rs, |items|, Parities(items), s.shards, Longest(items), i));
      p.Ok? && p.value.head.flagsByte == RebuiltFlags(rs, items, Parities(items), seen, i)
  {
    var shard := SolvedShard(rs, |items|, Parities(items), s.shards, Longest(items), i);
    RebuiltExact(rs, items, s, seen, head, i);
    StoredColumn(rs, items, s, seen);
    LongestAtLeast(items, 0);
    assert shard[1] == rs.solve(|items|, Parities(items), Column(s.shards, 1), i);
    hide StoredOk, FlagsKept, RsGood, Uniform, SolvedShard;
  }

  lemma StoredColumn(rs: RsCode, items: seq<Fields>, s: FecGroup, seen: set<nat>)
    requires Batch(items) && StoredOk(rs, items, s, seen) && FlagsKept(items, s) && s.data != 0
    ensures Column(s.shards, 1) == FlagsColumn(rs, items, Parities(items), seen)
  {
    hide Pack, ParityOf, Column, FlagsColumn, Batch;
    forall i: nat | i < |s.shards|
      ensures s.shards[i].Some? <==> i in seen
      ensures i < |items| && i in seen ==>
        s.shards[i].value == Pack(items[i].(flagsByte := WireFlags(items[i].flagsByte)))
      ensures |items| <= i && i in seen ==> s.shards[i].value == ParityOf(rs, items, i - |items|)
    {
      assert HasShard(s, i) <==> i in seen;
    }
    FlagsColumnIsStored(rs, items, s.shards, seen);
  }

  lemma {:induction false} RebuiltFlagsBelow(rs: RsCode, items: seq<Fields>, seen: set<nat>, head: Header,
                                             before: Shards, full: Shards, n: nat)
    requires n <= |items| <= |before| == |full|
    requires forall i: nat :: i < |full| ==> full[i].Some?
    requires forall i: nat :: i < |items| ==> (before[i].Some? <==> i in seen)
    requires |seen| >= |items| && forall i :: i in seen ==> i < |items| + Parities(items)
    requires forall i: nat :: i < |items| && before[i].None? ==>
      Rebuilt(head, full[i].value).Ok?
      && Rebuilt(head, full[i].value).value.head.flagsByte == RebuiltFlags(rs, items, Parities(items), seen, i)
    requires RebuiltBelow(head, before, full, n).Ok?
    ensures AllFlagsOf(rs, items, seen, RebuiltBelow(head, before, full, n).value)
  {
    hide Rebuilt, RebuiltFlags;
    if n > 0 {
      RebuiltFlagsBelow(rs, items, seen, head, before, full, n - 1);
    }
  }

  lemma InRange(rs: RsCode, items: seq<Fields>, s: FecGroup, seen: set<nat>)
    requires SlotsOk(rs, items, s, seen)
    ensures forall i :: i in seen ==> i < |items| + Parities(items)
  {
    forall i | i in seen ensures i < |items| + Parities(items) {
      assert HasShard(s, i);
    }
  }

  /** So are those of every packet rebuilt from a reconstructed group. */
  lemma FullFlags(rs: RsCode, items: seq<Fields>, s: FecGroup, seen: set<nat>, head: Header)
    requires Batch(items) && RsGood(rs, items) && StoredOk(rs, items, s, seen) && FlagsKept(items, s)
    requires s.data != 0 && |seen| >= |items| && Uniform(s.shards, Longest(items))
    ensures Reconstruct(rs, s.data, s.parity, s.shards).Ok?
    ensures var full := Reconstruct(rs, s.data, s.parity, s.shards).value;
      forall i: nat :: i < |items| ==>
        && (s.shards[i].Some? <==> i in seen)
        && (s.shards[i].None? ==>
              Rebuilt(head, full[i].value).Ok?
              && Rebuilt(head, full[i].value).value.head.flagsByte == RebuiltFlags(rs, items, Parities(items), seen, i))
  {
    hide RsGood, RebuiltFlags, Rebuilt, FlagsKept;
    ReconstructsIff(rs, items, s, seen);
    forall i: nat | i < |items| ensures s.shards[i].Some? <==> i in seen {
      assert HasShard(s, i) <==> i in seen;
    }
    forall i: nat | i < |items| && s.shards[i].None?
      ensures var p := Rebuilt(head, SolvedShard(rs, |items|, Parities(items), s.shards, Longest(items), i));
        p.Ok? && p.value.head.flagsByte == RebuiltFlags(rs, items, Parities(items), seen, i)
    {
      SolvedColumn(rs, items, s, seen, head, i);
    }
  }

  /** Decoding delivers the missing originals with the flags solved from the flags column. */
  lemma TriedFlags(rs: RsCode, items: seq<Fields>, s: FecGroup, seen: set<nat>, head: Header)
    requires Batch(items) && RsGood(rs, items) && StoredOk(rs, items, s, seen) && FlagsKept(items, s)
    ensures var (h, d) := Tried(rs, s, head);
      (h == s && !d.Decoded?) || (Done(h) && d.Decoded? && AllFlagsOf(rs, items, seen, d.ds))
  {
    if Enough(s) {
      DecodesIff(rs, items, s, seen, head);
      if Uniform(s.shards, Longest(items)) {
        SeenIsPresent(rs, items, s, seen);
        InRange(rs, items, s, seen);
        var full := Reconstruct(rs, s.data, s.parity, s.shards).value;
        FullFlags(rs, items, s, seen, head);
        hide Rebuilt, RebuiltFlags, SlotsOk, FlagsKept, RsGood, Uniform, Longest, Parities;
        RebuiltFlagsBelow(rs, items, seen, head, s.shards, full, |items|);
      }
    }
  }

  lemma WireCleared(flags: byte)
    ensures With(WireFlags(flags), FEC, false) == With(flags, FEC, false)
  {
  }

  lemma DirectFlags(rs: RsCode, items: seq<Fields>, seen: set<nat>, head: Header, f: FecPacket)
    requires OfBatch(rs, items, head, f) && AsSent(items, head, f) && f.index in seen
    ensures AllFlagsOf(rs, items, seen, DirectOf(head, f))
  {
    if f.parityData.None? {
      WireCleared(items[f.index].flagsByte);
    }
  }

  /** One receive of a shard of the batch keeps the stored flags and delivers packets with the flags
      stated. */
  lemma ReceiveFlags(rs: RsCode, items: seq<Fields>, g: FecGroup, seen: set<nat>, head: Header, f: FecPacket, now: nat)
    requires Batch(items) && RsGood(rs, items) && OfBatch(rs, items, head, f) && AsSent(items, head, f)
    requires GroupKept(rs, items, g, seen)
    ensures var (h, o) := GroupReceive(rs, g, head, f, now);
      GroupKept(rs, items, h, seen + {f.index}) && AllFlagsOf(rs, items, seen + {f.index}, Of(o))
  {
    hide RsGood, FlagsOf, SlotsOk, CountsOk, IsParity, Batch;
    if !Done(g) {
      if f.index in seen {
        SeenHasShard(rs, items, g, seen, f.index);
        assert seen + {f.index} == seen;
      } else {
        NewShardKept(rs, items, g, seen, head, f, now);
        var s, all, direct := Stored(g, head, f, now), seen + {f.index}, DirectOf(head, f);
        DirectFlags(rs, items, all, head, f);
        SettledFlags(rs, items, s, all, head, direct);
      }
    }
  }

  lemma SeenHasShard(rs: RsCode, items: seq<Fields>, g: FecGroup, seen: set<nat>, i: nat)
    requires StoredOk(rs, items, g, seen)
    ensures HasShard(g, i) <==> i in seen
  {
  }

  lemma NewShardKept(rs: RsCode, items: seq<Fields>, g: FecGroup, seen: set<nat>, head: Header, f: FecPacket, now: nat)
    requires Batch(items) && OfBatch(rs, items, head, f) && AsSent(items, head, f) && f.index !in seen
    requires !Done(g) && StoredOk(rs, items, g, seen) && FlagsKept(items, g)
    ensures Accepts(g, f)
    ensures StoredOk(rs, items, Stored(g, head, f, now), seen + {f.index})
    ensures FlagsKept(items, Stored(g, head, f, now))
    ensures GroupReceive(rs, g, head, f, now) == Settled(rs, Stored(g, head, f, now), head, DirectOf(head, f))
  {
    NewShard(rs, items, g, seen, head, f, now);
    StoredKeeps(items, g, head, f, now);
  }

  lemma SettledFlags(rs: RsCode, items: seq<Fields>, s: FecGroup, seen: set<nat>, head: Header, direct: seq<Delivery>)
    requires Batch(items) && RsGood(rs, items) && StoredOk(rs, items, s, seen) && FlagsKept(items, s)
    requires AllFlagsOf(rs, items, seen, direct)
    ensures var (h, o) := Settled(rs, s, head, direct);
      GroupKept(rs, items, h, seen) && AllFlagsOf(rs, items, seen, Of(o))
  {
    hide FlagsOf, RsGood, StoredOk, FlagsKept, Tried, Batch;
    TriedFlags(rs, items, s, seen, head);
    SettledParts(rs, s, head, direct);
    var d := Tried(rs, s, head).1;
    if !Done(s) && d.Decoded? {
      assert Of(Settled(rs, s, head, direct).1) == d.ds + direct;
    }
  }

  // ---------- every run ----------

  ghost predicate KeptSoFar(rs: RsCode, items: seq<Fields>, key: Key, s: State, seen: set<nat>) {
    if key in s.groups then GroupKept(rs, items, s.groups[key], seen) else seen == {}
  }

  lemma FreshGroupKept(rs: RsCode, items: seq<Fields>, now: nat)
    requires Batch(items)
    ensures GroupKept(rs, items, NewGroup(now), {})
  {
    FreshGroupWaits(rs, items, now);
  }

  lemma {:induction false} KeptAlways(rs: RsCode, items: seq<Fields>, key: Key, ss: seq<State>, es: seq<Event>,
                                      os: seq<Outcome>, t: nat)
    requires Batch(items) && RsGood(rs, items) && BatchRun(rs, items, key, ss, es, os) && t <= |es|
    requires FlagsAsSent(items, key, es)
    ensures KeptSoFar(rs, items, key, ss[t], Seen(es[..t], key))
    ensures t > 0 && For(es[t - 1], key) ==> AllFlagsOf(rs, items, Seen(es[..t], key), Of(os[t - 1]))
  {
    hide GroupKept, RsGood, Batch, AllFlagsOf, GroupReceive, OfBatch, AsSent, Receives, Of;
    if t > 0 {
      var n := t - 1;
      KeptAlways(rs, items, key, ss, es, os, n);
      GroupStep(rs, ss, es, os, key, n);
      NextLog(es, os, key, n);
      var seen, e := Seen(es[..n], key), es[n];
      if For(e, key) {
        FreshGroupKept(rs, items, e.now);
        ReceiveFlags(rs, items, GroupAt(ss[n].groups, key, e.now), seen, e.head, e.body.value, e.now);
      } else {
        assert seen + {} == seen;
      }
    }
  }

  // ---------- the flags theorems, for the log ----------

  /** The flags of everything delivered, for every code: a packet whose slot a shard has filled is that
      original itself, without the FEC flag; any other is recovered, from enough shards, with the flags
      solved from the flags column of the slots filled by then. */
  lemma DeliveredFlags(rs: RsCode, items: seq<Fields>, key: Key, ss: seq<State>, es: seq<Event>, os: seq<Outcome>,
                       t: nat, j: nat)
    requires Batch(items) && RsGood(rs, items) && BatchRun(rs, items, key, ss, es, os) && FlagsAsSent(items, key, es)
    requires t < |es| && For(es[t], key) && j < |Of(os[t])|
    ensures var d, seen := Of(os[t])[j], Seen(es[..t + 1], key);
      && d.index < |items|
      && (d.index in seen ==> d.packet.head.flagsByte == With(items[d.index].flagsByte, FEC, false))
      && (d.index !in seen ==>
            |seen| >= |items| && (forall i :: i in seen ==> i < |items| + Parities(items))
            && d.packet.head.flagsByte == RebuiltFlags(rs, items, Parities(items), seen, d.index))
  {
    assert t < |os|;
    hide BatchRun, Batch, FlagsAsSent, RebuiltFlags;
    KeptAlways(rs, items, key, ss, es, os, t + 1);
    assert FlagsOf(rs, items, Seen(es[..t + 1], key), Of(os[t])[j]);
  }

  /** When no original of the batch arrives, every packet recovered carries the flags it was sent with,
      whatever the code. */
  lemma LogRightWithoutOriginals(rs: RsCode, items: seq<Fields>, key: Key, ss: seq<State>, es: seq<Event>,
                                 os: seq<Outcome>, t: nat, j: nat)
    requires Batch(items) && RsGood(rs, items) && BatchRun(rs, items, key, ss, es, os) && FlagsAsSent(items, key, es)
    requires FecClear(items) && t < |es| && For(es[t], key) && j < |Of(os[t])|
    requires forall i :: i in Seen(es, key) ==> i >= |items|
    ensures var d := Of(os[t])[j]; d.index < |items| && d.packet.head.flagsByte == items[d.index].flagsByte
  {
    assert t < |os|;
    hide BatchRun, Batch, FlagsAsSent, RebuiltFlags, RsGood, FecClear, Seen, Of;
    DeliveredFlags(rs, items, key, ss, es, os, t, j);
    SeenGrows(es, key, t + 1);
    ParityOnlyRight(rs, items, Seen(es[..t + 1], key), Of(os[t])[j]);
  }

  lemma ParityOnlyRight(rs: RsCode, items: seq<Fields>, seen: set<nat>, d: Delivery)
    requires RsGood(rs, items) && FecClear(items) && d.index < |items| && |seen| >= |items|
    requires forall i :: i in seen ==> |items| <= i < |items| + Parities(items)
    requires d.packet.head.flagsByte == RebuiltFlags(rs, items, Parities(items), seen, d.index)
    ensures d.packet.head.flagsByte == items[d.index].flagsByte
  {
    hide RebuiltFlags, Mds, Solver;
    FlagsRightWithoutOriginals(rs, items, Parities(items), seen, d.index);
  }

  /** Under a linear MDS code, a packet delivered when the slots `seen` were filled carries the flags it
      was sent with exactly when it is the original itself or the decoding coefficients of the originals
      in `seen` add up to zero or one. */
  lemma LogRightIff(rs: RsCode, items: seq<Fields>, key: Key, ss: seq<State>, es: seq<Event>, os: seq<Outcome>,
                    t: nat, j: nat)
    requires Batch(items) && GoodCode(rs, |items|, Parities(items))
    requires BatchRun(rs, items, key, ss, es, os) && FlagsAsSent(items, key, es)
    requires FecClear(items) && t < |es| && For(es[t], key) && j < |Of(os[t])|
    ensures var d, seen := Of(os[t])[j], Seen(es[..t + 1], key);
      && d.index < |items|
      && (d.packet.head.flagsByte == items[d.index].flagsByte <==>
            d.index in seen
            || CoefficientSum(rs, |items|, Parities(items), seen, d.index, |items|) in {0, 1})
  {
    assert t < |os|;
    hide BatchRun, Batch, FlagsAsSent, RebuiltFlags, GoodCode, CoefficientSum;
    GoodIsRsGood(rs, items);
    DeliveredFlags(rs, items, key, ss, es, os, t, j);
    var seen, d := Seen(es[..t + 1], key), Of(os[t])[j];
    if d.index in seen {
      ClearStays(items[d.index].flagsByte);
    } else {
      LinearFlagsRightIff(rs, items, Parities(items), seen, d.index);
    }
  }

  lemma GoodIsRsGood(rs: RsCode, items: seq<Fields>)
    requires GoodCode(rs, |items|, Parities(items))
    ensures RsGood(rs, items)
  {
    SolvesIsSolver(rs, |items|, Parities(items));
  }

  // ---------- from encoder to decoder ----------

  lemma FrameFlags(rs: RsCode, hs: seq<Numbering.History>, actions: seq<Numbering.Action>, c: nat, fr: Frame)
    requires Numbering.Run(hs, actions) && AllPackets(actions) && c < |hs[|actions|].flushed|
    requires var f := hs[|actions|].flushed[c]; Emitted(rs, hs, actions, f.dest, fr) && fr.body.groupId == f.groupId
    ensures AsSent(ItemsOf(hs[|actions|].flushed[c].batch), fr.head, fr.body)
  {
    var n := |actions|;
    var f := hs[n].flushed[c];
    assert |hs| == n + 1;
    hide AllPackets, Numbering.Run, EmitsParity;
    if i: nat, p :| EmitsOriginal(hs, actions, i, p, fr) && p.head.dest == f.dest {
      OriginalOfBatch(hs, actions, c, i, p, fr);
    } else {
      var b: nat, j: nat :| EmitsParity(rs, hs[n], b, j, fr) && hs[n].flushed[b].dest == f.dest;
      ParityHasData(rs, hs[n], b, j, fr);
    }
  }

  lemma ParityHasData(rs: RsCode, h: Numbering.History, c: nat, j: nat, fr: Frame)
    requires EmitsParity(rs, h, c, j, fr)
    ensures fr.body.parityData.Some?
  {
    Encoder.ParityHeads(rs, h.flushed[c]);
  }

  /** In a session the originals arrive with the flags they were sent with, so that all of the above
      holds of it: flags are delivered as sent exactly in the stated case. */
  lemma SessionFlagsRightIff(rs: RsCode, hs: seq<Numbering.History>, actions: seq<Numbering.Action>, c: nat, src: Ip,
                             ss: seq<State>, es: seq<Event>, os: seq<Outcome>, t: nat, j: nat)
    requires Session(rs, hs, actions, c, src, ss, es, os)
    requires var items := ItemsOf(hs[|actions|].flushed[c].batch);
      GoodCode(rs, |items|, Parities(items)) && FecClear(items)
    requires t < |es| && For(es[t], Key(src, hs[|actions|].flushed[c].groupId)) && j < |Of(os[t])|
    ensures var f := hs[|actions|].flushed[c];
      var items, d, seen := ItemsOf(f.batch), Of(os[t])[j], Seen(es[..t + 1], Key(src, f.groupId));
      && d.index < |items|
      && (d.packet.head.flagsByte == items[d.index].flagsByte <==>
            d.index in seen
            || CoefficientSum(rs, |items|, Parities(items), seen, d.index, |items|) in {0, 1})
  {
    var f := hs[|actions|].flushed[c];
    var items, key := ItemsOf(f.batch), Key(src, f.groupId);
    FlushIsBatch(hs, actions, c);
    SessionIsBatchRun(rs, hs, actions, c, src, ss, es, os);
    SessionAsSent(rs, hs, actions, c, src, ss, es, os);
    hide Session, FlagsAsSent, CoefficientSum, GoodCode, FecClear, Batch;
    LogRightIff(rs, items, key, ss, es, os, t, j);
  }

  lemma SessionAsSent(rs: RsCode, hs: seq<Numbering.History>, actions: seq<Numbering.Action>, c: nat, src: Ip,
                      ss: seq<State>, es: seq<Event>, os: seq<Outcome>)
    requires Session(rs, hs, actions, c, src, ss, es, os)
    ensures var f := hs[|actions|].flushed[c]; FlagsAsSent(ItemsOf(f.batch), Key(src, f.groupId), es)
  {
    var f := hs[|actions|].flushed[c];
    var key := Key(src, f.groupId);
    hide Survives, AllPackets, Emitted, Receives, Numbering.Step, Numbering.AllFrom, ItemsOf;
    forall i {:trigger es[i]} | 0 <= i < |es| && For(es[i], key)
      ensures AsSent(ItemsOf(f.batch), es[i].head, es[i].body.value)
    {
      var fr :| Emitted(rs, hs, actions, f.dest, fr) && Carries(es[i], fr);
      FrameFlags(rs, hs, actions, c, fr);
    }
  }
}
