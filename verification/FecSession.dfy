/** Both ends of FEC together: whatever frames of a group one encoder emitted reach a decoder, as many
    as the group has packets give all of its packets back. */
module FecSession {
  import opened Basics
  import opened ErasureCode
  import opened FecMessage
  import opened FecShard
  import opened NetPacket
  import opened FecDecoder
  import opened FecDelivery
  import opened FecRecovery
  import Encoder = FecEncoder
  import Numbering = FecNumbering

  function FieldsOf(p: Packet): Fields {
    Fields(p.head.typeByte, p.head.flagsByte, p.payload)
  }

  // ---------- what the encoder emits ----------

  /** Action `i` numbers packet `p`, and `fr` is the frame `Encode` returns for it. */
  ghost predicate EmitsOriginal(hs: seq<Numbering.History>, actions: seq<Numbering.Action>, i: nat, p: Packet,
                                fr: Frame) {
    && i < |actions| && |hs| == |actions| + 1 && actions[i].AddPacket?
    && var a := actions[i];
    && a.src == p.head.src && a.dest == p.head.dest && a.shard == Pack(FieldsOf(p)) && |p.payload| <= 0xFFFF
    && var s := Encoder.StateOf(hs[i].states, a.src, a.dest, a.now);
    && fr == Frame(SetFlag(p.head, FEC, true), FecPacket(s.groupId, |s.batch|, p.payload, None))
  }

  /** `fr` is parity frame `j` of flush `c`. */
  ghost predicate EmitsParity(rs: RsCode, h: Numbering.History, c: nat, j: nat, fr: Frame) {
    && c < |h.flushed|
    && var frames := Encoder.ParityFrames(rs, h.flushed[c]);
    && j < |frames| && fr == frames[j]
  }

  /** The destination a frame was emitted for is the one its number belongs to. */
  ghost predicate Emitted(rs: RsCode, hs: seq<Numbering.History>, actions: seq<Numbering.Action>, dest: Ip, fr: Frame)
    requires |hs| == |actions| + 1
  {
    || (exists i: nat, p :: EmitsOriginal(hs, actions, i, p, fr) && p.head.dest == dest)
    || (exists c: nat, j: nat :: EmitsParity(rs, hs[|actions|], c, j, fr) && hs[|actions|].flushed[c].dest == dest)
  }

  /** What is left of a frame when it arrives: relays change the TTL only. */
  predicate Carries(e: Event, fr: Frame) {
    e.body == Some(fr.body) && e.head == fr.head.(ttlByte := e.head.ttlByte)
  }

  /** The packets numbered come from calls of `Encode` that succeeded. */
  ghost predicate AllPackets(actions: seq<Numbering.Action>) {
    forall i {:trigger actions[i]} :: 0 <= i < |actions| && actions[i].AddPacket? ==> IsPacked(actions[i].shard)
  }

  ghost predicate IsPacked(s: Shard) {
    exists f: Fields :: |f.payload| <= 0xFFFF && s == Pack(f)
  }

  // ---------- the batch behind a flush ----------

  function FieldsIn(s: Shard): Fields {
    match Unpack(s)
    case Ok(f) => f
    case Err => Fields(0, 0, [])
  }

  /** The fields a flushed batch was packed from. */
  function ItemsOf(batch: seq<Shard>): (items: seq<Fields>)
    ensures |items| == |batch|
  {
    seq(|batch|, i requires 0 <= i < |batch| => FieldsIn(batch[i]))
  }

  lemma PackedBack(f: Fields)
    requires |f.payload| <= 0xFFFF
    ensures FieldsIn(Pack(f)) == f
  {
    FramingRoundTrip(f, 4 + |f.payload|);
    assert PadTo(Pack(f), 4 + |f.payload|) == Pack(f);
  }

  ghost predicate AllPacked(ms: seq<Shard>) {
    forall i :: 0 <= i < |ms| ==> IsPacked(ms[i])
  }

  lemma {:induction false} MembersPacked(log: seq<Numbering.Numbered>, dest: Ip, groupId: nat)
    requires forall i :: 0 <= i < |log| ==> IsPacked(log[i].shard)
    ensures AllPacked(Numbering.Members(log, dest, groupId))
  {
    if log != [] {
      var front, a := log[..|log| - 1], log[|log| - 1];
      assert forall i :: 0 <= i < |front| ==> front[i] == log[i];
      MembersPacked(front, dest, groupId);
      assert IsPacked(a.shard);
    }
  }

  lemma {:induction false} NumberedPacked(hs: seq<Numbering.History>, actions: seq<Numbering.Action>, t: nat)
    requires Numbering.Run(hs, actions) && AllPackets(actions) && t <= |actions|
    ensures forall i :: 0 <= i < |hs[t].numbered| ==> IsPacked(hs[t].numbered[i].shard)
  {
    hide IsPacked;
    if t > 0 {
      NumberedPacked(hs, actions, t - 1);
      assert Numbering.Step(hs[t - 1], actions[t - 1], hs[t]);
    }
  }

  lemma {:induction false} NumberedStays(hs: seq<Numbering.History>, actions: seq<Numbering.Action>, s: nat, t: nat)
    requires Numbering.Run(hs, actions) && s <= t < |hs|
    ensures hs[s].numbered <= hs[t].numbered
  {
    if s < t {
      NumberedStays(hs, actions, s, t - 1);
      assert Numbering.Step(hs[t - 1], actions[t - 1], hs[t]);
    }
  }

  /** A flushed batch is the packed form of a batch the recovery theorem speaks of. */
  lemma FlushIsBatch(hs: seq<Numbering.History>, actions: seq<Numbering.Action>, c: nat)
    requires Numbering.Run(hs, actions) && AllPackets(actions) && c < |hs[|actions|].flushed|
    ensures var batch := hs[|actions|].flushed[c].batch;
      Batch(ItemsOf(batch)) && PackedShards(ItemsOf(batch)) == batch
  {
    var n := |actions|;
    var f := hs[n].flushed[c];
    Numbering.FlushedBatchIsItsGroup(hs, actions, n, n, c);
    NumberedPacked(hs, actions, n);
    MembersPacked(hs[n].numbered, f.dest, f.groupId);
    var items := ItemsOf(f.batch);
    forall i | 0 <= i < |items| ensures |items[i].payload| <= 0xFFFF && Pack(items[i]) == f.batch[i] {
      assert IsPacked(f.batch[i]);
      var x: Fields :| |x.payload| <= 0xFFFF && f.batch[i] == Pack(x);
      PackedBack(x);
    }
    assert PackedShards(items) == f.batch;
  }

  // ---------- every frame of the group is a packet of the batch ----------

  /** The packet numbered by action `i` is the item of its group's batch at its own index. */
  lemma OriginalOfBatch(hs: seq<Numbering.History>, actions: seq<Numbering.Action>, c: nat, i: nat, p: Packet,
                        fr: Frame)
    requires Numbering.Run(hs, actions) && c < |hs[|actions|].flushed| && EmitsOriginal(hs, actions, i, p, fr)
    requires var f := hs[|actions|].flushed[c]; p.head.dest == f.dest && fr.body.groupId == f.groupId
    ensures var items := ItemsOf(hs[|actions|].flushed[c].batch);
      fr.body.index < |items| && items[fr.body.index] == FieldsOf(p) && IsOriginal(items, fr.head, fr.body)
  {
    var n := |actions|;
    var f := hs[n].flushed[c];
    assert Numbering.Step(hs[i], actions[i], hs[i + 1]);
    NumberedStays(hs, actions, i + 1, n);
    var at := |hs[i].numbered|;
    assert hs[i + 1].numbered[at] == Numbering.Numbered(f.dest, f.groupId, fr.body.index, Pack(FieldsOf(p)));
    assert hs[n].numbered[at] == hs[i + 1].numbered[at];
    Numbering.FlushedBatchIsItsGroup(hs, actions, n, n, c);
    PackedBack(FieldsOf(p));
  }

  lemma FrameOfBatch(rs: RsCode, hs: seq<Numbering.History>, actions: seq<Numbering.Action>, c: nat, fr: Frame)
    requires Numbering.Run(hs, actions) && AllPackets(actions) && c < |hs[|actions|].flushed|
    requires var f := hs[|actions|].flushed[c]; Emitted(rs, hs, actions, f.dest, fr) && fr.body.groupId == f.groupId
    ensures OfBatch(rs, ItemsOf(hs[|actions|].flushed[c].batch), fr.head, fr.body)
  {
    hide IsOriginal, IsParity, Batch;
    var n := |actions|;
    var f := hs[n].flushed[c];
    if i: nat, p :| EmitsOriginal(hs, actions, i, p, fr) && p.head.dest == f.dest {
      OriginalOfBatch(hs, actions, c, i, p, fr);
    } else {
      var b: nat, j: nat :| EmitsParity(rs, hs[n], b, j, fr) && hs[n].flushed[b].dest == f.dest;
      FlushIsBatch(hs, actions, b);
      EncoderSendsParity(rs, ItemsOf(hs[n].flushed[b].batch), hs[n].flushed[b], j);
      Numbering.FlushedBatchIsItsGroup(hs, actions, n, n, c);
      assert Numbering.InGroup(hs[n].flushed[b], f.dest, f.groupId);
    }
  }

  // ---------- where the frames of a flush go ----------

  /** When the packets for a destination share their source, so do all frames of its flushes, originals
      and parity alike: they carry both ends and the FEC flag, and the decoder puts them into one group. */
  lemma FrameEnds(rs: RsCode, hs: seq<Numbering.History>, actions: seq<Numbering.Action>, c: nat, src: Ip, fr: Frame)
    requires Numbering.Run(hs, actions) && AllPackets(actions) && c < |hs[|actions|].flushed|
    requires Numbering.AllFrom(actions, hs[|actions|].flushed[c].dest, src)
    requires var f := hs[|actions|].flushed[c]; Emitted(rs, hs, actions, f.dest, fr) && fr.body.groupId == f.groupId
    ensures hs[|actions|].flushed[c].src == src
    ensures fr.head.src == src && fr.head.dest == hs[|actions|].flushed[c].dest && Has(fr.head.flagsByte, FEC)
    ensures fr.body.index <= MAX_NUM
    ensures forall e: Event :: Carries(e, fr) ==> For(e, Key(src, hs[|actions|].flushed[c].groupId))
  {
    var n := |actions|;
    var f := hs[n].flushed[c];
    assert |hs| == n + 1;
    hide AllPackets, Numbering.Run, Numbering.AllFrom, OfBatch, Batch, EmitsParity, EmitsOriginal, Has;
    Numbering.FlushedFrom(hs, actions, f.dest, src, n);
    FrameOfBatch(rs, hs, actions, c, fr);
    FlushIsBatch(hs, actions, c);
    BatchIndex(rs, ItemsOf(f.batch), fr.head, fr.body);
    if i: nat, p :| EmitsOriginal(hs, actions, i, p, fr) && p.head.dest == f.dest {
      SourceOf(actions, f.dest, src, i);
      OriginalEnds(hs, actions, i, p, fr);
    } else {
      var b: nat, j: nat :| EmitsParity(rs, hs[n], b, j, fr) && hs[n].flushed[b].dest == f.dest;
      ParityEnds(rs, hs[n], b, j, fr);
    }
  }

  lemma OriginalEnds(hs: seq<Numbering.History>, actions: seq<Numbering.Action>, i: nat, p: Packet, fr: Frame)
    requires EmitsOriginal(hs, actions, i, p, fr)
    ensures actions[i].AddPacket? && actions[i].src == fr.head.src && actions[i].dest == fr.head.dest == p.head.dest
    ensures Has(fr.head.flagsByte, FEC)
  {
    FlagBits(p.head.flagsByte, FEC, true, FEC);
  }

  lemma ParityEnds(rs: RsCode, h: Numbering.History, c: nat, j: nat, fr: Frame)
    requires EmitsParity(rs, h, c, j, fr)
    ensures var f := h.flushed[c]; fr.head.src == f.src && fr.head.dest == f.dest && Has(fr.head.flagsByte, FEC)
  {
    Encoder.ParityHeads(rs, h.flushed[c]);
  }

  lemma SourceOf(actions: seq<Numbering.Action>, dest: Ip, src: Ip, i: nat)
    requires Numbering.AllFrom(actions, dest, src) && i < |actions|
    ensures actions[i].AddPacket? && actions[i].dest == dest ==> actions[i].src == src
  {
  }

  lemma BatchIndex(rs: RsCode, items: seq<Fields>, head: Header, f: FecPacket)
    requires Batch(items) && OfBatch(rs, items, head, f)
    ensures f.index <= MAX_NUM
  {
    hide ParityOf;
  }

  // ---------- the session ----------

  /** An encoder whose packets for the destination of flush `c` come from `src`, and a decoder whose
      traffic from `src` under the group number of that flush consists of frames the encoder emitted for
      that destination, with repeats and in any order; all other traffic is arbitrary. */
  ghost predicate Session(rs: RsCode, hs: seq<Numbering.History>, actions: seq<Numbering.Action>, c: nat, src: Ip,
                          ss: seq<State>, es: seq<Event>, os: seq<Outcome>) {
    && Numbering.Run(hs, actions) && AllPackets(actions) && c < |hs[|actions|].flushed|
    && Numbering.AllFrom(actions, hs[|actions|].flushed[c].dest, src)
    && var key := Key(src, hs[|actions|].flushed[c].groupId);
    && Run(rs, ss, es, os) && Survives(ss, es, key)
    && forall i {:trigger es[i]} :: 0 <= i < |es| && For(es[i], key) ==>
         exists fr :: Emitted(rs, hs, actions, hs[|actions|].flushed[c].dest, fr) && Carries(es[i], fr)
  }

  /** Frames of flush `c` with these indices arrived, whatever the decoder made of them. */
  ghost predicate Arrived(rs: RsCode, hs: seq<Numbering.History>, actions: seq<Numbering.Action>, c: nat,
                          es: seq<Event>, got: set<nat>)
    requires |hs| == |actions| + 1 && c < |hs[|actions|].flushed|
  {
    forall x :: x in got ==> ArrivedAt(rs, hs, actions, hs[|actions|].flushed[c], es, x)
  }

  ghost predicate ArrivedAt(rs: RsCode, hs: seq<Numbering.History>, actions: seq<Numbering.Action>, f: Encoder.Flush,
                            es: seq<Event>, x: nat)
    requires |hs| == |actions| + 1
  {
    exists i: nat, fr ::
      && i < |es| && Carries(es[i], fr)
      && Emitted(rs, hs, actions, f.dest, fr) && fr.body.groupId == f.groupId && fr.body.index == x
  }

  /** Delivered under its index with its type, its payload and both its ends. */
  predicate DeliveredAs(log: seq<Delivery>, index: nat, p: Packet) {
    exists j :: 0 <= j < |log| && log[j].index == index && IsDelivered(log[j].packet, p)
  }

  predicate IsDelivered(q: Packet, p: Packet) {
    && q.payload == p.payload && q.head.typeByte == p.head.typeByte
    && q.head.src == p.head.src && q.head.dest == p.head.dest
  }

  /** Encoder to decoder: if as many distinct frames of a flushed group arrive as the group has packets,
      while the group lives, and the originals among them are full length, then every packet the encoder
      numbered into the group is delivered with its type, payload and ends, and no index twice. */
  lemma SentIsRecovered(rs: RsCode, hs: seq<Numbering.History>, actions: seq<Numbering.Action>, c: nat, src: Ip,
                        ss: seq<State>, es: seq<Event>, os: seq<Outcome>, got: set<nat>)
    requires Session(rs, hs, actions, c, src, ss, es, os)
    requires Arrived(rs, hs, actions, c, es, got)
    requires var f := hs[|actions|].flushed[c];
      var items := ItemsOf(f.batch);
      && Mds(rs, |items|, Parities(items)) && Solver(rs, |items|, Parities(items))
      && FullLength(items, Seen(es, Key(src, f.groupId))) && |got| >= |f.batch|
    ensures var f := hs[|actions|].flushed[c];
      var log := Log(es, os, Key(src, f.groupId));
      && DistinctSlots(log)
      && forall i: nat, p, fr ::
           EmitsOriginal(hs, actions, i, p, fr) && p.head.dest == f.dest && fr.body.groupId == f.groupId
           ==> DeliveredAs(log, fr.body.index, p)
  {
    var f := hs[|actions|].flushed[c];
    var key := Key(src, f.groupId);
    var items, log := ItemsOf(f.batch), Log(es, os, key);
    FlushIsBatch(hs, actions, c);
    SessionIsBatchRun(rs, hs, actions, c, src, ss, es, os);
    ArrivedIsSeen(rs, hs, actions, c, src, es, got);
    SubsetSize(got, Seen(es, key));
    Recovers(rs, items, key, ss, es, os);
    LogEnds(rs, hs, actions, c, src, ss, es, os);
    hide Session, Arrived, Mds, Solver, FullLength, BatchRun;
    forall i: nat, p, fr |
      EmitsOriginal(hs, actions, i, p, fr) && p.head.dest == f.dest && fr.body.groupId == f.groupId
      ensures DeliveredAs(log, fr.body.index, p)
    {
      OriginalOfBatch(hs, actions, c, i, p, fr);
      assert actions[i].src == src;
      assert Fills(log, fr.body.index);
      var j :| 0 <= j < |log| && log[j].index == fr.body.index;
      assert Exact(items, log[j]);
      assert log[j] in log;
    }
  }

  lemma SessionIsBatchRun(rs: RsCode, hs: seq<Numbering.History>, actions: seq<Numbering.Action>, c: nat, src: Ip,
                          ss: seq<State>, es: seq<Event>, os: seq<Outcome>)
    requires Session(rs, hs, actions, c, src, ss, es, os)
    ensures var f := hs[|actions|].flushed[c]; BatchRun(rs, ItemsOf(f.batch), Key(src, f.groupId), ss, es, os)
  {
    hide Survives, AllPackets, Emitted, Receives, Numbering.Step, Numbering.AllFrom;
    var f := hs[|actions|].flushed[c];
    forall i {:trigger es[i]} | 0 <= i < |es| && For(es[i], Key(src, f.groupId))
      ensures OfBatch(rs, ItemsOf(f.batch), es[i].head, es[i].body.value)
    {
      var fr :| Emitted(rs, hs, actions, f.dest, fr) && Carries(es[i], fr);
      FrameOfBatch(rs, hs, actions, c, fr);
    }
  }

  lemma {:induction false} SeenHas(es: seq<Event>, key: Key, i: nat)
    requires i < |es| && For(es[i], key)
    ensures es[i].body.value.index in Seen(es, key)
  {
    if i < |es| - 1 {
      SeenHas(es[..|es| - 1], key, i);
    }
  }

  /** The frames that arrived are shards the decoder has seen in the group of the flush. */
  lemma ArrivedIsSeen(rs: RsCode, hs: seq<Numbering.History>, actions: seq<Numbering.Action>, c: nat, src: Ip,
                      es: seq<Event>, got: set<nat>)
    requires Numbering.Run(hs, actions) && AllPackets(actions) && c < |hs[|actions|].flushed|
    requires Numbering.AllFrom(actions, hs[|actions|].flushed[c].dest, src) && Arrived(rs, hs, actions, c, es, got)
    ensures got <= Seen(es, Key(src, hs[|actions|].flushed[c].groupId))
  {
    var f := hs[|actions|].flushed[c];
    var key := Key(src, f.groupId);
    hide AllPackets, Emitted, For, Seen, Numbering.Run, Numbering.AllFrom;
    forall x | x in got ensures x in Seen(es, key) {
      assert ArrivedAt(rs, hs, actions, f, es, x);
      var i: nat, fr :|
        && i < |es| && Carries(es[i], fr)
        && Emitted(rs, hs, actions, f.dest, fr) && fr.body.groupId == f.groupId && fr.body.index == x;
      FrameEnds(rs, hs, actions, c, src, fr);
      SeenHas(es, key, i);
    }
  }

  /** Every packet delivered for the group goes between the ends of the flush, with the FEC flag off. */
  lemma LogEnds(rs: RsCode, hs: seq<Numbering.History>, actions: seq<Numbering.Action>, c: nat, src: Ip,
                ss: seq<State>, es: seq<Event>, os: seq<Outcome>)
    requires Session(rs, hs, actions, c, src, ss, es, os)
    ensures var f := hs[|actions|].flushed[c];
      forall d :: d in Log(es, os, Key(src, f.groupId)) ==>
        d.packet.head.src == src && d.packet.head.dest == f.dest && !Has(d.packet.head.flagsByte, FEC)
  {
    var f := hs[|actions|].flushed[c];
    var key := Key(src, f.groupId);
    assert Run(rs, ss, es, os);
    hide Survives, AllPackets, Emitted, Receives, Numbering.Step, Numbering.AllFrom, Log;
    forall i {:trigger es[i]} | 0 <= i < |es| && For(es[i], key) ensures es[i].head.dest == f.dest {
      var fr :| Emitted(rs, hs, actions, f.dest, fr) && Carries(es[i], fr);
      FrameEnds(rs, hs, actions, c, src, fr);
    }
    LoggedEnds(rs, ss, es, os, key, f.dest, |es|);
    assert es[..|es|] == es && os[..|es|] == os;
  }
}
