/** The sending half of FEC: packets are numbered into per-destination batches that are flushed when
    full or when a timer finds them due; each flushed batch is sent its parity. */
module FecEncoder {
  import opened Basics
  import opened ErasureCode
  import opened FecMessage
  import opened FecShard
  import opened NetPacket

  const BATCH_SIZE: nat := 10
  const BATCH_TIMEOUT_MS: nat := 20
  const BATCH_CHANNEL_SIZE: nat := 1024
  const MIN_PARITY: nat := 1

  datatype BatchState = BatchState(groupId: nat, batch: seq<Shard>, deadline: nat, src: Ip)

  datatype Flush = Flush(src: Ip, dest: Ip, groupId: nat, batch: seq<Shard>)

  type States = map<Ip, BatchState>

  // ---------- numbering ----------

  function StateOf(states: States, src: Ip, dest: Ip, now: nat): BatchState {
    if dest in states then states[dest] else BatchState(0, [], now + BATCH_TIMEOUT_MS, src)
  }

  function Flushed(s: BatchState, now: nat): BatchState {
    s.(groupId := s.groupId + 1, batch := [], deadline := now + BATCH_TIMEOUT_MS)
  }

  predicate Fills(s: BatchState) {
    |s.batch| + 1 >= BATCH_SIZE
  }

  function Added(states: States, src: Ip, dest: Ip, shard: Shard, now: nat): States {
    var s := StateOf(states, src, dest, now);
    var t := s.(batch := s.batch + [shard]);
    states[dest := if Fills(s) then Flushed(t, now) else t]
  }

  /** The flush that adding this shard causes, if any; its source is that of the last packet. */
  function AddFlush(states: States, src: Ip, dest: Ip, shard: Shard, now: nat): seq<Flush> {
    var s := StateOf(states, src, dest, now);
    if Fills(s) then [Flush(src, dest, s.groupId, s.batch + [shard])] else []
  }

  predicate Due(s: BatchState, now: nat) {
    s.batch != [] && now >= s.deadline
  }

  function Ticked(states: States, now: nat): States {
    map d | d in states :: AfterTick(states[d], now)
  }

  function AfterTick(s: BatchState, now: nat): BatchState {
    if Due(s, now) then Flushed(s, now) else s
  }

  function FlushOf(states: States, dest: Ip): Flush
    requires dest in states
  {
    Flush(states[dest].src, dest, states[dest].groupId, states[dest].batch)
  }

  /** The flushes of a tick that visits the destinations in this order. */
  function DueFlushes(states: States, order: seq<Ip>, now: nat): seq<Flush>
    requires forall d :: d in order ==> d in states
  {
    if order == [] then []
    else
      var d := order[|order| - 1];
      DueFlushes(states, order[..|order| - 1], now) + if Due(states[d], now) then [FlushOf(states, d)] else []
  }

  predicate DistinctDests(fs: seq<Flush>) {
    forall i, j :: 0 <= i < j < |fs| ==> fs[i].dest != fs[j].dest
  }

  /** A tick flushes each due destination, nothing else, and none twice. */
  lemma {:induction false} DueFlushesOnce(states: States, order: seq<Ip>, now: nat)
    requires forall d :: d in order ==> d in states
    requires forall i, j :: 0 <= i < j < |order| ==> order[i] != order[j]
    ensures forall f :: f in DueFlushes(states, order, now) ==>
      f.dest in order && Due(states[f.dest], now) && f == FlushOf(states, f.dest)
    ensures forall d :: d in order && Due(states[d], now) ==> FlushOf(states, d) in DueFlushes(states, order, now)
    ensures DistinctDests(DueFlushes(states, order, now))
  {
    if order != [] {
      var front, d := order[..|order| - 1], order[|order| - 1];
      DueFlushesOnce(states, front, now);
      assert order == front + [d] && d !in front;
      var prev, fs := DueFlushes(states, front, now), DueFlushes(states, order, now);
      if Due(states[d], now) {
        assert fs == prev + [FlushOf(states, d)];
        forall i, j | 0 <= i < j < |fs| ensures fs[i].dest != fs[j].dest {
          assert fs[i] == prev[i] && prev[i] in prev;
          if j < |prev| {
            assert fs[j] == prev[j];
          }
        }
      } else {
        assert fs == prev;
      }
    }
  }

  /** The states after a tick has visited these destinations. */
  function Visited(states: States, order: seq<Ip>, now: nat): (t: States)
    requires forall d :: d in order ==> d in states
    ensures t.Keys == states.Keys
    ensures forall d :: d in states ==> t[d] == if d in order then AfterTick(states[d], now) else states[d]
  {
    if order == [] then states
    else
      var front, d := order[..|order| - 1], order[|order| - 1];
      assert order == front + [d];
      Visited(states, front, now)[d := AfterTick(states[d], now)]
  }

  lemma VisitedNext(states: States, order: seq<Ip>, i: nat, now: nat)
    requires forall d :: d in order ==> d in states
    requires forall i, j :: 0 <= i < j < |order| ==> order[i] != order[j]
    requires i < |order|
    ensures Visited(states, order[..i], now)[order[i]] == states[order[i]]
    ensures Visited(states, order[..i + 1], now)
      == Visited(states, order[..i], now)[order[i] := AfterTick(states[order[i]], now)]
    ensures DueFlushes(states, order[..i + 1], now)
         == DueFlushes(states, order[..i], now) + if Due(states[order[i]], now) then [FlushOf(states, order[i])] else []
  {
    assert order[..i + 1][..i] == order[..i];
    assert order[i] !in order[..i];
  }

  // ---------- parity ----------

  /** A fifth of the data shards, rounded up, and at least one. */
  function ParityCount(k: nat): nat {
    Max((k + 4) / 5, MIN_PARITY)
  }

  function Longest(items: seq<Shard>): nat {
    if items == [] then 0 else Max(Longest(items[..|items| - 1]), |items[|items| - 1]|)
  }

  lemma {:induction false} LongestBounds(items: seq<Shard>)
    ensures forall i :: 0 <= i < |items| ==> |items[i]| <= Longest(items)
    ensures items != [] ==> exists i :: 0 <= i < |items| && |items[i]| == Longest(items)
  {
    if items != [] {
      var front, n := items[..|items| - 1], |items| - 1;
      LongestBounds(front);
      if Longest(front) > |items[n]| {
        var i :| 0 <= i < |front| && |front[i]| == Longest(front);
        assert |items[i]| == Longest(items);
      } else {
        assert |items[n]| == Longest(items);
      }
      forall i | 0 <= i < |items| ensures |items[i]| <= Longest(items) {
        if i < n {
          assert |front[i]| <= Longest(front);
        }
      }
    }
  }

  /** The shards as they are coded: every one as long as the longest. */
  function Padded(items: seq<Shard>): (p: seq<Shard>)
    ensures |p| == |items|
    ensures forall i :: 0 <= i < |items| ==> |p[i]| == Longest(items)
  {
    LongestBounds(items);
    seq(|items|, i requires 0 <= i < |items| => PadTo(items[i], Longest(items)))
  }

  function ParityFrame(rs: RsCode, f: Flush, j: nat): Frame {
    var k, m := |f.batch|, ParityCount(|f.batch|);
    var shard := ParityShard(rs, Padded(f.batch), m, Longest(f.batch), j);
    var head := SetTtl(SetMsgType(EMPTY_HEADER, Turn).(src := f.src, dest := f.dest), 5);
    Frame(SetFlag(head, FEC, true), FecPacket(f.groupId, k + j, shard, Some(ParityData(k, m))))
  }

  function ParityFrames(rs: RsCode, f: Flush): seq<Frame> {
    if f.batch == [] || Longest(f.batch) == 0 then []
    else seq(ParityCount(|f.batch|), (j: nat) => ParityFrame(rs, f, j))
  }

  method LongestOf(items: seq<Shard>) returns (maxLen: nat)
    ensures maxLen == Longest(items)
  {
    maxLen := 0;
    for i := 0 to |items|
      invariant maxLen == Longest(items[..i])
    {
      assert items[..i + 1][..i] == items[..i];
      if |items[i]| > maxLen {
        maxLen := |items[i]|;
      }
    }
    assert items[..|items|] == items;
  }

  method PadAll(batch: seq<Shard>, maxLen: nat) returns (items: seq<Shard>)
    requires maxLen == Longest(batch)
    ensures items == Padded(batch)
  {
    LongestBounds(batch);
    items := batch;
    for i := 0 to |batch|
      invariant |items| == |batch|
      invariant forall c :: 0 <= c < i ==> items[c] == Padded(batch)[c]
      invariant forall c :: i <= c < |batch| ==> items[c] == batch[c]
    {
      if |items[i]| < maxLen {
        items := items[i := items[i] + Zeros(maxLen - |items[i]|)];
      } else {
        assert items[i] + Zeros(0) == items[i];
      }
    }
  }

  /** What a receiver is told about a flush: each parity packet goes from the source of the flush to its
      destination, as an uncompressed packet of type 1 with both TTL nibbles 5 and the FEC flag; it
      carries the group, the next free index, and how many shards of both kinds there are. */
  predicate TellsFlush(f: Flush, frames: seq<Frame>) {
    forall j :: 0 <= j < |frames| ==>
      && frames[j].head == Header(0x81, 0x55, 0x20, 0, 0, f.src, f.dest)
      && frames[j].body.groupId == f.groupId && frames[j].body.index == |f.batch| + j
      && frames[j].body.parityData == Some(ParityData(|f.batch|, |frames|))
  }

  /** A flush gets a fifth of its packets in parity, rounded up, so at least one; none only if it has
      no bytes at all. */
  predicate FifthOf(f: Flush, frames: seq<Frame>) {
    if forall i :: 0 <= i < |f.batch| ==> f.batch[i] == [] then frames == []
    else 1 <= |frames| && 5 * (|frames| - 1) < |f.batch| <= 5 * |frames|
  }

  lemma ParityHeads(rs: RsCode, f: Flush)
    ensures TellsFlush(f, ParityFrames(rs, f)) && FifthOf(f, ParityFrames(rs, f))
  {
    LongestBounds(f.batch);
  }

  /** Pads the shards in place, appends the parity shards and sends one frame for each. */
  method EncodeAndSendParity(rs: RsCode, f: Flush) returns (sent: seq<Frame>)
    ensures sent == ParityFrames(rs, f)
    ensures TellsFlush(f, sent) && FifthOf(f, sent)
  {
    ParityHeads(rs, f);
    hide TellsFlush, FifthOf;
    sent := [];
    if f.batch == [] {
      return;
    }
    var dataShards := |f.batch|;
    var parityShards := (dataShards + 4) / 5;
    if parityShards < MIN_PARITY {
      parityShards := MIN_PARITY;
    }
    var maxLen := LongestOf(f.batch);
    if maxLen == 0 {
      return;
    }
    var items := PadAll(f.batch, maxLen);
    for j := 0 to parityShards
      invariant |items| == dataShards + j
      invariant items[..dataShards] == Padded(f.batch)
      invariant forall c: nat ::
        c < j ==> items[dataShards + c] == ParityShard(rs, Padded(f.batch), parityShards, maxLen, c)
    {
      items := items + [ParityShard(rs, items[..dataShards], parityShards, maxLen, j)];
    }
    for j := 0 to parityShards
      invariant |sent| == j
      invariant forall c: nat :: c < j ==> sent[c] == ParityFrame(rs, f, c)
    {
      var head := EMPTY_HEADER;
      head := SetMsgType(head, Turn);
      head := head.(src := f.src, dest := f.dest);
      head := SetTtl(head, 5);
      head := SetFlag(head, FEC, true);
      var shards := ParityData(dataShards, parityShards);
      var body := FecPacket(f.groupId, dataShards + j, items[dataShards + j], Some(shards));
      sent := sent + [Frame(head, body)];
    }
  }

  // ---------- the encoder object ----------

  class Encoder {
    var states: States
    /** The bounded channel to the worker. */
    var queue: seq<Flush>

    constructor ()
      ensures states == map[] && queue == []
    {
      states, queue := map[], [];
    }

    /** Adds a packet to its destination's batch and returns it wrapped as an original of the batch. */
    method Encode(packet: Packet, now: nat) returns (r: Result<Frame>)
      modifies this
      ensures r.Ok? <==> |packet.payload| <= 0xFFFF
      ensures r.Err? ==> states == old(states) && queue == old(queue)
      ensures r.Ok? ==>
        var h := packet.head;
        var shard := Pack(Fields(h.typeByte, h.flagsByte, packet.payload));
        var s := StateOf(old(states), h.src, h.dest, now);
        && states == Added(old(states), h.src, h.dest, shard, now)
        && var flush := AddFlush(old(states), h.src, h.dest, shard, now);
        && queue == old(queue) + (if |old(queue)| < BATCH_CHANNEL_SIZE then flush else [])
        && r.value == Frame(SetFlag(h, FEC, true), FecPacket(s.groupId, |s.batch|, packet.payload, None))
    {
      var src, dest := packet.head.src, packet.head.dest;
      if |packet.payload| > 0xFFFF {
        return Err;
      }
      var shard := Pack(Fields(packet.head.typeByte, packet.head.flagsByte, packet.payload));
      if dest !in states {
        states := states[dest := BatchState(0, [], now + BATCH_TIMEOUT_MS, src)];
      }
      var groupId, index := states[dest].groupId, |states[dest].batch|;
      states := states[dest := states[dest].(batch := states[dest].batch + [shard])];
      if |states[dest].batch| >= BATCH_SIZE {
        var batch := states[dest].batch;
        var next := states[dest].(batch := [], groupId := groupId + 1, deadline := now + BATCH_TIMEOUT_MS);
        states := states[dest := next];
        if |queue| < BATCH_CHANNEL_SIZE {
          queue := queue + [Flush(src, dest, groupId, batch)];
        }
      }
      return Ok(Frame(SetFlag(packet.head, FEC, true), FecPacket(groupId, index, packet.payload, None)));
    }

    /** One turn of the worker on a queued batch. */
    method HandleQueued(rs: RsCode) returns (sent: seq<Frame>)
      requires queue != []
      modifies this`queue
      ensures queue == old(queue)[1..]
      ensures sent == ParityFrames(rs, old(queue)[0])
      ensures TellsFlush(old(queue)[0], sent) && FifthOf(old(queue)[0], sent)
    {
      var f := queue[0];
      queue := queue[1..];
      sent := EncodeAndSendParity(rs, f);
    }

    /** The worker's visit to one destination: takes its batch if it is due. */
    method Visit(d: Ip, now: nat) returns (taken: seq<Flush>)
      requires d in states
      modifies this`states
      ensures states == old(states)[d := AfterTick(old(states)[d], now)]
      ensures taken == if Due(old(states)[d], now) then [FlushOf(old(states), d)] else []
    {
      taken := [];
      var s := states[d];
      if s.batch != [] && now >= s.deadline {
        taken := [Flush(s.src, d, s.groupId, s.batch)];
        s := s.(batch := [], groupId := s.groupId + 1, deadline := now + BATCH_TIMEOUT_MS);
      }
      states := states[d := s];
    }

    /** One timer tick of the worker: takes every due batch. */
    method Tick(now: nat) returns (batches: seq<Flush>)
      modifies this`states
      ensures states == Ticked(old(states), now)
      ensures exists order :: Enumerates(order, old(states).Keys) && batches == DueFlushes(old(states), order, now)
    {
      hide Due, AfterTick, DueFlushes, Visited;
      batches := [];
      ghost var before := states;
      var order := IterationOrder(states.Keys);
      NoneVisited(before, order, now);
      for i := 0 to |order|
        invariant states == Visited(before, order[..i], now)
        invariant batches == DueFlushes(before, order[..i], now)
      {
        VisitedNext(before, order, i, now);
        var taken := Visit(order[i], now);
        batches := batches + taken;
      }
      assert order[..|order|] == order;
      AllVisited(before, order, now);
    }
  }

  lemma NoneVisited(states: States, order: seq<Ip>, now: nat)
    ensures Visited(states, order[..0], now) == states && DueFlushes(states, order[..0], now) == []
  {
  }

  lemma AllVisited(states: States, order: seq<Ip>, now: nat)
    requires forall d :: d in order <==> d in states
    ensures Visited(states, order, now) == Ticked(states, now)
  {
    hide AfterTick;
  }
}
