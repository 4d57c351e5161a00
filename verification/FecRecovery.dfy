/** What FEC is for: a batch survives the loss of as many packets as it has parity, for every code
    that meets the MDS hypothesis. */
module FecRecovery {
  import opened Basics
  import opened ErasureCode
  import opened FecMessage
  import opened FecShard
  import opened NetPacket
  import opened FecDecoder
  import opened FecDelivery
  import Encoder = FecEncoder

  // ---------- a batch as it was sent ----------

  /** The originals of one flushed batch: what the encoder recorded of each packet. */
  ghost predicate Batch(items: seq<Fields>) {
    && 1 <= |items| <= Encoder.BATCH_SIZE
    && forall i :: 0 <= i < |items| ==> |items[i].payload| <= 0xFFFF
  }

  function Parities(items: seq<Fields>): nat {
    Encoder.ParityCount(|items|)
  }

  function PackedShards(items: seq<Fields>): (s: seq<Shard>)
    ensures |s| == |items|
  {
    seq(|items|, i requires 0 <= i < |items| => Pack(items[i]))
  }

  function Longest(items: seq<Fields>): nat {
    Encoder.Longest(PackedShards(items))
  }

  function PaddedShards(items: seq<Fields>): (p: seq<Shard>)
    ensures |p| == |items|
    ensures forall i :: 0 <= i < |p| ==> |p[i]| == Longest(items)
  {
    Encoder.Padded(PackedShards(items))
  }

  function ParityOf(rs: RsCode, items: seq<Fields>, j: nat): Shard {
    ParityShard(rs, PaddedShards(items), Parities(items), Longest(items), j)
  }

  /** An original of the batch carries its index, type and payload; its flags may be anything. */
  predicate IsOriginal(items: seq<Fields>, head: Header, f: FecPacket) {
    f.parityData.None? && f.index < |items|
    && head.typeByte == items[f.index].typeByte && f.payload == items[f.index].payload
  }

  predicate IsParity(rs: RsCode, items: seq<Fields>, f: FecPacket) {
    && f.parityData == Some(ParityData(|items|, Parities(items)))
    && |items| <= f.index < |items| + Parities(items)
    && f.payload == ParityOf(rs, items, f.index - |items|)
  }

  predicate OfBatch(rs: RsCode, items: seq<Fields>, head: Header, f: FecPacket) {
    IsOriginal(items, head, f) || IsParity(rs, items, f)
  }

  /** The parity frames the encoder sends for this batch are parity packets of it. */
  lemma EncoderSendsParity(rs: RsCode, items: seq<Fields>, f: Encoder.Flush, j: nat)
    requires Batch(items) && f.batch == PackedShards(items) && j < Parities(items)
    ensures |Encoder.ParityFrames(rs, f)| == Parities(items)
    ensures IsParity(rs, items, Encoder.ParityFrames(rs, f)[j].body)
  {
    LongestAtLeast(items, 0);
  }

  lemma LongestAtLeast(items: seq<Fields>, i: nat)
    requires i < |items|
    ensures Longest(items) >= 4 + |items[i].payload|
  {
    Encoder.LongestBounds(PackedShards(items));
    assert |PackedShards(items)[i]| <= Longest(items);
  }

  // ---------- what has been delivered ----------

  predicate Exact(items: seq<Fields>, d: Delivery) {
    d.index < |items| && d.packet.head.typeByte == items[d.index].typeByte && d.packet.payload == items[d.index].payload
  }

  ghost predicate AllExact(items: seq<Fields>, log: seq<Delivery>) {
    forall j :: 0 <= j < |log| ==> Exact(items, log[j])
  }

  ghost predicate Complete(items: seq<Fields>, log: seq<Delivery>) {
    forall i: nat :: i < |items| ==> Fills(log, i)
  }

  // ---------- the group while shards come in ----------

  /** A stored shard, as the decoder keeps it: an original unpadded, with the flags it arrived with. */
  ghost predicate ShardOk(rs: RsCode, items: seq<Fields>, i: nat, s: Shard) {
    if i < |items| then exists flags: byte :: s == Pack(items[i].(flagsByte := flags))
    else i < |items| + Parities(items) && s == ParityOf(rs, items, i - |items|)
  }

  ghost predicate Live(rs: RsCode, items: seq<Fields>, g: FecGroup, seen: set<nat>, log: seq<Delivery>) {
    var k, m := |items|, Parities(items);
    && StoredOk(rs, items, g, seen)
    && !Done(g)
    && (forall i: nat :: Fills(log, i) ==> i in seen && i < k)
  }

  /** Originals that were stored have been delivered. */
  ghost predicate Handed(items: seq<Fields>, seen: set<nat>, log: seq<Delivery>) {
    forall i :: i in seen && i < |items| ==> Fills(log, i)
  }

  lemma FillsAppend(log: seq<Delivery>, more: seq<Delivery>, i: nat)
    ensures Fills(log + more, i) <==> Fills(log, i) || Fills(more, i)
  {
    if Fills(log, i) {
      var j :| 0 <= j < |log| && log[j].index == i;
      assert (log + more)[j].index == i;
    }
    if Fills(more, i) {
      var j :| 0 <= j < |more| && more[j].index == i;
      assert (log + more)[|log| + j].index == i;
    }
  }

  /** The group with the new shard stored, before any decoding. */
  function Stored(g: FecGroup, head: Header, f: FecPacket, now: nat): FecGroup
    requires Accepts(g, f)
  {
    if f.parityData.Some? then StoredParity(g, f, f.parityData.value, now) else StoredOriginal(g, head, f, now)
  }

  function DirectOf(head: Header, f: FecPacket): seq<Delivery> {
    if f.parityData.Some? then [] else [Delivery(f.index, Direct(head, f.payload))]
  }

  /** The numbers a group has after shards of the batch in the slots `seen`. */
  ghost predicate CountsOk(items: seq<Fields>, s: FecGroup, seen: set<nat>) {
    var k, m := |items|, Parities(items);
    && (if s.data == 0 then s.parity == 0 && |s.shards| <= k
        else s.data == k && s.parity == m && |s.shards| == k + m && exists p :: p in seen && p >= k)
    && s.count == |seen * Below(k)|
  }

  /** Its slots hold what was sent. */
  ghost predicate SlotsOk(rs: RsCode, items: seq<Fields>, s: FecGroup, seen: set<nat>) {
    && (forall i: nat :: HasShard(s, i) <==> i in seen)
    && (forall i: nat :: HasShard(s, i) ==> ShardOk(rs, items, i, s.shards[i].value))
  }

  ghost predicate StoredOk(rs: RsCode, items: seq<Fields>, s: FecGroup, seen: set<nat>) {
    CountsOk(items, s, seen) && SlotsOk(rs, items, s, seen)
  }

  lemma StoredSlots(g: FecGroup, head: Header, f: FecPacket, now: nat, i: nat)
    requires Accepts(g, f)
    ensures HasShard(Stored(g, head, f, now), i) <==> HasShard(g, i) || i == f.index
    ensures HasShard(g, i) ==> Stored(g, head, f, now).shards[i] == g.shards[i]
  {
  }

  lemma StoreOk(rs: RsCode, items: seq<Fields>, g: FecGroup, seen: set<nat>, head: Header, f: FecPacket, now: nat)
    requires Batch(items) && StoredOk(rs, items, g, seen) && OfBatch(rs, items, head, f) && Accepts(g, f)
    requires f.index !in seen
    ensures StoredOk(rs, items, Stored(g, head, f, now), seen + {f.index})
  {
    StoreSlots(rs, items, g, seen, head, f, now);
    StoreCounts(items, g, seen, head, f, now, Parities(items));
  }

  lemma StoreSlots(rs: RsCode, items: seq<Fields>, g: FecGroup, seen: set<nat>, head: Header, f: FecPacket, now: nat)
    requires SlotsOk(rs, items, g, seen) && OfBatch(rs, items, head, f) && Accepts(g, f)
    ensures SlotsOk(rs, items, Stored(g, head, f, now), seen + {f.index})
  {
    var s := Stored(g, head, f, now);
    forall i: nat
      ensures HasShard(s, i) <==> i in seen + {f.index}
      ensures HasShard(s, i) ==> ShardOk(rs, items, i, s.shards[i].value)
    {
      StoredSlots(g, head, f, now, i);
      if i == f.index {
        NewShardOk(rs, items, g, head, f, now);
      }
    }
  }

  lemma NewShardOk(rs: RsCode, items: seq<Fields>, g: FecGroup, head: Header, f: FecPacket, now: nat)
    requires OfBatch(rs, items, head, f) && Accepts(g, f)
    ensures ShardOk(rs, items, f.index, Stored(g, head, f, now).shards[f.index].value)
  {
    if f.parityData.None? {
      assert Stored(g, head, f, now).shards[f.index].value == Pack(items[f.index].(flagsByte := head.flagsByte));
    }
  }

  lemma OriginalsAdd(seen: set<nat>, i: nat, k: nat)
    requires i !in seen
    ensures |(seen + {i}) * Below(k)| == |seen * Below(k)| + if i < k then 1 else 0
  {
    if i < k {
      assert (seen + {i}) * Below(k) == seen * Below(k) + {i};
    } else {
      assert (seen + {i}) * Below(k) == seen * Below(k);
    }
  }

  lemma StoreCounts(items: seq<Fields>, g: FecGroup, seen: set<nat>, head: Header, f: FecPacket, now: nat, m: nat)
    requires CountsOk(items, g, seen) && Accepts(g, f) && m == Parities(items)
    requires if f.parityData.None? then f.index < |items|
             else f.parityData == Some(ParityData(|items|, m)) && |items| <= f.index < |items| + m
    requires items != [] && f.index !in seen
    ensures CountsOk(items, Stored(g, head, f, now), seen + {f.index})
  {
    var all, k := seen + {f.index}, |items|;
    OriginalsAdd(seen, f.index, k);
    if f.parityData.Some? {
      assert f.index in all && f.index >= k;
    } else if g.data != 0 {
      var p :| p in seen && p >= k;
      assert p in all;
    }
  }

  lemma SeenIsPresent(rs: RsCode, items: seq<Fields>, s: FecGroup, seen: set<nat>)
    requires StoredOk(rs, items, s, seen)
    ensures Count(s.shards) == |seen|
  {
    CountIsPresent(s.shards);
    forall i: nat ensures i in Present(s.shards) <==> i in seen {
      assert i in Present(s.shards) <==> HasShard(s, i);
    }
    assert Present(s.shards) == seen;
  }

  lemma AllBelow(seen: set<nat>, k: nat)
    ensures |seen * Below(k)| == k <==> forall i: nat :: i < k ==> i in seen
  {
    SubsetSize(seen * Below(k), Below(k));
    if |seen * Below(k)| == k {
      assert seen * Below(k) == Below(k);
      forall i: nat | i < k ensures i in seen {
        assert i in seen * Below(k);
      }
    }
    if forall i: nat :: i < k ==> i in seen {
      assert seen * Below(k) == Below(k);
    }
  }

  // ---------- reconstruction ----------

  predicate Full(items: seq<Fields>, i: nat)
    requires i < |items|
  {
    4 + |items[i].payload| == Longest(items)
  }

  lemma SameButFlags(s: Shard, t: Shard)
    requires |s| == |t| && forall c :: 0 <= c < |s| && c != 1 ==> s[c] == t[c]
    requires Unpack(t).Ok?
    ensures Unpack(s) == Ok(Unpack(t).value.(flagsByte := s[1]))
  {
    var n := t[2] as nat * 0x100 + t[3] as nat;
    assert s[4..4 + n] == t[4..4 + n];
  }

  lemma OriginalByte(rs: RsCode, items: seq<Fields>, i: nat, s: Shard, c: nat)
    requires i < |items| && ShardOk(rs, items, i, s) && |s| == Longest(items)
    requires c < Longest(items) && c != 1
    ensures s[c] == PaddedShards(items)[i][c]
  {
    var flags: byte :| s == Pack(items[i].(flagsByte := flags));
    assert PackedShards(items)[i] == Pack(items[i]);
    assert PaddedShards(items)[i] == Pack(items[i]) + Zeros(0);
  }

  lemma ColumnByte(rs: RsCode, items: seq<Fields>, s: FecGroup, seen: set<nat>, c: nat, i: nat)
    requires Batch(items) && SlotsOk(rs, items, s, seen) && HasShard(s, i) && i < |items| + Parities(items)
    requires Uniform(s.shards, Longest(items)) && c < Longest(items) && c != 1
    ensures s.shards[i].value[c] == Word(rs, |items|, Parities(items), DataColumn(PaddedShards(items), c))[i]
  {
    hide Batch, Pack;
    var shard := s.shards[i].value;
    assert ShardOk(rs, items, i, shard) && |shard| == Longest(items);
    if i < |items| {
      OriginalByte(rs, items, i, shard, c);
    }
  }

  /** In every column but the flags one, the stored shards fit the codeword of the padded batch. */
  lemma ColumnFits(rs: RsCode, items: seq<Fields>, s: FecGroup, seen: set<nat>, c: nat)
    requires Batch(items) && StoredOk(rs, items, s, seen) && s.data != 0
    requires Uniform(s.shards, Longest(items)) && c < Longest(items) && c != 1
    ensures var k, m := |items|, Parities(items);
      Fits(Column(s.shards, c), Word(rs, k, m, DataColumn(PaddedShards(items), c)), k)
  {
    hide SlotsOk, Word, DataColumn, PaddedShards, Batch;
    var k, m, d := |items|, Parities(items), DataColumn(PaddedShards(items), c);
    var col := Column(s.shards, c);
    forall i: nat | i < |col| && Used(col, k, i) ensures col[i].value == Word(rs, k, m, d)[i] {
      assert HasShard(s, i);
      ColumnByte(rs, items, s, seen, c, i);
    }
  }

  lemma SolvedExact(rs: RsCode, items: seq<Fields>, s: FecGroup, seen: set<nat>, i: nat, c: nat)
    requires Batch(items) && StoredOk(rs, items, s, seen) && s.data != 0 && |seen| >= |items|
    requires Mds(rs, |items|, Parities(items)) && Solver(rs, |items|, Parities(items))
    requires Uniform(s.shards, Longest(items)) && c < Longest(items) && c != 1 && i < |items|
    ensures SolvedShard(rs, |items|, Parities(items), s.shards, Longest(items), i)[c] == PaddedShards(items)[i][c]
  {
    var k, m := |items|, Parities(items);
    ColumnFits(rs, items, s, seen, c);
    ColumnCount(s.shards, c);
    SeenIsPresent(rs, items, s, seen);
    SolveExact(rs, k, m, Column(s.shards, c), DataColumn(PaddedShards(items), c));
    assert Solved(rs, k, m, Column(s.shards, c))[i] == rs.solve(k, m, Column(s.shards, c), i);
  }

  lemma RebuiltExact(rs: RsCode, items: seq<Fields>, s: FecGroup, seen: set<nat>, head: Header, i: nat)
    requires Batch(items) && StoredOk(rs, items, s, seen) && s.data != 0 && |seen| >= |items|
    requires Mds(rs, |items|, Parities(items)) && Solver(rs, |items|, Parities(items))
    requires Uniform(s.shards, Longest(items)) && i < |items|
    ensures var p := Rebuilt(head, SolvedShard(rs, |items|, Parities(items), s.shards, Longest(items), i));
      p.Ok? && Exact(items, Delivery(i, p.value))
  {
    var shard := SolvedShard(rs, |items|, Parities(items), s.shards, Longest(items), i);
    LongestAtLeast(items, i);
    forall c: nat | c < |shard| && c != 1 ensures shard[c] == PaddedShards(items)[i][c] {
      SolvedExact(rs, items, s, seen, i, c);
    }
    FramingRoundTrip(items[i], Longest(items));
    SameButFlags(shard, PaddedShards(items)[i]);
  }

  lemma ReconstructsIff(rs: RsCode, items: seq<Fields>, s: FecGroup, seen: set<nat>)
    requires Batch(items) && StoredOk(rs, items, s, seen) && s.data != 0
    ensures Reconstruct(rs, s.data, s.parity, s.shards).Ok? <==> Uniform(s.shards, Longest(items))
    ensures Uniform(s.shards, Longest(items)) ==> FirstLength(s.shards) == Longest(items)
  {
    var p :| p in seen && p >= |items|;
    assert HasShard(s, p) && ShardOk(rs, items, p, s.shards[p].value);
    FirstLengthIsOne(s.shards, p);
    LongestAtLeast(items, 0);
  }

  lemma FillsOne(ds: seq<Delivery>, d: Delivery)
    ensures forall i: nat :: Fills(ds + [d], i) <==> Fills(ds, i) || i == d.index
  {
    forall i: nat ensures Fills(ds + [d], i) <==> Fills(ds, i) || i == d.index {
      FillsAppend(ds, [d], i);
      assert [d][0].index == d.index;
    }
  }

  /** If every missing original rebuilds exactly, the rebuilt packets are those, and all of those. */
  lemma {:induction false} RebuiltAll(items: seq<Fields>, head: Header, before: Shards, full: Shards, n: nat)
    requires n <= |items| <= |before| == |full|
    requires forall i: nat :: i < |full| ==> full[i].Some?
    requires forall i: nat :: i < |items| && before[i].None? ==>
      Rebuilt(head, full[i].value).Ok? && Exact(items, Delivery(i, Rebuilt(head, full[i].value).value))
    ensures RebuiltBelow(head, before, full, n).Ok?
    ensures AllExact(items, RebuiltBelow(head, before, full, n).value)
    ensures forall i: nat :: Fills(RebuiltBelow(head, before, full, n).value, i) <==> i < n && before[i].None?
  {
    if n > 0 {
      RebuiltAll(items, head, before, full, n - 1);
      if before[n - 1].None? {
        var d := Delivery(n - 1, Rebuilt(head, full[n - 1].value).value);
        FillsOne(RebuiltBelow(head, before, full, n - 1).value, d);
      }
    }
  }

  /** Once a group has as many shards as originals and misses some, decoding succeeds exactly when every
      stored shard is as long as the parity; then it rebuilds exactly the missing originals. */
  lemma DecodesIff(rs: RsCode, items: seq<Fields>, s: FecGroup, seen: set<nat>, head: Header)
    requires Batch(items) && StoredOk(rs, items, s, seen) && Enough(s)
    requires Mds(rs, |items|, Parities(items)) && Solver(rs, |items|, Parities(items))
    ensures Uniform(s.shards, Longest(items)) ==>
      var (h, d) := Tried(rs, s, head);
      && h == Finished(s) && d.Decoded? && AllExact(items, d.ds)
      && forall i: nat :: Fills(d.ds, i) <==> i < |items| && i !in seen
    ensures !Uniform(s.shards, Longest(items)) ==> Tried(rs, s, head) == (s, DecodeFailed)
  {
    SeenIsPresent(rs, items, s, seen);
    ReconstructsIff(rs, items, s, seen);
    if Uniform(s.shards, Longest(items)) {
      var full := Reconstruct(rs, s.data, s.parity, s.shards).value;
      forall i: nat | i < |items| && s.shards[i].None?
        ensures Rebuilt(head, full[i].value).Ok? && Exact(items, Delivery(i, Rebuilt(head, full[i].value).value))
      {
        RebuiltExact(rs, items, s, seen, head, i);
      }
      RebuiltAll(items, head, s.shards, full, |items|);
      forall i: nat | i < |items| ensures s.shards[i].None? <==> i !in seen {
        assert HasShard(s, i) <==> i in seen;
      }
    }
  }

  // ---------- one receive ----------

  /** Everything has been delivered and the group is over. */
  ghost predicate Recovered(items: seq<Fields>, g: FecGroup, log: seq<Delivery>) {
    Done(g) && Complete(items, log)
  }

  /** The originals seen have been delivered, and there are too few shards to recover the others. */
  ghost predicate Waiting(rs: RsCode, items: seq<Fields>, g: FecGroup, seen: set<nat>, log: seq<Delivery>) {
    && Live(rs, items, g, seen, log) && Handed(items, seen, log)
    && (g.data != 0 ==> |seen| < |items|)
  }

  /** The originals among `seen` are as long as the longest of the batch. */
  ghost predicate FullLength(items: seq<Fields>, seen: set<nat>) {
    forall i :: i in seen && i < |items| ==> Full(items, i)
  }

  lemma FullIsUniform(rs: RsCode, items: seq<Fields>, s: FecGroup, seen: set<nat>)
    requires SlotsOk(rs, items, s, seen)
    ensures FullLength(items, seen) ==> Uniform(s.shards, Longest(items))
    ensures Uniform(s.shards, Longest(items)) ==> FullLength(items, seen)
  {
    if FullLength(items, seen) {
      forall i: nat | i < |s.shards| && s.shards[i].Some? ensures |s.shards[i].value| == Longest(items) {
        assert HasShard(s, i) && ShardOk(rs, items, i, s.shards[i].value);
      }
    }
    if Uniform(s.shards, Longest(items)) {
      forall i | i in seen && i < |items| ensures Full(items, i) {
        assert HasShard(s, i) && ShardOk(rs, items, i, s.shards[i].value);
      }
    }
  }

  /** A new shard of the batch is always stored; what follows depends on the group it lands in. */
  lemma NewShard(rs: RsCode, items: seq<Fields>, g: FecGroup, seen: set<nat>, head: Header, f: FecPacket, now: nat)
    requires Batch(items) && StoredOk(rs, items, g, seen) && !Done(g) && OfBatch(rs, items, head, f) && f.index !in seen
    ensures Accepts(g, f)
    ensures StoredOk(rs, items, Stored(g, head, f, now), seen + {f.index})
    ensures GroupReceive(rs, g, head, f, now) == Settled(rs, Stored(g, head, f, now), head, DirectOf(head, f))
  {
    assert !HasShard(g, f.index);
    StoreOk(rs, items, g, seen, head, f, now);
  }

  lemma DirectExact(rs: RsCode, items: seq<Fields>, head: Header, f: FecPacket)
    requires OfBatch(rs, items, head, f)
    ensures AllExact(items, DirectOf(head, f))
    ensures forall i: nat :: Fills(DirectOf(head, f), i) <==> i == f.index && i < |items|
  {
    if f.parityData.None? {
      assert DirectOf(head, f)[0].index == f.index;
    }
  }

  lemma HandedNext(items: seq<Fields>, seen: set<nat>, log: seq<Delivery>, more: seq<Delivery>, index: nat)
    requires Handed(items, seen, log)
    requires index < |items| ==> Fills(more, index)
    ensures Handed(items, seen + {index}, log + more)
  {
    forall i | i in seen + {index} && i < |items| ensures Fills(log + more, i) {
      FillsAppend(log, more, i);
    }
  }

  lemma AllSeenComplete(items: seq<Fields>, seen: set<nat>, log: seq<Delivery>)
    requires Handed(items, seen, log) && |seen * Below(|items|)| == |items|
    ensures Complete(items, log)
  {
    AllBelow(seen, |items|);
  }

  lemma ReceiveNew(rs: RsCode, items: seq<Fields>, g: FecGroup, seen: set<nat>, log: seq<Delivery>, head: Header,
                   f: FecPacket, now: nat)
    requires Batch(items) && OfBatch(rs, items, head, f) && AllExact(items, log)
    requires Mds(rs, |items|, Parities(items)) && Solver(rs, |items|, Parities(items))
    requires Waiting(rs, items, g, seen, log) && f.index !in seen
    requires FullLength(items, seen + {f.index})
    ensures var (h, o) := GroupReceive(rs, g, head, f, now);
      && AllExact(items, Of(o))
      && (Recovered(items, h, log + Of(o)) || Waiting(rs, items, h, seen + {f.index}, log + Of(o)))
  {
    NewShard(rs, items, g, seen, head, f, now);
    var s, all, direct := Stored(g, head, f, now), seen + {f.index}, DirectOf(head, f);
    DirectExact(rs, items, head, f);
    HandedNext(items, seen, log, direct, f.index);
    SettledShard(rs, items, s, all, log, head, f);
    forall i: nat ensures Fills(log + direct, i) ==> i in all && i < |items| {
      FillsAppend(log, direct, i);
    }
  }

  /** One receive of a shard of the batch: if what has been seen is of full length, the group is still
      waiting for shards or everything is delivered. */
  lemma ReceiveShard(rs: RsCode, items: seq<Fields>, g: FecGroup, seen: set<nat>, log: seq<Delivery>, head: Header,
                     f: FecPacket, now: nat)
    requires Batch(items) && OfBatch(rs, items, head, f) && AllExact(items, log)
    requires Mds(rs, |items|, Parities(items)) && Solver(rs, |items|, Parities(items))
    requires Recovered(items, g, log) || Waiting(rs, items, g, seen, log)
    requires FullLength(items, seen + {f.index})
    ensures var (h, o) := GroupReceive(rs, g, head, f, now);
      && AllExact(items, log + Of(o))
      && (Recovered(items, h, log + Of(o)) || Waiting(rs, items, h, seen + {f.index}, log + Of(o)))
  {
    var (h, o) := GroupReceive(rs, g, head, f, now);
    if Done(g) {
      assert log + Of(o) == log;
    } else if f.index in seen {
      assert HasShard(g, f.index);
      assert seen + {f.index} == seen && log + Of(o) == log;
    } else {
      ReceiveNew(rs, items, g, seen, log, head, f, now);
    }
  }

  lemma FillsThree(log: seq<Delivery>, ds: seq<Delivery>, direct: seq<Delivery>, i: nat)
    ensures Fills(log + (ds + direct), i) <==> Fills(log + direct, i) || Fills(ds, i)
  {
    FillsAppend(log, direct, i);
    FillsAppend(ds, direct, i);
    FillsAppend(log, ds + direct, i);
  }

  lemma DecodedCompletes(items: seq<Fields>, seen: set<nat>, log: seq<Delivery>, ds: seq<Delivery>,
                         direct: seq<Delivery>)
    requires Handed(items, seen, log + direct)
    requires forall i: nat :: i < |items| && i !in seen ==> Fills(ds, i)
    ensures Complete(items, log + (ds + direct))
  {
    forall i: nat | i < |items| ensures Fills(log + (ds + direct), i) {
      FillsThree(log, ds, direct, i);
    }
  }

  lemma EnoughCompletes(rs: RsCode, items: seq<Fields>, s: FecGroup, seen: set<nat>, log: seq<Delivery>,
                        head: Header, direct: seq<Delivery>)
    requires Batch(items) && StoredOk(rs, items, s, seen) && !Done(s) && Enough(s)
    requires Mds(rs, |items|, Parities(items)) && Solver(rs, |items|, Parities(items))
    requires AllExact(items, direct) && Handed(items, seen, log + direct) && FullLength(items, seen)
    ensures var (h, o) := Settled(rs, s, head, direct);
      AllExact(items, Of(o)) && Recovered(items, h, log + Of(o))
  {
    FullIsUniform(rs, items, s, seen);
    DecodesIff(rs, items, s, seen, head);
    hide Tried, StoredOk, Mds, Solver, FullLength, Uniform, Batch, Enough, Complete, Handed;
    var (h, d) := Tried(rs, s, head);
    assert Settled(rs, s, head, direct) == (h, Packets(d.ds + direct));
    DecodedCompletes(items, seen, log, d.ds, direct);
  }

  lemma SettledShard(rs: RsCode, items: seq<Fields>, s: FecGroup, seen: set<nat>, log: seq<Delivery>, head: Header,
                     f: FecPacket)
    requires Batch(items) && StoredOk(rs, items, s, seen) && OfBatch(rs, items, head, f)
    requires Mds(rs, |items|, Parities(items)) && Solver(rs, |items|, Parities(items))
    requires AllExact(items, DirectOf(head, f)) && Handed(items, seen, log + DirectOf(head, f))
    requires FullLength(items, seen)
    ensures var (h, o) := Settled(rs, s, head, DirectOf(head, f));
      && AllExact(items, Of(o))
      && (|| Recovered(items, h, log + Of(o))
          || (h == s && !Done(s) && Of(o) == DirectOf(head, f) && (s.data != 0 ==> |seen| < |items|)))
  {
    hide Mds, Solver, FullLength, Complete, Handed, SlotsOk, AllExact;
    var direct := DirectOf(head, f);
    if Done(s) {
      AllSeenComplete(items, seen, log + direct);
    } else if Enough(s) {
      EnoughCompletes(rs, items, s, seen, log, head, direct);
    } else {
      SeenIsPresent(rs, items, s, seen);
    }
  }

  // ---------- every run ----------

  /** A run in which the group `key` lives and is sent nothing but shards of this batch. */
  ghost predicate BatchRun(rs: RsCode, items: seq<Fields>, key: Key, ss: seq<State>, es: seq<Event>, os: seq<Outcome>) {
    && Run(rs, ss, es, os) && Survives(ss, es, key)
    && forall i {:trigger es[i]} :: 0 <= i < |es| && For(es[i], key)
        ==> OfBatch(rs, items, es[i].head, es[i].body.value)
  }

  /** The distinct shards that reached the group. */
  function Seen(es: seq<Event>, key: Key): set<nat> {
    if es == [] then {}
    else
      var n := |es| - 1;
      Seen(es[..n], key) + if For(es[n], key) then {es[n].body.value.index} else {}
  }

  ghost predicate Progress(rs: RsCode, items: seq<Fields>, key: Key, s: State, seen: set<nat>, log: seq<Delivery>) {
    && AllExact(items, log)
    && if key in s.groups then Recovered(items, s.groups[key], log) || Waiting(rs, items, s.groups[key], seen, log)
       else seen == {} && log == []
  }

  lemma FreshGroupWaits(rs: RsCode, items: seq<Fields>, now: nat)
    requires Batch(items)
    ensures Waiting(rs, items, NewGroup(now), {}, [])
  {
    assert {} * Below(|items|) == {};
  }

  lemma {:induction false} SeenGrows(es: seq<Event>, key: Key, t: nat)
    requires t <= |es|
    ensures Seen(es[..t], key) <= Seen(es, key)
  {
    if t < |es| {
      SeenGrows(es[..|es| - 1], key, t);
      assert es[..|es| - 1][..t] == es[..t];
    } else {
      assert es[..t] == es;
    }
  }

  lemma NextLog(es: seq<Event>, os: seq<Outcome>, key: Key, n: nat)
    requires |es| == |os| && n < |es|
    ensures Log(es[..n + 1], os[..n + 1], key) == Log(es[..n], os[..n], key) + if For(es[n], key) then Of(os[n]) else []
    ensures Seen(es[..n + 1], key) == Seen(es[..n], key) + if For(es[n], key) then {es[n].body.value.index} else {}
  {
    assert es[..n + 1][..n] == es[..n] && os[..n + 1][..n] == os[..n];
  }

  lemma {:induction false} ProgressAlways(rs: RsCode, items: seq<Fields>, key: Key, ss: seq<State>, es: seq<Event>,
                                          os: seq<Outcome>, t: nat)
    requires Batch(items) && BatchRun(rs, items, key, ss, es, os) && t <= |es|
    requires Mds(rs, |items|, Parities(items)) && Solver(rs, |items|, Parities(items))
    requires FullLength(items, Seen(es, key))
    ensures Progress(rs, items, key, ss[t], Seen(es[..t], key), Log(es[..t], os[..t], key))
  {
    if t > 0 {
      var n := t - 1;
      ProgressAlways(rs, items, key, ss, es, os, n);
      GroupStep(rs, ss, es, os, key, n);
      NextLog(es, os, key, n);
      var seen, log := Seen(es[..n], key), Log(es[..n], os[..n], key);
      if For(es[n], key) {
        var e := es[n];
        FreshGroupWaits(rs, items, e.now);
        SeenGrows(es, key, t);
        ReceiveShard(rs, items, GroupAt(ss[n].groups, key, e.now), seen, log, e.head, e.body.value, e.now);
      } else {
        assert seen + {} == seen && log + [] == log;
      }
    }
  }

  lemma WaitingIsShort(rs: RsCode, items: seq<Fields>, g: FecGroup, seen: set<nat>, log: seq<Delivery>)
    requires Waiting(rs, items, g, seen, log) && |seen| >= |items|
    ensures Complete(items, log)
  {
    var k := |items|;
    forall i | i in seen ensures i < k {
      assert HasShard(g, i);
    }
    SubsetSize(seen, Below(k));
    assert seen * Below(k) == seen;
    AllSeenComplete(items, seen, log);
  }

  /** Recovery: if as many distinct shards as the batch has originals reach a living group, in any
      order, with repeats and amid any other traffic, then every original is delivered exactly once,
      with its type and payload, provided the originals received are as long as the longest one. */
  lemma Recovers(rs: RsCode, items: seq<Fields>, key: Key, ss: seq<State>, es: seq<Event>, os: seq<Outcome>)
    requires Batch(items) && BatchRun(rs, items, key, ss, es, os)
    requires Mds(rs, |items|, Parities(items)) && Solver(rs, |items|, Parities(items))
    requires FullLength(items, Seen(es, key)) && |Seen(es, key)| >= |items|
    ensures AllExact(items, Log(es, os, key)) && Complete(items, Log(es, os, key)) && DistinctSlots(Log(es, os, key))
  {
    ProgressAlways(rs, items, key, ss, es, os, |es|);
    assert es[..|es|] == es && os[..|es|] == os;
    AtMostOnce(rs, ss, es, os, key);
    if key in ss[|es|].groups && !Recovered(items, ss[|es|].groups[key], Log(es, os, key)) {
      WaitingIsShort(rs, items, ss[|es|].groups[key], Seen(es, key), Log(es, os, key));
    }
  }
}
