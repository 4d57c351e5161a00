/** The receiving half of FEC: shards of a group arrive in any order, with loss and repeats; originals
    are delivered at once, missing ones as soon as enough shards are there. */
module FecDecoder {
  import opened Basics
  import opened ErasureCode
  import opened FecMessage
  import opened FecShard
  import opened NetPacket
  import Sorting

  const GROUP_TIMEOUT_MS: nat := 3000
  const CLEANUP_INTERVAL_MS: nat := 1000
  const MAX_GROUPS: nat := 1000
  const MAX_NUM: nat := 50

  datatype FecGroup = FecGroup(data: nat, parity: nat, count: nat, shards: Shards, lastUpdate: nat)

  datatype Key = Key(src: Ip, groupId: nat)

  type Groups = map<Key, FecGroup>

  /** A packet handed on, with the slot of its group it fills (the slot is not part of the packet). */
  datatype Delivery = Delivery(index: nat, packet: Packet)

  /** `Err`, `Ok(None)` and `Ok(Some(..))` of a receive. */
  datatype Outcome = Failed | Nothing | Packets(ds: seq<Delivery>)

  datatype Decoding = DecodeFailed | NotYet | Decoded(ds: seq<Delivery>)

  // ---------- one group ----------

  function NewGroup(now: nat): FecGroup {
    FecGroup(0, 0, 0, [], now)
  }

  predicate Done(g: FecGroup) {
    g.data != 0 && g.count == g.data
  }

  function Finished(g: FecGroup): FecGroup {
    g.(count := g.data, shards := [])
  }

  predicate HasShard(g: FecGroup, i: nat) {
    i < |g.shards| && g.shards[i].Some?
  }

  function Resized(s: Shards, n: nat): (r: Shards)
    ensures |r| == Max(|s|, n)
  {
    if |s| < n then s + seq(n - |s|, i => None) else s
  }

  /** Parity data that `receive` refuses. */
  predicate Rejected(g: FecGroup, index: nat, p: ParityData) {
    || p.dataShards > MAX_NUM || p.parityShards > MAX_NUM
    || p.dataShards + p.parityShards <= index
    || (g.data != 0 && g.data != p.dataShards)
    || (g.parity != 0 && g.parity != p.parityShards)
  }

  function Direct(head: Header, payload: seq<byte>): Packet {
    Packet(SetFlag(head, FEC, false), payload)
  }

  /** The header of a rebuilt packet: type and flags from the shard, the rest from the packet in hand. */
  function RebuiltHead(head: Header, f: Fields): Header {
    var h := EMPTY_HEADER.(typeByte := f.typeByte, flagsByte := f.flagsByte, src := head.src, dest := head.dest);
    SetFlag(SetTtl(h, Ttl(head)), FEC, false)
  }

  function Rebuilt(head: Header, shard: Shard): Result<Packet> {
    match Unpack(shard)
    case Err => Err
    case Ok(f) => Ok(Packet(RebuiltHead(head, f), f.payload))
  }

  function StoredOriginal(g: FecGroup, head: Header, f: FecPacket, now: nat): FecGroup {
    var shard := Pack(Fields(head.typeByte, head.flagsByte, f.payload));
    g.(shards := Resized(g.shards, f.index + 1)[f.index := Some(shard)], count := g.count + 1, lastUpdate := now)
  }

  function StoredParity(g: FecGroup, f: FecPacket, p: ParityData, now: nat): FecGroup
    requires !Rejected(g, f.index, p)
  {
    g.(data := p.dataShards, parity := p.parityShards, lastUpdate := now,
       shards := Resized(g.shards, p.dataShards + p.parityShards)[f.index := Some(f.payload)])
  }

  /** The packets rebuilt for the slots below `k` that were missing before reconstruction. */
  function RebuiltBelow(head: Header, before: Shards, full: Shards, k: nat): Result<seq<Delivery>>
    requires |before| == |full| && k <= |full|
    requires forall i: nat :: i < |full| ==> full[i].Some?
  {
    if k == 0 then Ok([])
    else
      match RebuiltBelow(head, before, full, k - 1)
      case Err => Err
      case Ok(ds) =>
        if before[k - 1].Some? then Ok(ds)
        else
          match Rebuilt(head, full[k - 1].value)
          case Err => Err
          case Ok(p) => Ok(ds + [Delivery(k - 1, p)])
  }

  function DecodedWithRs(rs: RsCode, g: FecGroup, head: Header): (FecGroup, Decoding) {
    if |g.shards| != g.data + g.parity then (g, DecodeFailed)
    else
      match Reconstruct(rs, g.data, g.parity, g.shards)
      case Err => (g, DecodeFailed)
      case Ok(full) =>
        match RebuiltBelow(head, g.shards, full, g.data)
        case Err => (g.(shards := full), DecodeFailed)
        case Ok(ds) => (Finished(g), Decoded(ds))
  }

  /** What the header of a recovered packet says, given the packet in hand: the same ends, that
      packet's TTL as both nibbles, no FEC flag, and zeros where it has nothing to say. */
  predicate FollowsHead(h: Header, head: Header) {
    && h.src == head.src && h.dest == head.dest
    && h.ttlByte / 0x10 == h.ttlByte % 0x10 == head.ttlByte % 0x10
    && !Has(h.flagsByte, FEC)
    && h.seqNo == 0 && h.reserved == 0
  }

  predicate AllFollow(ds: seq<Delivery>, head: Header) {
    forall j :: 0 <= j < |ds| ==> FollowsHead(ds[j].packet.head, head)
  }

  /** The slots come in order. */
  predicate Ascending(ds: seq<Delivery>) {
    forall i, j :: 0 <= i < j < |ds| ==> ds[i].index < ds[j].index
  }

  /** A packet is rebuilt from a shard exactly when the shard holds the length it states; its type and
      payload are the shard's, its flags the shard's but for the FEC flag. */
  lemma RebuiltMeans(head: Header, shard: Shard)
    ensures var r := Rebuilt(head, shard);
      && (r.Ok? <==> |shard| >= 4 && shard[2] as nat * 0x100 + shard[3] as nat + 4 <= |shard|)
      && (r.Ok? ==>
            var n := shard[2] as nat * 0x100 + shard[3] as nat;
            && FollowsHead(r.value.head, head)
            && r.value.head.typeByte == shard[0]
            && r.value.head.flagsByte == (if Has(shard[1], FEC) then shard[1] - 0x20 else shard[1])
            && r.value.payload == shard[4..4 + n])
  {
    if Unpack(shard).Ok? {
      FlagBits(shard[1], FEC, false, FEC);
    }
  }

  lemma {:induction false} RebuiltFollow(head: Header, before: Shards, full: Shards, k: nat)
    requires |before| == |full| && k <= |full|
    requires forall i: nat :: i < |full| ==> full[i].Some?
    requires RebuiltBelow(head, before, full, k).Ok?
    ensures var ds := RebuiltBelow(head, before, full, k).value;
      AllFollow(ds, head) && Ascending(ds) && forall j :: 0 <= j < |ds| ==> ds[j].index < k
  {
    hide FollowsHead, Rebuilt;
    if k > 0 {
      RebuiltFollow(head, before, full, k - 1);
      RebuiltMeans(head, full[k - 1].value);
    }
  }

  /** Every packet recovered by decoding has a header that follows the packet in hand, and they come
      in the order of their slots. */
  lemma DecodedFollow(rs: RsCode, g: FecGroup, head: Header)
    ensures var d := DecodedWithRs(rs, g, head).1; d.Decoded? ==> AllFollow(d.ds, head) && Ascending(d.ds)
  {
    if |g.shards| == g.data + g.parity {
      var r := Reconstruct(rs, g.data, g.parity, g.shards);
      if r.Ok? && RebuiltBelow(head, g.shards, r.value, g.data).Ok? {
        RebuiltFollow(head, g.shards, r.value, g.data);
      }
    }
  }

  predicate Enough(g: FecGroup) {
    g.data != 0 && g.count != g.data && Count(g.shards) >= g.data
  }

  function Tried(rs: RsCode, g: FecGroup, head: Header): (FecGroup, Decoding) {
    if Enough(g) then DecodedWithRs(rs, g, head) else (g, NotYet)
  }

  /** What follows once a shard is stored; `direct` holds the original just received, if it was one. */
  function Settled(rs: RsCode, g: FecGroup, head: Header, direct: seq<Delivery>): (FecGroup, Outcome) {
    if Done(g) then (Finished(g), if direct == [] then Nothing else Packets(direct))
    else
      var (h, d) := Tried(rs, g, head);
      (h, match d
          case DecodeFailed => Failed
          case NotYet => if direct == [] then Nothing else Packets(direct)
          case Decoded(ds) => Packets(ds + direct))
  }

  /** Whether a receive stores its shard, rather than returning before that. */
  predicate Accepts(g: FecGroup, f: FecPacket) {
    !Done(g) && !HasShard(g, f.index) && (f.parityData.Some? ==> !Rejected(g, f.index, f.parityData.value))
  }

  function GroupReceive(rs: RsCode, g: FecGroup, head: Header, f: FecPacket, now: nat): (FecGroup, Outcome) {
    if !Accepts(g, f) then (g, if Done(g) || HasShard(g, f.index) then Nothing else Failed)
    else if f.parityData.Some? then Settled(rs, StoredParity(g, f, f.parityData.value, now), head, [])
    else Settled(rs, StoredOriginal(g, head, f, now), head, [Delivery(f.index, Direct(head, f.payload))])
  }

  // ---------- all groups ----------

  predicate Fresh(g: FecGroup, now: nat) {
    now < g.lastUpdate + GROUP_TIMEOUT_MS
  }

  function FreshKeys(groups: Groups, now: nat): set<Key> {
    set k | k in groups && Fresh(groups[k], now)
  }

  /** After a cleanup every surviving group is fresh and unchanged; all fresh groups survive unless
      there are more than the maximum, and then the oldest make way. */
  ghost predicate CleanedUp(before: Groups, after: Groups, now: nat) {
    && after.Keys <= FreshKeys(before, now)
    && (forall k :: k in after ==> after[k] == before[k])
    && |after| == Min(|FreshKeys(before, now)|, MAX_GROUPS)
    && (forall k, s ::
          k in FreshKeys(before, now) && k !in after && s in after ==> before[k].lastUpdate <= after[s].lastUpdate)
  }

  datatype State = State(groups: Groups, lastCleanup: nat)

  function GroupAt(groups: Groups, k: Key, now: nat): FecGroup {
    if k in groups then groups[k] else NewGroup(now)
  }

  /** What one receive hands on: packets recovered, in the order of their slots and with headers that
      follow the packet in hand; last, if it is an original, that packet itself, with only its FEC flag
      cleared. */
  ghost predicate HandsOn(head: Header, f: FecPacket, out: Outcome) {
    out.Packets? ==>
      var n := |out.ds|;
      if f.parityData.Some? then AllFollow(out.ds, head) && Ascending(out.ds)
      else
        n > 0 &&
        var own := out.ds[n - 1];
        && AllFollow(out.ds[..n - 1], head) && Ascending(out.ds[..n - 1])
        && own.index == f.index && own.packet.payload == f.payload
        && own.packet.head == head.(flagsByte := own.packet.head.flagsByte)
        && own.packet.head.flagsByte == (if Has(head.flagsByte, FEC) then head.flagsByte - 0x20 else head.flagsByte)
  }

  lemma ReceiveHandsOn(rs: RsCode, g: FecGroup, head: Header, f: FecPacket, now: nat)
    ensures HandsOn(head, f, GroupReceive(rs, g, head, f, now).1)
  {
    hide DecodedWithRs, FollowsHead;
    if Accepts(g, f) {
      var s :=
        if f.parityData.Some? then StoredParity(g, f, f.parityData.value, now) else StoredOriginal(g, head, f, now);
      DecodedFollow(rs, s, head);
      var direct := if f.parityData.Some? then [] else [Delivery(f.index, Direct(head, f.payload))];
      var d := Tried(rs, s, head).1;
      if d.Decoded? && direct != [] {
        assert (d.ds + direct)[..|d.ds|] == d.ds;
      } else if d.Decoded? {
        assert d.ds + direct == d.ds;
      }
    }
  }

  predicate CleanupDue(s: State, now: nat) {
    now > s.lastCleanup + CLEANUP_INTERVAL_MS
  }

  /** One call of `receive`: `body` is the parsed message, absent when the payload does not parse. */
  ghost predicate Receives(rs: RsCode, s: State, head: Header, body: Option<FecPacket>, now: nat, t: State,
                           out: Outcome) {
    if body.None? || body.value.index > MAX_NUM then t == s && out == Failed
    else
      var k := Key(head.src, body.value.groupId);
      var g := GroupAt(s.groups, k, now);
      var (h, o) := GroupReceive(rs, g, head, body.value, now);
      && out == o
      && if Accepts(g, body.value) && o != Failed && CleanupDue(s, now)
         then CleanedUp(s.groups[k := h], t.groups, now) && t.lastCleanup == now
         else t == State(s.groups[k := h], s.lastCleanup)
  }

  // ---------- the decoder object ----------

  class Decoder {
    const rs: RsCode
    var groups: Groups
    var lastCleanup: nat

    constructor (rs: RsCode, now: nat)
      ensures this.rs == rs && groups == map[] && lastCleanup == now
    {
      this.rs := rs;
      groups, lastCleanup := map[], now;
    }

    ghost function Abstract(): State
      reads this
    {
      State(groups, lastCleanup)
    }

    /** Receives one FEC packet and tries to recover what is missing from its group. */
    method Receive(head: Header, body: Option<FecPacket>, now: nat) returns (out: Outcome)
      modifies this
      ensures Receives(rs, old(Abstract()), head, body, now, Abstract(), out)
      ensures body.Some? ==> HandsOn(head, body.value, out)
    {
      if body.None? {
        return Failed;
      }
      var f := body.value;
      if f.index > MAX_NUM {
        return Failed;
      }
      var k := Key(head.src, f.groupId);
      if k !in groups {
        groups := groups[k := NewGroup(now)];
      }
      var g := groups[k];
      assert groups == old(groups)[k := g];
      var stored, h;
      ReceiveHandsOn(rs, g, head, f, now);
      stored, h, out := ReceiveInGroup(g, head, f, now);
      groups := groups[k := h];
      assert groups == old(groups)[k := h];
      if stored && out != Failed {
        MaybeCleanup(now);
      }
    }

    /** The part of a receive that concerns the group alone. */
    method ReceiveInGroup(g: FecGroup, head: Header, f: FecPacket, now: nat)
      returns (stored: bool, h: FecGroup, out: Outcome)
      ensures stored == Accepts(g, f)
      ensures (h, out) == GroupReceive(rs, g, head, f, now)
    {
      stored, h := false, g;
      if Done(g) {
        return stored, h, Nothing;
      }
      if f.index < |g.shards| && g.shards[f.index].Some? {
        return stored, h, Nothing;
      }
      var direct;
      stored, h, direct := Store(g, head, f, now);
      if !stored {
        return stored, g, Failed;
      }
      if Done(h) {
        return stored, Finished(h), if direct == [] then Nothing else Packets(direct);
      }
      var d;
      h, d := TryDecode(h, head);
      match d
      case DecodeFailed => out := Failed;
      case NotYet => out := if direct == [] then Nothing else Packets(direct);
      case Decoded(ds) => out := Packets(ds + direct);
    }

    /** Checks a shard against its group and puts it in its slot; an original is also handed on. */
    method Store(g: FecGroup, head: Header, f: FecPacket, now: nat)
      returns (ok: bool, h: FecGroup, direct: seq<Delivery>)
      requires !Done(g) && !HasShard(g, f.index)
      ensures ok == Accepts(g, f)
      ensures ok && f.parityData.Some? ==> h == StoredParity(g, f, f.parityData.value, now) && direct == []
      ensures ok && f.parityData.None? ==>
        h == StoredOriginal(g, head, f, now) && direct == [Delivery(f.index, Direct(head, f.payload))]
    {
      ok, h, direct := false, g, [];
      if f.parityData.Some? {
        var p := f.parityData.value;
        if p.dataShards > MAX_NUM {
          return;
        }
        if p.parityShards > MAX_NUM {
          return;
        }
        if p.dataShards + p.parityShards <= f.index {
          return;
        }
        if h.data != 0 && h.data != p.dataShards {
          return;
        }
        if h.parity != 0 && h.parity != p.parityShards {
          return;
        }
        h := h.(data := p.dataShards, parity := p.parityShards);
        if |h.shards| < p.dataShards + p.parityShards {
          h := h.(shards := Resized(h.shards, p.dataShards + p.parityShards));
        }
        h := h.(shards := h.shards[f.index := Some(f.payload)]);
      } else {
        direct := [Delivery(f.index, Packet(SetFlag(head, FEC, false), f.payload))];
        if |h.shards| <= f.index {
          h := h.(shards := Resized(h.shards, f.index + 1));
        }
        var shard := Pack(Fields(head.typeByte, head.flagsByte, f.payload));
        h := h.(shards := h.shards[f.index := Some(shard)], count := h.count + 1);
      }
      h := h.(lastUpdate := now);
      ok := true;
    }

    /** Decodes when the group has as many shards as originals and still misses some. */
    method TryDecode(g: FecGroup, head: Header) returns (h: FecGroup, d: Decoding)
      ensures (h, d) == Tried(rs, g, head)
    {
      h, d := g, NotYet;
      if g.data == 0 {
        return g, NotYet;
      }
      if g.count == g.data {
        return g, NotYet;
      }
      var received := 0;
      for i := 0 to |g.shards|
        invariant received == Count(g.shards[..i])
      {
        assert g.shards[..i + 1][..i] == g.shards[..i];
        if g.shards[i].Some? {
          received := received + 1;
        }
      }
      assert g.shards[..|g.shards|] == g.shards;
      if received < g.data {
        return g, NotYet;
      }
      h, d := DecodeWithRs(g, head);
    }

    /** Reconstructs the missing shards and rebuilds the packets of those that are originals. */
    method DecodeWithRs(g: FecGroup, head: Header) returns (h: FecGroup, d: Decoding)
      ensures (h, d) == DecodedWithRs(rs, g, head)
      ensures d.Decoded? ==> AllFollow(d.ds, head) && Ascending(d.ds)
    {
      DecodedFollow(rs, g, head);
      if |g.shards| != g.data + g.parity {
        return g, DecodeFailed;
      }
      var delivered: seq<bool> := seq(g.data, i requires 0 <= i < g.data => g.shards[i].Some?);
      var r := Reconstruct(rs, g.data, g.parity, g.shards);
      if r.Err? {
        return g, DecodeFailed;
      }
      h := g.(shards := r.value);
      var result: seq<Delivery> := [];
      for i := 0 to g.data
        invariant RebuiltBelow(head, g.shards, r.value, i) == Ok(result)
      {
        if !delivered[i] {
          var p := Rebuilt(head, h.shards[i].value);
          if p.Err? {
            RebuiltErr(head, g.shards, r.value, i, g.data);
            return h, DecodeFailed;
          }
          result := result + [Delivery(i, p.value)];
        }
      }
      return Finished(g), Decoded(result);
    }

    method MaybeCleanup(now: nat)
      modifies this
      ensures if CleanupDue(old(Abstract()), now)
        then CleanedUp(old(groups), groups, now) && lastCleanup == now
        else Abstract() == old(Abstract())
    {
      if now > lastCleanup + CLEANUP_INTERVAL_MS {
        CleanupOldGroups(now);
        lastCleanup := now;
      }
    }

    /** Drops groups that timed out, then the oldest ones above the maximum. */
    method CleanupOldGroups(now: nat)
      modifies this`groups
      ensures CleanedUp(old(groups), groups, now)
    {
      var before := groups;
      groups := map k | k in before && Fresh(before[k], now) :: before[k];
      assert groups.Keys == FreshKeys(before, now);
      if |groups| > MAX_GROUPS {
        groups := RemoveOldest(groups);
      }
    }

    static method RemoveOldest(groups: Groups) returns (left: Groups)
      requires |groups| > MAX_GROUPS
      ensures left.Keys <= groups.Keys && |left| == MAX_GROUPS
      ensures forall k :: k in left ==> left[k] == groups[k]
      ensures OldestGone(groups, left)
    {
      var ids := IterationOrder(groups.Keys);
      var sorted := Sorting.StableSort(ids, Age(groups));
      SortedIds(groups, ids, sorted);
      var toRemove := |ids| - MAX_GROUPS;
      left := RemoveAll(groups, sorted[..toRemove]);
      OldestRemoved(groups, sorted, toRemove);
    }

    static method RemoveAll(groups: Groups, ks: seq<Key>) returns (left: Groups)
      ensures left == groups - Elements(ks)
    {
      left := groups;
      for i := 0 to |ks|
        invariant left == groups - Elements(ks[..i])
      {
        SetNext(ks, i);
        left := left - {ks[i]};
        assert left == groups - Elements(ks[..i + 1]);
      }
      assert ks[..|ks|] == ks;
    }
  }

  /** Nothing that stayed is older than something that went. */
  ghost predicate OldestGone(before: Groups, after: Groups) {
    forall k, s :: k in before && k !in after && s in after && s in before
        ==> before[k].lastUpdate <= before[s].lastUpdate
  }

  lemma SetNext<T>(s: seq<T>, i: nat)
    requires i < |s|
    ensures Elements(s[..i + 1]) == Elements(s[..i]) + {s[i]}
  {
    assert s[..i + 1] == s[..i] + [s[i]];
  }

  function Age(groups: Groups): Key -> int {
    (k: Key) => if k in groups then groups[k].lastUpdate else 0
  }

  lemma {:induction false} SetSize<T(!new)>(s: seq<T>)
    requires forall i, j :: 0 <= i < j < |s| ==> s[i] != s[j]
    ensures |Elements(s)| == |s|
  {
    if s != [] {
      var front, last := s[..|s| - 1], s[|s| - 1];
      SetSize(front);
      assert s == front + [last];
      assert Elements(s) == Elements(front) + {last};
    }
  }

  lemma SortedIds(groups: Groups, ids: seq<Key>, sorted: seq<Key>)
    requires Enumerates(ids, groups.Keys) && sorted == Sorting.StableSort(ids, Age(groups))
    ensures |ids| == |groups| == |sorted| && Elements(sorted) == groups.Keys
    ensures Sorting.SortedBy(sorted, Age(groups))
    ensures forall i, j :: 0 <= i < j < |sorted| ==> sorted[i] != sorted[j]
  {
    Sorting.StableSortSorts(ids, Age(groups));
    Sorting.SortKeepsDistinct(ids, Age(groups));
    SetSize(ids);
    assert Elements(ids) == groups.Keys;
    assert Elements(sorted) == Elements(ids) by {
      forall k ensures k in sorted <==> k in ids {
        assert k in sorted <==> k in multiset(sorted);
      }
    }
  }

  lemma OldestRemoved(groups: Groups, sorted: seq<Key>, n: nat)
    requires n <= |sorted| && Elements(sorted) == groups.Keys
    requires Sorting.SortedBy(sorted, Age(groups))
    requires forall i, j :: 0 <= i < j < |sorted| ==> sorted[i] != sorted[j]
    ensures |groups - Elements(sorted[..n])| == |sorted| - n
    ensures OldestGone(groups, groups - Elements(sorted[..n]))
  {
    var gone := Elements(sorted[..n]);
    var after := groups - gone;
    SetSize(sorted);
    SetSize(sorted[..n]);
    assert after.Keys == groups.Keys - gone;
    forall k, s | k in groups && k in gone && s in groups && s !in gone
      ensures groups[k].lastUpdate <= groups[s].lastUpdate
    {
      Ordered(groups, sorted, n, k, s);
    }
  }

  lemma Ordered(groups: Groups, sorted: seq<Key>, n: nat, k: Key, s: Key)
    requires n <= |sorted| && k in groups && s in groups
    requires k in sorted[..n] && s in sorted && s !in sorted[..n]
    requires Sorting.SortedBy(sorted, Age(groups))
    ensures groups[k].lastUpdate <= groups[s].lastUpdate
  {
    var i :| 0 <= i < n && sorted[..n][i] == k;
    var j :| 0 <= j < |sorted| && sorted[j] == s;
    assert forall c :: 0 <= c < n ==> sorted[..n][c] == sorted[c];
    assert Age(groups)(sorted[i]) <= Age(groups)(sorted[j]);
  }

  lemma {:induction false} RebuiltErr(head: Header, before: Shards, full: Shards, i: nat, k: nat)
    requires |before| == |full| && i < k <= |full|
    requires forall c: nat :: c < |full| ==> full[c].Some?
    requires before[i].None? && Rebuilt(head, full[i].value).Err?
    ensures RebuiltBelow(head, before, full, k).Err?
  {
    if i < k - 1 {
      RebuiltErr(head, before, full, i, k - 1);
    }
  }
}
