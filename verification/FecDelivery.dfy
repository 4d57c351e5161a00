/** Safety of the decoder over every run of `receive`, for any traffic and any code: while a group
    lives, none of its slots is delivered twice, directly or by recovery. */
module FecDelivery {
  import opened Basics
  import opened ErasureCode
  import opened FecMessage
  import opened FecShard
  import opened NetPacket
  import opened FecDecoder

  datatype Event = Event(head: Header, body: Option<FecPacket>, now: nat)

  /** A decoder going through `ss` on receiving `es`, returning `os`. It may start anywhere. */
  ghost predicate Run(rs: RsCode, ss: seq<State>, es: seq<Event>, os: seq<Outcome>) {
    && |ss| == |es| + 1 && |os| == |es|
    && forall i {:trigger es[i]} :: 0 <= i < |es|
        ==> Receives(rs, ss[i], es[i].head, es[i].body, es[i].now, ss[i + 1], os[i])
  }

  /** The events that reach the group `k`. */
  predicate For(e: Event, k: Key) {
    e.body.Some? && e.body.value.index <= MAX_NUM && Key(e.head.src, e.body.value.groupId) == k
  }

  /** The group is created in this run, by its first event, and no cleanup removes it. */
  ghost predicate Survives(ss: seq<State>, es: seq<Event>, k: Key) {
    && |ss| == |es| + 1 && k !in ss[0].groups
    && forall i {:trigger es[i]} :: 0 <= i < |es| && (k in ss[i].groups || For(es[i], k)) ==> k in ss[i + 1].groups
  }

  function Of(o: Outcome): seq<Delivery> {
    if o.Packets? then o.ds else []
  }

  /** Everything delivered for the group `k`, in order. */
  function Log(es: seq<Event>, os: seq<Outcome>, k: Key): seq<Delivery>
    requires |es| == |os|
  {
    if es == [] then []
    else
      var n := |es| - 1;
      Log(es[..n], os[..n], k) + if For(es[n], k) then Of(os[n]) else []
  }

  predicate DistinctSlots(log: seq<Delivery>) {
    forall i, j :: 0 <= i < j < |log| ==> log[i].index != log[j].index
  }

  predicate Fills(log: seq<Delivery>, i: nat) {
    exists j :: 0 <= j < |log| && log[j].index == i
  }

  // ---------- one receive in one group ----------

  /** Nothing will be delivered for this slot any more. */
  predicate Closed(g: FecGroup, i: nat) {
    Done(g) || HasShard(g, i)
  }

  lemma {:induction false} RebuiltSlots(head: Header, before: Shards, full: Shards, k: nat)
    requires |before| == |full| && k <= |full|
    requires forall i: nat :: i < |full| ==> full[i].Some?
    requires RebuiltBelow(head, before, full, k).Ok?
    ensures var ds := RebuiltBelow(head, before, full, k).value;
      && DistinctSlots(ds)
      && (forall j :: 0 <= j < |ds| ==> ds[j].index < k && before[ds[j].index].None?)
  {
    if k > 0 {
      RebuiltSlots(head, before, full, k - 1);
    }
  }

  /** A receive delivers distinct slots that were open, and closes them; closed slots stay closed. */
  lemma ReceiveOpens(rs: RsCode, g: FecGroup, head: Header, f: FecPacket, now: nat)
    ensures var (h, o) := GroupReceive(rs, g, head, f, now);
      && DistinctSlots(Of(o))
      && (forall j :: 0 <= j < |Of(o)| ==> !Closed(g, Of(o)[j].index) && Closed(h, Of(o)[j].index))
      && (forall i: nat :: Closed(g, i) ==> Closed(h, i))
  {
    if Accepts(g, f) {
      if f.parityData.Some? {
        SettledOpens(rs, g, StoredParity(g, f, f.parityData.value, now), head, f.index, []);
      } else {
        var d := Delivery(f.index, Direct(head, f.payload));
        SettledOpens(rs, g, StoredOriginal(g, head, f, now), head, f.index, [d]);
      }
    }
  }

  /** Decoding delivers only open slots and then ends the group; otherwise it loses no shard. */
  lemma TriedOpens(rs: RsCode, s: FecGroup, head: Header)
    ensures var (h, d) := Tried(rs, s, head);
      if d.Decoded? then Done(h) && DistinctSlots(d.ds) && forall j :: 0 <= j < |d.ds| ==> !HasShard(s, d.ds[j].index)
      else forall i: nat :: HasShard(s, i) ==> HasShard(h, i)
  {
    if Enough(s) && |s.shards| == s.data + s.parity {
      var r := Reconstruct(rs, s.data, s.parity, s.shards);
      if r.Ok? && RebuiltBelow(head, s.shards, r.value, s.data).Ok? {
        RebuiltSlots(head, s.shards, r.value, s.data);
      }
    }
  }

  /** Slots missing in `s` and one present in it are distinct slots that were open before. */
  lemma DistinctAfter(g: FecGroup, s: FecGroup, ds: seq<Delivery>, index: nat, direct: seq<Delivery>)
    requires DistinctSlots(ds) && forall j :: 0 <= j < |ds| ==> !HasShard(s, ds[j].index)
    requires !Done(g) && !HasShard(g, index) && HasShard(s, index)
    requires forall i: nat :: HasShard(g, i) ==> HasShard(s, i)
    requires |direct| <= 1 && (direct != [] ==> direct[0].index == index)
    ensures DistinctSlots(ds + direct)
    ensures forall j :: 0 <= j < |ds + direct| ==> !Closed(g, (ds + direct)[j].index)
  {
    hide HasShard, Done;
  }

  /** What is delivered when a shard has been stored, and what becomes of the group. */
  lemma SettledParts(rs: RsCode, s: FecGroup, head: Header, direct: seq<Delivery>)
    ensures var (h, o) := Settled(rs, s, head, direct);
      if Done(s) then Done(h) && Of(o) == direct
      else
        var (t, d) := Tried(rs, s, head);
        h == t && Of(o) == (match d case DecodeFailed => [] case NotYet => direct case Decoded(ds) => ds + direct)
  {
    hide Tried;
  }

  /** Every slot that was closed, and that of the shard just stored, is closed afterwards. */
  lemma SettledCloses(rs: RsCode, s: FecGroup, head: Header, direct: seq<Delivery>, i: nat)
    requires HasShard(s, i)
    ensures Closed(Settled(rs, s, head, direct).0, i)
  {
    SettledParts(rs, s, head, direct);
    TriedOpens(rs, s, head);
    hide Settled, Tried, HasShard, Done;
  }

  lemma SettledOpens(rs: RsCode, g: FecGroup, s: FecGroup, head: Header, index: nat, direct: seq<Delivery>)
    requires !Done(g) && !HasShard(g, index) && HasShard(s, index)
    requires forall i: nat :: HasShard(g, i) ==> HasShard(s, i)
    requires |direct| <= 1 && (direct != [] ==> direct[0].index == index)
    ensures var (h, o) := Settled(rs, s, head, direct);
      && DistinctSlots(Of(o))
      && (forall j :: 0 <= j < |Of(o)| ==> !Closed(g, Of(o)[j].index) && Closed(h, Of(o)[j].index))
      && (forall i: nat :: Closed(g, i) ==> Closed(h, i))
  {
    SettledParts(rs, s, head, direct);
    TriedOpens(rs, s, head);
    hide Settled, Tried, HasShard, Done, DistinctSlots, Of;
    NoSlots();
    assert [] + direct == direct;
    DistinctAfter(g, s, [], index, direct);
    var (h, o) := Settled(rs, s, head, direct);
    var d := Tried(rs, s, head).1;
    if !Done(s) && d.Decoded? {
      DistinctAfter(g, s, d.ds, index, direct);
    } else {
      SettledCloses(rs, s, head, direct, index);
    }
    forall i: nat | Closed(g, i) ensures Closed(h, i) {
      SettledCloses(rs, s, head, direct, i);
    }
  }

  // ---------- every run ----------

  /** What a step does to the group `k`: one receive, or nothing if the event is for another group. */
  lemma GroupStep(rs: RsCode, ss: seq<State>, es: seq<Event>, os: seq<Outcome>, k: Key, t: nat)
    requires Run(rs, ss, es, os) && Survives(ss, es, k) && t < |es|
    ensures !For(es[t], k) ==> (k in ss[t + 1].groups <==> k in ss[t].groups)
    ensures !For(es[t], k) && k in ss[t].groups ==> ss[t + 1].groups[k] == ss[t].groups[k]
    ensures For(es[t], k) ==> k in ss[t + 1].groups
    ensures For(es[t], k) ==>
      (ss[t + 1].groups[k], os[t])
      == GroupReceive(rs, GroupAt(ss[t].groups, k, es[t].now), es[t].head, es[t].body.value, es[t].now)
  {
    assert Receives(rs, ss[t], es[t].head, es[t].body, es[t].now, ss[t + 1], os[t]);
  }

  /** Whatever arrives, everything delivered for the group goes between the ends of the packet it came
      with and has its FEC flag off. */
  lemma {:induction false} LoggedEnds(rs: RsCode, ss: seq<State>, es: seq<Event>, os: seq<Outcome>, k: Key, dest: Ip,
                                      t: nat)
    requires Run(rs, ss, es, os) && Survives(ss, es, k) && t <= |es|
    requires forall i {:trigger es[i]} :: 0 <= i < |es| && For(es[i], k) ==> es[i].head.dest == dest
    ensures forall d :: d in Log(es[..t], os[..t], k) ==> Ends(d.packet.head, k.src, dest)
  {
    hide GroupReceive, Receives, HandsOn, Ends;
    if t > 0 {
      var n := t - 1;
      LoggedEnds(rs, ss, es, os, k, dest, n);
      assert es[..t][..n] == es[..n] && os[..t][..n] == os[..n];
      if For(es[n], k) {
        var e := es[n];
        GroupStep(rs, ss, es, os, k, n);
        ReceiveHandsOn(rs, GroupAt(ss[n].groups, k, e.now), e.head, e.body.value, e.now);
        HandedEnds(e.head, e.body.value, os[n]);
      }
    }
  }

  predicate Ends(h: Header, src: Ip, dest: Ip) {
    h.src == src && h.dest == dest && !Has(h.flagsByte, FEC)
  }

  lemma HandedEnds(head: Header, f: FecPacket, out: Outcome)
    requires HandsOn(head, f, out)
    ensures forall d :: d in Of(out) ==> Ends(d.packet.head, head.src, head.dest)
  {
    forall d | d in Of(out) ensures Ends(d.packet.head, head.src, head.dest) {
      var j :| 0 <= j < |out.ds| && out.ds[j] == d;
      if f.parityData.None? && j < |out.ds| - 1 {
        assert out.ds[..|out.ds| - 1][j] == d;
      }
    }
  }

  ghost predicate SlotsClosed(s: State, k: Key, log: seq<Delivery>) {
    if k in s.groups then forall j :: 0 <= j < |log| ==> Closed(s.groups[k], log[j].index) else log == []
  }

  /** One receive of a group adds distinct open slots to what was delivered, and closes them. */
  lemma LogNext(rs: RsCode, g: FecGroup, head: Header, f: FecPacket, now: nat, log: seq<Delivery>)
    requires DistinctSlots(log) && forall j :: 0 <= j < |log| ==> Closed(g, log[j].index)
    ensures var (h, o) := GroupReceive(rs, g, head, f, now);
      && DistinctSlots(log + Of(o))
      && forall j :: 0 <= j < |log + Of(o)| ==> Closed(h, (log + Of(o))[j].index)
  {
    ReceiveOpens(rs, g, head, f, now);
    hide GroupReceive, Closed;
  }

  lemma {:induction false} LogClosed(rs: RsCode, ss: seq<State>, es: seq<Event>, os: seq<Outcome>, k: Key, t: nat)
    requires Run(rs, ss, es, os) && Survives(ss, es, k) && t <= |es|
    ensures DistinctSlots(Log(es[..t], os[..t], k)) && SlotsClosed(ss[t], k, Log(es[..t], os[..t], k))
  {
    hide GroupReceive, Closed, Receives, DistinctSlots;
    if t == 0 {
      assert DistinctSlots([]) by {
        NoSlots();
      }
    } else {
      var n := t - 1;
      LogClosed(rs, ss, es, os, k, n);
      GroupStep(rs, ss, es, os, k, n);
      assert es[..t][..n] == es[..n] && os[..t][..n] == os[..n];
      if For(es[n], k) {
        var e := es[n];
        LogNext(rs, GroupAt(ss[n].groups, k, e.now), e.head, e.body.value, e.now, Log(es[..n], os[..n], k));
      } else {
        assert Log(es[..n], os[..n], k) + [] == Log(es[..n], os[..n], k);
      }
    }
  }

  lemma NoSlots()
    ensures DistinctSlots([])
  {
  }

  /** At most once: over a group's life no slot is delivered twice, whatever arrives, and whichever
      receives fail. */
  lemma AtMostOnce(rs: RsCode, ss: seq<State>, es: seq<Event>, os: seq<Outcome>, k: Key)
    requires Run(rs, ss, es, os) && Survives(ss, es, k)
    ensures DistinctSlots(Log(es, os, k))
  {
    LogClosed(rs, ss, es, os, k, |es|);
    assert es[..|es|] == es && os[..|es|] == os;
  }

  lemma ClosedStep(rs: RsCode, ss: seq<State>, es: seq<Event>, os: seq<Outcome>, k: Key, i: nat, n: nat)
    requires Run(rs, ss, es, os) && Survives(ss, es, k) && n < |es|
    requires k in ss[n].groups && Closed(ss[n].groups[k], i)
    ensures k in ss[n + 1].groups && Closed(ss[n + 1].groups[k], i)
    ensures For(es[n], k) ==> !Fills(Of(os[n]), i)
  {
    GroupStep(rs, ss, es, os, k, n);
    if For(es[n], k) {
      ReceiveOpens(rs, ss[n].groups[k], es[n].head, es[n].body.value, es[n].now);
    }
  }

  /** No event from `a` up to `t` delivers slot `i` of group `k`. */
  ghost predicate Quiet(es: seq<Event>, os: seq<Outcome>, k: Key, i: nat, a: nat, t: nat)
    requires |es| == |os| && t <= |es|
  {
    forall c :: a <= c < t && For(es[c], k) ==> !Fills(Of(os[c]), i)
  }

  lemma QuietNext(es: seq<Event>, os: seq<Outcome>, k: Key, i: nat, a: nat, t: nat)
    requires |es| == |os| && t < |es| && Quiet(es, os, k, i, a, t)
    requires For(es[t], k) ==> !Fills(Of(os[t]), i)
    ensures Quiet(es, os, k, i, a, t + 1)
  {
  }

  lemma {:induction false} ClosedStays(rs: RsCode, ss: seq<State>, es: seq<Event>, os: seq<Outcome>, k: Key, i: nat,
                                       a: nat, t: nat)
    requires Run(rs, ss, es, os) && Survives(ss, es, k) && a <= t <= |es|
    requires k in ss[a].groups && Closed(ss[a].groups[k], i)
    ensures k in ss[t].groups && Closed(ss[t].groups[k], i)
    ensures Quiet(es, os, k, i, a, t)
  {
    hide Receives, Closed, Fills;
    if a < t {
      ClosedStays(rs, ss, es, os, k, i, a, t - 1);
      ClosedStep(rs, ss, es, os, k, i, t - 1);
      QuietNext(es, os, k, i, a, t - 1);
    }
  }

  /** An original whose receive fails once it is stored is lost for good: its slot counts as
      delivered, so neither a repeat nor recovery brings the packet back while the group lives. */
  lemma LostForGood(rs: RsCode, ss: seq<State>, es: seq<Event>, os: seq<Outcome>, k: Key, a: nat)
    requires Run(rs, ss, es, os) && Survives(ss, es, k) && a < |es|
    requires For(es[a], k) && os[a] == Failed
    requires Accepts(GroupAt(ss[a].groups, k, es[a].now), es[a].body.value)
    ensures Quiet(es, os, k, es[a].body.value.index, a, |es|)
  {
    hide GroupReceive, Receives, Closed, Quiet;
    GroupStep(rs, ss, es, os, k, a);
    var e := es[a];
    ReceiveStores(rs, GroupAt(ss[a].groups, k, e.now), e.head, e.body.value, e.now);
    FailedIsQuiet(es, os, k, e.body.value.index, a);
    ClosedStays(rs, ss, es, os, k, e.body.value.index, a + 1, |es|);
  }

  lemma FailedIsQuiet(es: seq<Event>, os: seq<Outcome>, k: Key, i: nat, a: nat)
    requires |es| == |os| && a < |es| && os[a] == Failed
    ensures Quiet(es, os, k, i, a + 1, |es|) ==> Quiet(es, os, k, i, a, |es|)
  {
  }

  // ---------- eviction and bounds ----------

  /** A receive drops a group only in a due cleanup, and only if it had timed out or the table was full
      of groups at least as new. A group it drops at once may be its own: then every survivor is at
      least as new as this receive. */
  lemma EvictionIsFair(rs: RsCode, s: State, e: Event, t: State, o: Outcome, k: Key)
    requires Receives(rs, s, e.head, e.body, e.now, t, o)
    requires (k in s.groups || For(e, k)) && k !in t.groups
    ensures e.now > s.lastCleanup + 1000
    ensures var full := |t.groups| == 1000;
      if For(e, k) then full && forall l :: l in t.groups ==> e.now <= t.groups[l].lastUpdate
      else
        e.now >= s.groups[k].lastUpdate + 3000
        || (full && forall l :: l in t.groups ==> s.groups[k].lastUpdate <= t.groups[l].lastUpdate)
  {
    var c := Key(e.head.src, e.body.value.groupId);
    var h := GroupReceive(rs, GroupAt(s.groups, c, e.now), e.head, e.body.value, e.now).0;
    var before := s.groups[c := h];
    var young := FreshKeys(before, e.now);
    assert CleanedUp(before, t.groups, e.now);
    if k in young && |young| <= MAX_GROUPS {
      SubsetSize(t.groups.Keys, young);
    }
  }

  /** The receives since the last one that cleaned up, which is the one that set the time of the last
      cleanup. */
  function SinceCleanup(ss: seq<State>, t: nat): nat
    requires t < |ss|
  {
    if t == 0 || ss[t].lastCleanup != ss[t - 1].lastCleanup then 0 else SinceCleanup(ss, t - 1) + 1
  }

  lemma StepSize(rs: RsCode, s: State, e: Event, t: State, o: Outcome)
    requires Receives(rs, s, e.head, e.body, e.now, t, o)
    ensures if t.lastCleanup == s.lastCleanup then |t.groups| <= |s.groups| + 1
            else |t.groups| <= MAX_GROUPS && forall k :: k in t.groups ==> Fresh(t.groups[k], e.now)
  {
    hide GroupReceive;
    if e.body.Some? && e.body.value.index <= MAX_NUM {
      var c := Key(e.head.src, e.body.value.groupId);
      var h := GroupReceive(rs, GroupAt(s.groups, c, e.now), e.head, e.body.value, e.now).0;
      assert s.groups[c := h].Keys == s.groups.Keys + {c};
    }
  }

  /** Over every run: right after a receive that cleaned up, every group is fresh; and at any moment
      there are at most the maximum number of groups and one for each receive since. */
  lemma {:induction false} CleanupBounds(rs: RsCode, ss: seq<State>, es: seq<Event>, os: seq<Outcome>, t: nat)
    requires Run(rs, ss, es, os) && t <= |es| && |ss[0].groups| <= 1000
    ensures |ss[t].groups| <= 1000 + SinceCleanup(ss, t)
    ensures t > 0 && SinceCleanup(ss, t) == 0 ==>
      forall k :: k in ss[t].groups ==> es[t - 1].now < ss[t].groups[k].lastUpdate + 3000
  {
    hide Receives;
    if t > 0 {
      CleanupBounds(rs, ss, es, os, t - 1);
      StepSize(rs, ss[t - 1], es[t - 1], ss[t], os[t - 1]);
    }
  }

  /** Cleanup does happen: after a receive that hands something on, or stores a shard for later, the last
      one is at most a second past; no other receive cleans up. */
  lemma CleanupHappens(rs: RsCode, s: State, e: Event, t: State, o: Outcome)
    requires Receives(rs, s, e.head, e.body, e.now, t, o)
    ensures t.lastCleanup == s.lastCleanup || t.lastCleanup == e.now
    ensures o.Packets? ==> e.now <= t.lastCleanup + 1000
    ensures o.Failed? ==> t.lastCleanup == s.lastCleanup
    ensures o.Nothing? ==>
      var k := Key(e.head.src, e.body.value.groupId);
      e.now <= t.lastCleanup + 1000
      || t == State(s.groups[k := GroupAt(s.groups, k, e.now)], s.lastCleanup)
  {
    hide CleanedUp, Settled, StoredParity, StoredOriginal;
  }

  // ---------- what is refused, and what a shard does to the age and the numbers of its group ----------

  /** A shard of a group that is not over is ignored if its slot is filled, and refused if it is parity
      that states more than fifty shards of a kind, does not count its own slot, or contradicts numbers
      the group has; refused or ignored it changes nothing. Any other shard fills its slot or ends the
      group, and makes the group as young as the clock. */
  lemma ReceiveRefuses(rs: RsCode, g: FecGroup, head: Header, f: FecPacket, now: nat)
    requires !(g.data != 0 && g.count == g.data)
    ensures var (h, o) := GroupReceive(rs, g, head, f, now);
      if f.index < |g.shards| && g.shards[f.index].Some? then h == g && o == Nothing
      else if f.parityData.Some? && Contradicts(g, f.index, f.parityData.value) then h == g && o == Failed
      else h.lastUpdate == now && Closed(h, f.index)
  {
    hide DecodedWithRs;
    if Accepts(g, f) {
      ReceiveStores(rs, g, head, f, now);
    }
  }

  predicate Contradicts(g: FecGroup, index: nat, p: ParityData) {
    || p.dataShards > 50 || p.parityShards > 50 || index >= p.dataShards + p.parityShards
    || g.data !in {0, p.dataShards} || g.parity !in {0, p.parityShards}
  }

  lemma ReceiveStores(rs: RsCode, g: FecGroup, head: Header, f: FecPacket, now: nat)
    requires Accepts(g, f)
    ensures var h := GroupReceive(rs, g, head, f, now).0; h.lastUpdate == now && Closed(h, f.index)
    ensures var h := GroupReceive(rs, g, head, f, now).0;
      if f.parityData.Some? then
        h.data == f.parityData.value.dataShards && h.parity == f.parityData.value.parityShards
      else h.data == g.data && h.parity == g.parity
  {
    var direct := if f.parityData.Some? then [] else [Delivery(f.index, Direct(head, f.payload))];
    var s :=
      if f.parityData.Some? then StoredParity(g, f, f.parityData.value, now) else StoredOriginal(g, head, f, now);
    assert HasShard(s, f.index);
    SettledCloses(rs, s, head, direct, f.index);
    SettledParts(rs, s, head, direct);
    TriedKeeps(rs, s, head);
    hide Settled, Tried;
  }

  lemma TriedKeeps(rs: RsCode, s: FecGroup, head: Header)
    ensures var h := Tried(rs, s, head).0; h.lastUpdate == s.lastUpdate && h.data == s.data && h.parity == s.parity
  {
  }

  /** The numbers of shards of a group, once known, stay for its life, whatever is sent. */
  lemma {:induction false} ShardCountsFixed(rs: RsCode, ss: seq<State>, es: seq<Event>, os: seq<Outcome>, k: Key,
                                            a: nat, t: nat)
    requires Run(rs, ss, es, os) && Survives(ss, es, k) && a <= t <= |es| && k in ss[a].groups
    ensures k in ss[t].groups
    ensures ss[a].groups[k].data != 0 ==> ss[t].groups[k].data == ss[a].groups[k].data
    ensures ss[a].groups[k].parity != 0 ==> ss[t].groups[k].parity == ss[a].groups[k].parity
  {
    hide Receives, GroupReceive;
    if a < t {
      var n := t - 1;
      ShardCountsFixed(rs, ss, es, os, k, a, n);
      GroupStep(rs, ss, es, os, k, n);
      if For(es[n], k) {
        CountsKept(rs, ss[n].groups[k], es[n].head, es[n].body.value, es[n].now);
      }
    }
  }

  lemma CountsKept(rs: RsCode, g: FecGroup, head: Header, f: FecPacket, now: nat)
    ensures var h := GroupReceive(rs, g, head, f, now).0;
      (g.data != 0 ==> h.data == g.data) && (g.parity != 0 ==> h.parity == g.parity)
  {
    if Accepts(g, f) {
      ReceiveStores(rs, g, head, f, now);
    }
    hide Settled;
  }

  /** No sender can make a group grow beyond its bounds. */
  predicate Bounded(g: FecGroup) {
    g.data <= 50 && g.parity <= 50 && |g.shards| <= 100
  }

  lemma ReceiveBounded(rs: RsCode, g: FecGroup, head: Header, f: FecPacket, now: nat)
    requires Bounded(g) && f.index <= MAX_NUM
    ensures Bounded(GroupReceive(rs, g, head, f, now).0)
  {
  }

  lemma {:induction false} AlwaysBounded(rs: RsCode, ss: seq<State>, es: seq<Event>, os: seq<Outcome>, t: nat)
    requires Run(rs, ss, es, os) && t <= |es|
    requires forall k :: k in ss[0].groups ==> Bounded(ss[0].groups[k])
    ensures forall k :: k in ss[t].groups ==> Bounded(ss[t].groups[k])
  {
    if t > 0 {
      AlwaysBounded(rs, ss, es, os, t - 1);
      BoundedStep(rs, ss[t - 1], es[t - 1], ss[t], os[t - 1]);
    }
  }

  lemma BoundedStep(rs: RsCode, s: State, e: Event, t: State, o: Outcome)
    requires Receives(rs, s, e.head, e.body, e.now, t, o)
    requires forall k :: k in s.groups ==> Bounded(s.groups[k])
    ensures forall k :: k in t.groups ==> Bounded(t.groups[k])
  {
    hide GroupReceive;
    if e.body.Some? && e.body.value.index <= MAX_NUM {
      var c := Key(e.head.src, e.body.value.groupId);
      ReceiveBounded(rs, GroupAt(s.groups, c, e.now), e.head, e.body.value, e.now);
    }
  }
}
