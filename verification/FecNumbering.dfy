/** What the encoder's numbering promises the decoder, over every interleaving of packets and timer
    ticks: a (destination, group, index) triple is handed out once, and the batch flushed for a group
    is exactly the packets numbered into that group. */
module FecNumbering {
  import opened Basics
  import opened ErasureCode
  import opened FecEncoder

  datatype Numbered = Numbered(dest: Ip, groupId: nat, index: nat, shard: Shard)

  /** The encoder's states with everything it has numbered and flushed so far. */
  datatype History = History(states: States, numbered: seq<Numbered>, flushed: seq<Flush>)

  datatype Action =
    | AddPacket(src: Ip, dest: Ip, shard: Shard, now: nat)
    | TimerTick(now: nat, order: seq<Ip>)

  const START := History(map[], [], [])

  /** One action; a tick may visit the destinations in any order. */
  ghost predicate Step(h: History, a: Action, n: History) {
    match a
    case AddPacket(src, dest, shard, now) =>
      var s := StateOf(h.states, src, dest, now);
      n == History(Added(h.states, src, dest, shard, now),
                   h.numbered + [Numbered(dest, s.groupId, |s.batch|, shard)],
                   h.flushed + AddFlush(h.states, src, dest, shard, now))
    case TimerTick(now, order) =>
      && Enumerates(order, h.states.Keys)
      && n == History(Ticked(h.states, now), h.numbered, h.flushed + DueFlushes(h.states, order, now))
  }

  /** The histories a fresh encoder goes through. */
  ghost predicate Run(hs: seq<History>, actions: seq<Action>) {
    && |hs| == |actions| + 1
    && hs[0] == START
    && forall i {:trigger actions[i]} :: 0 <= i < |actions| ==> Step(hs[i], actions[i], hs[i + 1])
  }

  /** The shards numbered into one group, in the order of numbering. */
  function Members(log: seq<Numbered>, dest: Ip, groupId: nat): seq<Shard> {
    if log == [] then []
    else
      var a := log[|log| - 1];
      Members(log[..|log| - 1], dest, groupId) + if a.dest == dest && a.groupId == groupId then [a.shard] else []
  }

  lemma MembersAdd(log: seq<Numbered>, a: Numbered, dest: Ip, groupId: nat)
    ensures Members(log + [a], dest, groupId)
         == Members(log, dest, groupId) + if a.dest == dest && a.groupId == groupId then [a.shard] else []
  {
    assert (log + [a])[..|log|] == log;
  }

  lemma {:induction false} MembersPrefix(log: seq<Numbered>, n: nat, dest: Ip, groupId: nat)
    requires n <= |log|
    ensures Members(log[..n], dest, groupId) <= Members(log, dest, groupId)
  {
    if n < |log| {
      var front := log[..|log| - 1];
      assert front[..n] == log[..n];
      MembersPrefix(front, n, dest, groupId);
    } else {
      assert log[..n] == log;
    }
  }

  // ---------- the invariant ----------

  /** Each index is the number of packets its group had before. */
  ghost predicate IndexesCount(log: seq<Numbered>) {
    forall i :: 0 <= i < |log| ==> log[i].index == |Members(log[..i], log[i].dest, log[i].groupId)|
  }

  /** The open batch of a destination is the membership of its current group; later groups are empty. */
  ghost predicate OpenBatches(h: History) {
    && (forall d, g: nat :: d !in h.states ==> Members(h.numbered, d, g) == [])
    && (forall d, g: nat :: d in h.states && g > h.states[d].groupId ==> Members(h.numbered, d, g) == [])
    && (forall d :: d in h.states ==>
          Members(h.numbered, d, h.states[d].groupId) == h.states[d].batch && |h.states[d].batch| < BATCH_SIZE)
  }

  ghost predicate FlushOk(h: History, f: Flush) {
    && f.dest in h.states && f.groupId < h.states[f.dest].groupId
    && f.batch == Members(h.numbered, f.dest, f.groupId)
    && 1 <= |f.batch| <= BATCH_SIZE
  }

  predicate InGroup(f: Flush, dest: Ip, groupId: nat) {
    f.dest == dest && f.groupId == groupId
  }

  predicate WasFlushed(fs: seq<Flush>, dest: Ip, groupId: nat) {
    exists i :: 0 <= i < |fs| && InGroup(fs[i], dest, groupId)
  }

  ghost predicate Distinct(fs: seq<Flush>) {
    forall i, j :: 0 <= i < j < |fs| ==> !InGroup(fs[j], fs[i].dest, fs[i].groupId)
  }

  /** Every closed group has been flushed. */
  ghost predicate NoneSkipped(h: History) {
    forall d, g: nat :: d in h.states && g < h.states[d].groupId ==> WasFlushed(h.flushed, d, g)
  }

  ghost predicate Inv(h: History) {
    && IndexesCount(h.numbered)
    && OpenBatches(h)
    && (forall i :: 0 <= i < |h.flushed| ==> FlushOk(h, h.flushed[i]))
    && Distinct(h.flushed)
    && NoneSkipped(h)
  }

  // ---------- every action keeps it ----------

  lemma AddKeepsIndexes(h: History, a: Action, n: History)
    requires Inv(h) && a.AddPacket? && Step(h, a, n)
    ensures IndexesCount(n.numbered)
  {
    var log := n.numbered;
    forall i | 0 <= i < |log| ensures log[i].index == |Members(log[..i], log[i].dest, log[i].groupId)| {
      if i == |h.numbered| {
        assert log[..i] == h.numbered;
      } else {
        assert log[..i] == h.numbered[..i];
      }
    }
  }

  lemma AddedMembers(h: History, a: Action, n: History, d: Ip, g: nat)
    requires a.AddPacket? && Step(h, a, n)
    ensures Members(n.numbered, d, g) == Members(h.numbered, d, g)
      + if a.dest == d && StateOf(h.states, a.src, a.dest, a.now).groupId == g then [a.shard] else []
  {
    MembersAdd(h.numbered, n.numbered[|h.numbered|], d, g);
  }

  lemma AddKeepsOpen(h: History, a: Action, n: History)
    requires Inv(h) && a.AddPacket? && Step(h, a, n)
    ensures OpenBatches(n)
  {
    forall d, g: nat ensures d !in n.states ==> Members(n.numbered, d, g) == [] {
      AddedMembers(h, a, n, d, g);
    }
    forall d, g: nat ensures d in n.states && g > n.states[d].groupId ==> Members(n.numbered, d, g) == [] {
      AddedMembers(h, a, n, d, g);
    }
    forall d | d in n.states
      ensures Members(n.numbered, d, n.states[d].groupId) == n.states[d].batch && |n.states[d].batch| < BATCH_SIZE
    {
      AddedMembers(h, a, n, d, n.states[d].groupId);
      if d != a.dest {
        assert n.states[d] == h.states[d];
      }
    }
  }

  lemma AddKeepsFlushes(h: History, a: Action, n: History, i: nat)
    requires Inv(h) && a.AddPacket? && Step(h, a, n) && i < |n.flushed|
    ensures FlushOk(n, n.flushed[i])
    ensures forall j :: 0 <= j < i ==> !InGroup(n.flushed[i], n.flushed[j].dest, n.flushed[j].groupId)
  {
    var f := n.flushed[i];
    AddedMembers(h, a, n, f.dest, f.groupId);
    if i < |h.flushed| {
      assert FlushOk(h, h.flushed[i]);
    }
    forall j | 0 <= j < i ensures !InGroup(f, n.flushed[j].dest, n.flushed[j].groupId) {
      assert n.flushed[j] == h.flushed[j] && FlushOk(h, h.flushed[j]);
    }
  }

  lemma FlushedStays(h: History, fs: seq<Flush>, n: History, d: Ip, g: nat)
    requires n.flushed == h.flushed + fs
    requires WasFlushed(h.flushed, d, g) || WasFlushed(fs, d, g)
    ensures WasFlushed(n.flushed, d, g)
  {
    if WasFlushed(h.flushed, d, g) {
      var i :| 0 <= i < |h.flushed| && InGroup(h.flushed[i], d, g);
      assert InGroup(n.flushed[i], d, g);
    } else {
      var i :| 0 <= i < |fs| && InGroup(fs[i], d, g);
      assert InGroup(n.flushed[|h.flushed| + i], d, g);
    }
  }

  lemma AddSkipsNone(h: History, a: Action, n: History, d: Ip, g: nat)
    requires Inv(h) && a.AddPacket? && Step(h, a, n)
    requires d in n.states && g < n.states[d].groupId
    ensures WasFlushed(n.flushed, d, g)
  {
    var fs := AddFlush(h.states, a.src, a.dest, a.shard, a.now);
    if !(d in h.states && g < h.states[d].groupId) {
      assert InGroup(fs[0], d, g);
    }
    FlushedStays(h, fs, n, d, g);
  }

  lemma TickKeepsFlushes(h: History, a: Action, n: History, i: nat)
    requires Inv(h) && a.TimerTick? && Step(h, a, n) && i < |n.flushed|
    ensures FlushOk(n, n.flushed[i])
    ensures forall j :: 0 <= j < i ==> !InGroup(n.flushed[i], n.flushed[j].dest, n.flushed[j].groupId)
  {
    var fs := DueFlushes(h.states, a.order, a.now);
    DueFlushesOnce(h.states, a.order, a.now);
    var before := |h.flushed|;
    if i < before {
      assert FlushOk(h, h.flushed[i]);
    } else {
      assert n.flushed[i] == fs[i - before] && fs[i - before] in fs;
    }
    forall j | 0 <= j < i ensures !InGroup(n.flushed[i], n.flushed[j].dest, n.flushed[j].groupId) {
      if j < before {
        assert n.flushed[j] == h.flushed[j] && FlushOk(h, h.flushed[j]);
      } else {
        assert n.flushed[j] == fs[j - before];
      }
    }
  }

  lemma TickSkipsNone(h: History, a: Action, n: History, d: Ip, g: nat)
    requires Inv(h) && a.TimerTick? && Step(h, a, n)
    requires d in n.states && g < n.states[d].groupId
    ensures WasFlushed(n.flushed, d, g)
  {
    var fs := DueFlushes(h.states, a.order, a.now);
    DueFlushesOnce(h.states, a.order, a.now);
    if g >= h.states[d].groupId {
      var i :| 0 <= i < |fs| && fs[i] == FlushOf(h.states, d);
      assert InGroup(fs[i], d, g);
    }
    FlushedStays(h, fs, n, d, g);
  }

  lemma StepKeeps(h: History, a: Action, n: History)
    requires Inv(h) && Step(h, a, n)
    ensures Inv(n)
  {
    if a.AddPacket? {
      AddKeepsIndexes(h, a, n);
      AddKeepsOpen(h, a, n);
      forall i: nat | i < |n.flushed|
        ensures FlushOk(n, n.flushed[i])
        ensures forall j :: 0 <= j < i ==> !InGroup(n.flushed[i], n.flushed[j].dest, n.flushed[j].groupId)
      {
        AddKeepsFlushes(h, a, n, i);
      }
      forall d, g: nat | d in n.states && g < n.states[d].groupId ensures WasFlushed(n.flushed, d, g) {
        AddSkipsNone(h, a, n, d, g);
      }
    } else {
      forall i: nat | i < |n.flushed|
        ensures FlushOk(n, n.flushed[i])
        ensures forall j :: 0 <= j < i ==> !InGroup(n.flushed[i], n.flushed[j].dest, n.flushed[j].groupId)
      {
        TickKeepsFlushes(h, a, n, i);
      }
      forall d, g: nat | d in n.states && g < n.states[d].groupId ensures WasFlushed(n.flushed, d, g) {
        TickSkipsNone(h, a, n, d, g);
      }
    }
  }

  lemma {:induction false} InvAlways(hs: seq<History>, actions: seq<Action>, t: nat)
    requires Run(hs, actions) && t < |hs|
    ensures Inv(hs[t])
  {
    if t > 0 {
      InvAlways(hs, actions, t - 1);
      StepKeeps(hs[t - 1], actions[t - 1], hs[t]);
    }
  }

  lemma {:induction false} FlushesStay(hs: seq<History>, actions: seq<Action>, s: nat, t: nat)
    requires Run(hs, actions) && s <= t < |hs|
    ensures hs[s].flushed <= hs[t].flushed
  {
    if s < t {
      FlushesStay(hs, actions, s, t - 1);
      assert Step(hs[t - 1], actions[t - 1], hs[t]);
    }
  }

  // ---------- what follows for every run ----------

  /** No (destination, group, index) is ever handed out twice. */
  lemma NumberedOnce(hs: seq<History>, actions: seq<Action>, t: nat, i: nat, j: nat)
    requires Run(hs, actions) && t < |hs| && i < j < |hs[t].numbered|
    ensures var a, b := hs[t].numbered[i], hs[t].numbered[j];
      !(a.dest == b.dest && a.groupId == b.groupId && a.index == b.index)
  {
    InvAlways(hs, actions, t);
    var log := hs[t].numbered;
    if log[i].dest == log[j].dest && log[i].groupId == log[j].groupId {
      IndexesGrow(log, i, j);
    }
  }

  lemma IndexesGrow(log: seq<Numbered>, i: nat, j: nat)
    requires IndexesCount(log) && i < j < |log|
    requires log[i].dest == log[j].dest && log[i].groupId == log[j].groupId
    ensures log[i].index < log[j].index
  {
    var a := log[i];
    var upto := log[..j];
    assert upto[..i + 1] == log[..i] + [a];
    MembersAdd(log[..i], a, a.dest, a.groupId);
    MembersPrefix(upto, i + 1, a.dest, a.groupId);
  }

  /** A member of a group sits in it at its own index. */
  lemma MemberAtIndex(log: seq<Numbered>, i: nat)
    requires IndexesCount(log) && i < |log|
    ensures var ms := Members(log, log[i].dest, log[i].groupId);
      log[i].index < |ms| && ms[log[i].index] == log[i].shard
  {
    MembersAdd(log[..i], log[i], log[i].dest, log[i].groupId);
    assert log[..i] + [log[i]] == log[..i + 1];
    MembersPrefix(log, i + 1, log[i].dest, log[i].groupId);
  }

  /** A batch flushed by time `s` is, at any later time `t`, still the whole of its group: its entries
      are the group's packets at their own indices, there are at most ten, no packet numbered since
      belongs to it, and no other flush is for the same group. */
  lemma FlushedBatchIsItsGroup(hs: seq<History>, actions: seq<Action>, s: nat, t: nat, c: nat)
    requires Run(hs, actions) && s <= t < |hs| && c < |hs[s].flushed|
    ensures var f, log := hs[s].flushed[c], hs[t].numbered;
      && f.batch == Members(log, f.dest, f.groupId) && 1 <= |f.batch| <= BATCH_SIZE
      && (forall i :: 0 <= i < |log| && log[i].dest == f.dest && log[i].groupId == f.groupId
            ==> log[i].index < |f.batch| && f.batch[log[i].index] == log[i].shard)
    ensures forall e ::
      0 <= e < |hs[t].flushed| && InGroup(hs[t].flushed[e], hs[s].flushed[c].dest, hs[s].flushed[c].groupId) ==> e == c
  {
    InvAlways(hs, actions, t);
    FlushesStay(hs, actions, s, t);
    var h := hs[t];
    var f := h.flushed[c];
    assert FlushOk(h, f);
    forall i | 0 <= i < |h.numbered| && h.numbered[i].dest == f.dest && h.numbered[i].groupId == f.groupId
      ensures h.numbered[i].index < |f.batch| && f.batch[h.numbered[i].index] == h.numbered[i].shard
    {
      MemberAtIndex(h.numbered, i);
    }
  }

  /** Nothing numbered is forgotten: a packet is in the open batch of its destination, or in the
      flushed batch of its group. */
  lemma NothingForgotten(hs: seq<History>, actions: seq<Action>, t: nat, i: nat)
    requires Run(hs, actions) && t < |hs| && i < |hs[t].numbered|
    ensures var h, a := hs[t], hs[t].numbered[i];
      && a.dest in h.states && a.groupId <= h.states[a.dest].groupId
      && (a.groupId == h.states[a.dest].groupId
          ==> a.index < |h.states[a.dest].batch| && h.states[a.dest].batch[a.index] == a.shard)
      && (a.groupId < h.states[a.dest].groupId ==> WasFlushed(h.flushed, a.dest, a.groupId))
  {
    InvAlways(hs, actions, t);
    MemberAtIndex(hs[t].numbered, i);
  }

  // ---------- where a flush comes from ----------

  /** Every packet for `dest` comes from `src`, as it does on a client, which sends under its own address. */
  ghost predicate AllFrom(actions: seq<Action>, dest: Ip, src: Ip) {
    forall i {:trigger actions[i]} ::
      0 <= i < |actions| && actions[i].AddPacket? && actions[i].dest == dest ==> actions[i].src == src
  }

  /** The batch of `dest` and all its flushes have the source `src`. */
  ghost predicate FromOnly(h: History, dest: Ip, src: Ip) {
    && (dest in h.states ==> h.states[dest].src == src)
    && forall c :: 0 <= c < |h.flushed| && h.flushed[c].dest == dest ==> h.flushed[c].src == src
  }

  lemma AddFrom(h: History, a: Action, n: History, dest: Ip, src: Ip)
    requires a.AddPacket? && Step(h, a, n) && FromOnly(h, dest, src) && (a.dest == dest ==> a.src == src)
    ensures FromOnly(n, dest, src)
  {
  }

  lemma TickFrom(h: History, a: Action, n: History, dest: Ip, src: Ip)
    requires a.TimerTick? && Step(h, a, n) && FromOnly(h, dest, src)
    ensures FromOnly(n, dest, src)
  {
    DueFlushesOnce(h.states, a.order, a.now);
    var fs := DueFlushes(h.states, a.order, a.now);
    hide DueFlushes;
    forall c | |h.flushed| <= c < |n.flushed| && n.flushed[c].dest == dest ensures n.flushed[c].src == src {
      assert n.flushed[c] == fs[c - |h.flushed|] && fs[c - |h.flushed|] in fs;
    }
  }

  /** Then so does every flush for that destination, whether a full batch or the timer caused it. */
  lemma {:induction false} FlushedFrom(hs: seq<History>, actions: seq<Action>, dest: Ip, src: Ip, t: nat)
    requires Run(hs, actions) && AllFrom(actions, dest, src) && t < |hs|
    ensures dest in hs[t].states ==> hs[t].states[dest].src == src
    ensures forall c :: 0 <= c < |hs[t].flushed| && hs[t].flushed[c].dest == dest ==> hs[t].flushed[c].src == src
  {
    hide Step;
    if t > 0 {
      var h, a, n := hs[t - 1], actions[t - 1], hs[t];
      FlushedFrom(hs, actions, dest, src, t - 1);
      assert Step(h, a, n);
      if a.AddPacket? {
        AddFrom(h, a, n, dest, src);
      } else {
        TickFrom(h, a, n, dest, src);
      }
    }
  }

  /** The source of the first packet for a destination. */
  function FirstSource(actions: seq<Action>, dest: Ip): Option<Ip> {
    if actions == [] then None
    else
      var r, a := FirstSource(actions[..|actions| - 1], dest), actions[|actions| - 1];
      if r.None? && a.AddPacket? && a.dest == dest then Some(a.src) else r
  }

  lemma {:induction false} StateSource(hs: seq<History>, actions: seq<Action>, dest: Ip, t: nat)
    requires Run(hs, actions) && t <= |actions|
    ensures FirstSource(actions[..t], dest) == if dest in hs[t].states then Some(hs[t].states[dest].src) else None
  {
    if t > 0 {
      StateSource(hs, actions, dest, t - 1);
      assert Step(hs[t - 1], actions[t - 1], hs[t]);
      assert actions[..t][..t - 1] == actions[..t - 1];
    }
  }

  /** Whose parity a flush is, sources mixed or not: a full batch is flushed as from its last packet's
      source, a late one as from the source of the first packet its destination ever got. */
  lemma FlushSource(hs: seq<History>, actions: seq<Action>, t: nat, c: nat)
    requires Run(hs, actions) && t < |actions| && |hs[t].flushed| <= c < |hs[t + 1].flushed|
    ensures var a, f := actions[t], hs[t + 1].flushed[c];
      if a.AddPacket? then f.src == a.src && f.dest == a.dest
      else FirstSource(actions[..t], f.dest) == Some(f.src)
  {
    var h, a, n := hs[t], actions[t], hs[t + 1];
    assert Step(h, a, n);
    StateSource(hs, actions, n.flushed[c].dest, t);
    if a.TimerTick? {
      DueFlushesOnce(h.states, a.order, a.now);
      var fs := DueFlushes(h.states, a.order, a.now);
      hide DueFlushes;
      assert n.flushed[c] == fs[c - |h.flushed|] && fs[c - |h.flushed|] in fs;
    }
  }
}
