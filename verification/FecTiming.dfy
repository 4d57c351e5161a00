/** How long the encoder lets a packet wait: a batch is flushed by the first tick that comes 20 ms or more
    after its destination's last flush, or its first packet ever, so no tick leaves an older packet. */
module FecTiming {
  import opened Basics
  import opened ErasureCode
  import opened FecEncoder
  import opened FecNumbering

  function TimeOf(a: Action): nat {
    a.now
  }

  /** The clock does not run backwards. */
  ghost predicate ClockRuns(actions: seq<Action>) {
    forall i, j {:trigger actions[i], actions[j]} ::
      0 <= i <= j < |actions| ==> TimeOf(actions[i]) <= TimeOf(actions[j])
  }

  /** When the current group of a destination was opened: the last action that created the destination
      or changed its group. */
  function OpenedAt(hs: seq<History>, actions: seq<Action>, d: Ip, t: nat): nat
    requires |hs| == |actions| + 1 && t < |hs|
  {
    if t == 0 then 0
    else if d in hs[t].states && (d !in hs[t - 1].states || hs[t - 1].states[d].groupId != hs[t].states[d].groupId)
    then TimeOf(actions[t - 1])
    else OpenedAt(hs, actions, d, t - 1)
  }

  lemma {:induction false} DeadlineIs(hs: seq<History>, actions: seq<Action>, d: Ip, t: nat)
    requires Run(hs, actions) && t < |hs| && d in hs[t].states
    ensures hs[t].states[d].deadline == OpenedAt(hs, actions, d, t) + 20
  {
    if t > 0 {
      assert Step(hs[t - 1], actions[t - 1], hs[t]);
      if d in hs[t - 1].states {
        DeadlineIs(hs, actions, d, t - 1);
      }
    }
  }

  /** A tick closes the open batch of a destination exactly when it has a packet and its group has been
      open for 20 ms; the next group is then open and empty, and what is flushed is that batch. */
  lemma TickFlushesIff(hs: seq<History>, actions: seq<Action>, d: Ip, t: nat)
    requires Run(hs, actions) && t < |actions| && actions[t].TimerTick? && d in hs[t].states
    ensures var s, n := hs[t].states[d], hs[t + 1].states;
      && d in n
      && var late := s.batch != [] && actions[t].now >= OpenedAt(hs, actions, d, t) + 20;
         && n[d].groupId == (if late then s.groupId + 1 else s.groupId)
         && n[d].batch == (if late then [] else s.batch)
         && (late <==> FlushedBetween(hs[t], hs[t + 1], d))
  {
    assert Step(hs[t], actions[t], hs[t + 1]);
    DeadlineIs(hs, actions, d, t);
    StepFlushes(hs[t], actions[t], hs[t + 1], d);
    hide DueFlushes, FlushedBetween, Run, OpenedAt;
  }

  /** What was flushed since includes a batch for this destination. */
  ghost predicate FlushedBetween(h: History, n: History, d: Ip) {
    exists c {:trigger n.flushed[c]} :: |h.flushed| <= c < |n.flushed| && n.flushed[c].dest == d
  }

  lemma StepFlushes(h: History, a: Action, n: History, d: Ip)
    requires a.TimerTick? && Step(h, a, n) && d in h.states
    ensures Due(h.states[d], a.now) <==> FlushedBetween(h, n, d)
  {
    DueFlushesOnce(h.states, a.order, a.now);
    var fs := DueFlushes(h.states, a.order, a.now);
    hide Due, DueFlushes;
    if Due(h.states[d], a.now) {
      assert d in a.order;
      var c :| 0 <= c < |fs| && fs[c] == FlushOf(h.states, d);
      assert n.flushed[|h.flushed| + c].dest == d;
    }
    if FlushedBetween(h, n, d) {
      var c :| |h.flushed| <= c < |n.flushed| && n.flushed[c].dest == d;
      assert n.flushed[c] == fs[c - |h.flushed|] && fs[c - |h.flushed|] in fs;
    }
  }

  /** The group a packet was numbered into. */
  function GroupOf(h: History, a: Action): nat
    requires a.AddPacket?
  {
    StateOf(h.states, a.src, a.dest, a.now).groupId
  }

  lemma {:induction false} GroupsGrow(hs: seq<History>, actions: seq<Action>, d: Ip, s: nat, t: nat)
    requires Run(hs, actions) && s <= t < |hs| && d in hs[s].states
    ensures d in hs[t].states && hs[s].states[d].groupId <= hs[t].states[d].groupId
  {
    if s < t {
      GroupsGrow(hs, actions, d, s, t - 1);
      assert Step(hs[t - 1], actions[t - 1], hs[t]);
    }
  }

  /** The group a packet is numbered into was open by then. */
  lemma {:induction false} OpenedBefore(hs: seq<History>, actions: seq<Action>, i: nat, t: nat)
    requires Run(hs, actions) && ClockRuns(actions) && i < t < |hs| && actions[i].AddPacket?
    requires var d := actions[i].dest; d in hs[t].states && hs[t].states[d].groupId == GroupOf(hs[i], actions[i])
    ensures OpenedAt(hs, actions, actions[i].dest, t) <= actions[i].now
  {
    var d := actions[i].dest;
    assert Step(hs[i], actions[i], hs[i + 1]);
    if t > i + 1 {
      GroupsGrow(hs, actions, d, i + 1, t - 1);
      GroupsGrow(hs, actions, d, t - 1, t);
      OpenedBefore(hs, actions, i, t - 1);
    } else {
      OpenedAtPast(hs, actions, d, i);
    }
  }

  lemma {:induction false} OpenedAtPast(hs: seq<History>, actions: seq<Action>, d: Ip, t: nat)
    requires Run(hs, actions) && ClockRuns(actions) && t < |actions|
    ensures OpenedAt(hs, actions, d, t) <= TimeOf(actions[t])
  {
    if t > 0 {
      assert TimeOf(actions[t - 1]) <= TimeOf(actions[t]);
      OpenedAtPast(hs, actions, d, t - 1);
    }
  }

  /** After a tick no open batch holds a packet that is 20 ms old: every packet numbered so far is younger
      than that or has been flushed. */
  lemma NoPacketWaitsLonger(hs: seq<History>, actions: seq<Action>, t: nat, i: nat)
    requires Run(hs, actions) && ClockRuns(actions) && t < |actions| && actions[t].TimerTick?
    requires i < t && actions[i].AddPacket? && actions[t].now >= actions[i].now + 20
    ensures WasFlushed(hs[t + 1].flushed, actions[i].dest, GroupOf(hs[i], actions[i]))
  {
    var d, g := actions[i].dest, GroupOf(hs[i], actions[i]);
    assert Step(hs[i], actions[i], hs[i + 1]);
    GroupsGrow(hs, actions, d, i + 1, t);
    TickFlushesIff(hs, actions, d, t);
    InvAlways(hs, actions, t + 1);
    if hs[t].states[d].groupId == g {
      OpenedBefore(hs, actions, i, t);
      NumberedIsOpen(hs, actions, i, t);
    }
    assert NoneSkipped(hs[t + 1]);
  }

  /** While its group is the open one, a numbered packet lies in the open batch. */
  lemma {:induction false} NumberedIsOpen(hs: seq<History>, actions: seq<Action>, i: nat, t: nat)
    requires Run(hs, actions) && i < t < |hs| && actions[i].AddPacket?
    requires var d := actions[i].dest; d in hs[t].states && hs[t].states[d].groupId == GroupOf(hs[i], actions[i])
    ensures hs[t].states[actions[i].dest].batch != []
  {
    var d := actions[i].dest;
    assert Step(hs[i], actions[i], hs[i + 1]);
    if t > i + 1 {
      GroupsGrow(hs, actions, d, i + 1, t - 1);
      GroupsGrow(hs, actions, d, t - 1, t);
      NumberedIsOpen(hs, actions, i, t - 1);
      assert Step(hs[t - 1], actions[t - 1], hs[t]);
    }
  }
}
