/** The route table under concurrency: every operation as the sequence of lock-level steps it takes,
    run by any number of threads in any interleaving. */
module RouteLocks {
  import opened Basics
  import opened RouteList
  import opened RouteTable
  import opened RouteRuns

  /** The table lock has two modes; the other two are mutexes. */
  datatype Lock = TableRead | TableWrite | OwnerLock | TimeLock

  function Rank(l: Lock): nat {
    match l
    case TableRead => 0
    case TableWrite => 0
    case OwnerLock => 1
    case TimeLock => 2
  }

  predicate Conflicts(a: Lock, b: Lock) {
    Rank(a) == Rank(b) && !(a == TableRead && b == TableRead)
  }

  /** The locks one thread holds. */
  datatype Locks = Locks(read: bool, write: bool, owner: bool, time: bool) {
    predicate Has(l: Lock) {
      match l
      case TableRead => read
      case TableWrite => write
      case OwnerLock => owner
      case TimeLock => time
    }

    function Set(l: Lock, on: bool): Locks {
      match l
      case TableRead => this.(read := on)
      case TableWrite => this.(write := on)
      case OwnerLock => this.(owner := on)
      case TimeLock => this.(time := on)
    }
  }

  const NO_LOCKS := Locks(false, false, false, false)

  datatype Instr =
    | Acquire(l: Lock)
    | Release(l: Lock)
    | PutOwner(id: Ip, key: RouteKey)
    | Stamp(id: Ip, key: RouteKey)
    | Push(id: Ip, route: Route)
    | Admit(id: Ip, route: Route, stop: Code)
    | PlaceRoute(id: Ip, route: Route)
    | CheckAbsent(id: Ip, stop: Code)
    | RemoveAll(id: Ip, key: RouteKey)
    | Collect(limit: nat)
    | StopIfNone
    | DropEach

  datatype Code = Done | Then(first: Instr, rest: Code)

  // ---------- the operations ----------

  function AddOwnerCode(id: Ip, r: Route): Code {
    Then(Acquire(TableWrite),
    Then(Acquire(OwnerLock), Then(PutOwner(id, r.key), Then(Release(OwnerLock),
    Then(Acquire(TimeLock), Then(Stamp(id, r.key), Then(Release(TimeLock),
    Then(Push(id, r),
    Then(Release(TableWrite), Done)))))))))
  }

  function AddRouteCode(id: Ip, r: Route): Code {
    var leave := Then(Release(OwnerLock), Then(Release(TableWrite), Done));
    Then(Acquire(TableWrite), Then(Acquire(OwnerLock),
    Then(Admit(id, r, leave),
    Then(Acquire(TimeLock), Then(Stamp(id, r.key), Then(Release(TimeLock),
    Then(PlaceRoute(id, r),
    leave)))))))
  }

  function RemoveCode(id: Ip, key: RouteKey): Code {
    Then(Acquire(TableWrite), Then(Acquire(OwnerLock), Then(Acquire(TimeLock),
    Then(RemoveAll(id, key),
    Then(Release(TimeLock), Then(Release(OwnerLock), Then(Release(TableWrite), Done)))))))
  }

  function SweepCode(limit: nat): Code {
    Then(Acquire(TimeLock), Then(Collect(limit), Then(Release(TimeLock), SWEEP_REST)))
  }

  const SWEEP_REST :=
    Then(StopIfNone,
    Then(Acquire(TableWrite), Then(Acquire(OwnerLock),
    Then(DropEach,
    Then(Release(OwnerLock), Then(Release(TableWrite), Done))))))

  function CodeOf(op: Op, rtt: u32): Code {
    match op
    case AddOwner(id, key) => AddOwnerCode(id, Route(key, 1, rtt))
    case AddRoute(id, r) => AddRouteCode(id, r)
    case AddIfAbsent(id, r) =>
      Then(Acquire(TableRead), Then(CheckAbsent(id, Then(Release(TableRead), Done)),
      Then(Release(TableRead), AddRouteCode(id, r))))
    case Remove(id, key) => RemoveCode(id, key)
    case Sweep(limit) => SweepCode(limit)
  }

  /** The look-ups: one under the table's read lock, one under the owner lock. */
  const LOOK_UP_ROUTE := Then(Acquire(TableRead), Then(Release(TableRead), Done))
  const LOOK_UP_OWNER := Then(Acquire(OwnerLock), Then(Release(OwnerLock), Done))

  // ---------- the machine ----------

  type Tid = nat

  /** A running operation: what is left to do, the locks it holds and the pairs its sweep collected.
      `stamped` and `due` only record what it did under its write lock: the pair it stamped, and the
      pair it gave an owner, until that pair is listed. */
  datatype Thread = Thread(code: Code, locks: Locks, expired: set<Pair>, stamped: Option<Pair>, due: Option<Pair>)

  datatype State = State(tables: Tables, threads: map<Tid, Thread>)

  datatype Action =
    | Start(tid: Tid, code: Code)
    | Fire(tid: Tid, now: nat, pick: Pair)

  predicate Running(s: State, tid: Tid) {
    tid in s.threads && s.threads[tid].code.Then?
  }

  predicate Available(s: State, l: Lock) {
    forall tid, m :: tid in s.threads && s.threads[tid].locks.Has(m) ==> !Conflicts(l, m)
  }

  /** A thread waits only for a lock; a sweep takes its collected pairs in any order. */
  predicate CanFire(s: State, tid: Tid, pick: Pair) {
    && Running(s, tid)
    && var th := s.threads[tid];
    && (th.code.first.Acquire? ==> Available(s, th.code.first.l))
    && (th.code.first.DropEach? && th.expired != {} ==> pick in th.expired)
  }

  function Effect(t: Tables, th: Thread, now: nat, pick: Pair): (Tables, Thread)
    requires th.code.Then?
  {
    var next := th.(code := th.code.rest);
    match th.code.first
    case Acquire(l) => (t, next.(locks := th.locks.Set(l, true)))
    case Release(l) => (t, next.(locks := th.locks.Set(l, false)))
    case PutOwner(id, key) => (t.(owner := t.owner[key := id]), next.(due := Some((id, key))))
    case Stamp(id, key) => (t.(time := t.time[(id, key) := now]), next.(stamped := Some((id, key))))
    case Push(id, r) =>
      var list := ListOf(t, id);
      (t.(table := t.table[id := if Lists(list, r.key) then list else list + [r]]),
       next.(stamped := None, due := None))
    case Admit(id, r, stop) =>
      if Direct(r) then
        (t.(owner := if r.key in t.owner then t.owner else t.owner[r.key := id]),
         next.(due := Some((id, r.key))))
      else (t, if id in t.table then next else th.(code := stop))
    case PlaceRoute(id, r) =>
      (t.(table := t.table[id := Placed(ListOf(t, id), r)]), next.(stamped := None, due := None))
    case CheckAbsent(id, stop) => (t, if id in t.table then th.(code := stop) else next)
    case RemoveAll(id, key) => (Removed(t, id, key), next)
    case Collect(limit) => (t.(time := t.time - Expired(t, limit)), next.(expired := th.expired + Expired(t, limit)))
    case StopIfNone => (t, if th.expired == {} then th.(code := Done) else next)
    case DropEach =>
      if pick in th.expired then (Dropped(t, pick.0, pick.1), th.(expired := th.expired - {pick}))
      else (t, next)
  }

  ghost predicate Step(s: State, a: Action, u: State, rtt: u32) {
    match a
    case Start(tid, code) =>
      && !Running(s, tid)
      && (code in {LOOK_UP_ROUTE, LOOK_UP_OWNER} || exists op: Op :: code == CodeOf(op, rtt))
      && u == State(s.tables, s.threads[tid := Thread(code, NO_LOCKS, {}, None, None)])
    case Fire(tid, now, pick) =>
      && CanFire(s, tid, pick)
      && var (t, th) := Effect(s.tables, s.threads[tid], now, pick);
      && u == State(t, s.threads[tid := th])
  }

  ghost predicate Run(ss: seq<State>, actions: seq<Action>, rtt: u32) {
    && |ss| == |actions| + 1 && ss[0] == State(EMPTY, map[])
    && forall i {:trigger actions[i]} :: 0 <= i < |actions| ==> Step(ss[i], actions[i], ss[i + 1], rtt)
  }

  // ---------- the discipline every operation follows ----------

  predicate Drains(code: Code) {
    code.Then? && (code.first.DropEach? || Drains(code.rest))
  }

  /** The remaining code takes locks in increasing rank, holds those each step needs and releases
      them all; it lists a pair only after stamping it, and whatever it stamps or gives an owner it
      lists before it lets the table go. */
  predicate Disciplined(code: Code, locks: Locks, stamped: Option<Pair>, due: Option<Pair>) {
    match code
    case Done => locks == NO_LOCKS && stamped == None && due == None
    case Then(i, rest) =>
      match i
      case Acquire(l) =>
        && (forall h :: locks.Has(h) ==> Rank(h) < Rank(l))
        && Disciplined(rest, locks.Set(l, true), stamped, due)
      case Release(l) =>
        && locks.Has(l) && (l == TableWrite ==> stamped == None && due == None)
        && Disciplined(rest, locks.Set(l, false), stamped, due)
      case PutOwner(id, key) =>
        && locks.write && locks.owner && due == None
        && Disciplined(rest, locks, stamped, Some((id, key)))
      case Stamp(id, key) =>
        && locks.write && locks.time && stamped == None
        && Disciplined(rest, locks, Some((id, key)), due)
      case Push(id, r) =>
        && locks.write && stamped == Some((id, r.key)) && due in {None, stamped}
        && Disciplined(rest, locks, None, None)
      case PlaceRoute(id, r) =>
        && locks.write && stamped == Some((id, r.key)) && due in {None, stamped}
        && Disciplined(rest, locks, None, None)
      case Admit(id, r, stop) =>
        && locks.write && locks.owner && due == None
        && (Drains(rest) ==> Drains(stop)) && Disciplined(stop, locks, stamped, due)
        && Disciplined(rest, locks, stamped, if Direct(r) then Some((id, r.key)) else due)
      case CheckAbsent(id, stop) =>
        && locks.read
        && (Drains(rest) ==> Drains(stop)) && Disciplined(stop, locks, stamped, due)
        && Disciplined(rest, locks, stamped, due)
      case RemoveAll(id, key) =>
        && locks.write && locks.owner && locks.time && stamped == None
        && Disciplined(rest, locks, stamped, due)
      case Collect(limit) =>
        && locks.time && Drains(rest)
        && Disciplined(rest, locks, stamped, due)
      case StopIfNone =>
        && locks == NO_LOCKS && stamped == None && due == None
        && Disciplined(rest, locks, stamped, due)
      case DropEach =>
        && locks.write && locks.owner && stamped == None
        && Disciplined(rest, locks, stamped, due)
  }

  const LEAVE_TABLE := Then(Release(TableWrite), Done)
  const LEAVE_BOTH := Then(Release(OwnerLock), LEAVE_TABLE)
  const W := Locks(false, true, false, false)
  const WO := Locks(false, true, true, false)
  const WOT := Locks(false, true, true, true)

  lemma LeaveDisciplined()
    ensures Disciplined(LEAVE_TABLE, W, None, None) && Disciplined(LEAVE_BOTH, WO, None, None)
    ensures !Drains(LEAVE_TABLE) && !Drains(LEAVE_BOTH)
  {
    assert W.Set(TableWrite, false) == NO_LOCKS && Disciplined(Done, NO_LOCKS, None, None) && !Drains(Done);
    assert Disciplined(LEAVE_TABLE, W, None, None) && !Drains(LEAVE_TABLE);
    assert WO.Set(OwnerLock, false) == W;
  }

  lemma AddOwnerDisciplined(id: Ip, r: Route)
    ensures Disciplined(AddOwnerCode(id, r), NO_LOCKS, None, None)
  {
    var p := Some((id, r.key));
    LeaveDisciplined();
    var push := Then(Push(id, r), LEAVE_TABLE);
    assert Disciplined(push, W, p, p);
    var stamp := Then(Acquire(TimeLock), Then(Stamp(id, r.key), Then(Release(TimeLock), push)));
    assert Disciplined(stamp, W, None, p);
    assert Disciplined(Then(PutOwner(id, r.key), Then(Release(OwnerLock), stamp)), WO, None, None);
  }

  lemma AddRouteDisciplined(id: Ip, r: Route)
    ensures Disciplined(AddRouteCode(id, r), NO_LOCKS, None, None) && !Drains(AddRouteCode(id, r))
  {
    var p := Some((id, r.key));
    LeaveDisciplined();
    var placing := Then(PlaceRoute(id, r), LEAVE_BOTH);
    assert Disciplined(placing, WO, p, if Direct(r) then p else None) && !Drains(placing);
    var stamping := Then(Acquire(TimeLock), Then(Stamp(id, r.key), Then(Release(TimeLock), placing)));
    assert Disciplined(stamping, WO, None, if Direct(r) then p else None);
    assert !Drains(Then(Release(TimeLock), placing)) && !Drains(stamping);
    var admit := Then(Admit(id, r, LEAVE_BOTH), stamping);
    assert Disciplined(admit, WO, None, None) && !Drains(admit);
  }

  lemma AddIfAbsentDisciplined(id: Ip, r: Route, rtt: u32)
    ensures Disciplined(CodeOf(AddIfAbsent(id, r), rtt), NO_LOCKS, None, None)
  {
    hide AddRouteCode;
    AddRouteDisciplined(id, r);
    var locks := Locks(true, false, false, false);
    assert Disciplined(Then(Release(TableRead), Done), locks, None, None);
    var add := Then(Release(TableRead), AddRouteCode(id, r));
    assert Disciplined(add, locks, None, None) && !Drains(add);
  }

  lemma RemoveDisciplined(id: Ip, key: RouteKey)
    ensures Disciplined(RemoveCode(id, key), NO_LOCKS, None, None)
  {
    LeaveDisciplined();
    var remove := Then(RemoveAll(id, key), Then(Release(TimeLock), LEAVE_BOTH));
    assert Disciplined(remove, WOT, None, None);
    assert Disciplined(Then(Acquire(OwnerLock), Then(Acquire(TimeLock), remove)), W, None, None);
  }

  lemma SweepDisciplined(limit: nat)
    ensures Disciplined(SweepCode(limit), NO_LOCKS, None, None)
  {
    var drop := Then(DropEach, LEAVE_BOTH);
    assert Disciplined(drop, WO, None, None) && Drains(drop) by {
      LeaveDisciplined();
    }
    var enter := Then(Acquire(TableWrite), Then(Acquire(OwnerLock), drop));
    CollectDisciplined(limit, enter);
  }

  lemma CollectDisciplined(limit: nat, enter: Code)
    requires Disciplined(enter, NO_LOCKS, None, None) && Drains(enter)
    ensures Disciplined(Then(Acquire(TimeLock), Then(Collect(limit), Then(Release(TimeLock), Then(StopIfNone, enter)))),
                        NO_LOCKS, None, None)
  {
    var stop := Then(StopIfNone, enter);
    assert Disciplined(stop, NO_LOCKS, None, None) && Drains(stop);
    var locks := Locks(false, false, false, true);
    assert Disciplined(Then(Collect(limit), Then(Release(TimeLock), stop)), locks, None, None);
  }

  predicate Operation(code: Code) {
    Disciplined(code, NO_LOCKS, None, None)
  }

  /** Every operation follows the discipline. */
  lemma OperationsDisciplined(op: Op, rtt: u32)
    ensures Operation(CodeOf(op, rtt)) && Operation(LOOK_UP_ROUTE) && Operation(LOOK_UP_OWNER)
  {
    assert Operation(LOOK_UP_ROUTE) && Operation(LOOK_UP_OWNER);
    hide Disciplined, AddOwnerCode, AddRouteCode, RemoveCode, SweepCode;
    match op
    case AddOwner(id, key) => AddOwnerDisciplined(id, Route(key, 1, rtt));
    case AddRoute(id, r) => AddRouteDisciplined(id, r);
    case AddIfAbsent(id, r) => AddIfAbsentDisciplined(id, r, rtt);
    case Remove(id, key) => RemoveDisciplined(id, key);
    case Sweep(limit) => SweepDisciplined(limit);
  }

  // ---------- the invariant ----------

  /** No two threads hold conflicting locks. */
  ghost predicate Exclusive(s: State) {
    forall a, b, l, m ::
      a in s.threads && b in s.threads && a != b && s.threads[a].locks.Has(l) && s.threads[b].locks.Has(m)
      ==> !Conflicts(l, m)
  }

  predicate ThreadOk(th: Thread) {
    && Disciplined(th.code, th.locks, th.stamped, th.due)
    && (th.expired != {} ==> Drains(th.code))
    && (th.stamped.Some? || th.due.Some? ==> th.locks.write)
  }

  /** Stamped, or collected by a sweep that has yet to drop it. */
  ghost predicate Tracked(s: State, p: Pair) {
    p in s.tables.time || exists tid :: tid in s.threads && p in s.threads[tid].expired
  }

  ghost predicate BeingAdded(s: State, p: Pair) {
    exists tid :: tid in s.threads && s.threads[tid].due == Some(p)
  }

  ghost predicate ListsOk(t: Tables) {
    NoEmptyList(t) && forall id :: id in t.table ==> DistinctKeys(t.table[id])
  }

  ghost predicate Inv(s: State) {
    && Exclusive(s)
    && (forall tid :: tid in s.threads ==> ThreadOk(s.threads[tid]))
    && ListsOk(s.tables)
    && (forall id: Ip, key: RouteKey :: Listed(s.tables, id, key) ==> Tracked(s, (id, key)))
    && (forall tid :: tid in s.threads && s.threads[tid].stamped.Some? ==> Tracked(s, s.threads[tid].stamped.value))
    && (forall key :: key in s.tables.owner ==>
          Listed(s.tables, s.tables.owner[key], key) || BeingAdded(s, (s.tables.owner[key], key)))
  }

  // ---------- each step keeps the invariant ----------

  lemma StartKeeps(s: State, tid: Tid, code: Code)
    requires Inv(s) && !Running(s, tid) && Operation(code)
    ensures Inv(State(s.tables, s.threads[tid := Thread(code, NO_LOCKS, {}, None, None)]))
  {
    hide Listed, ListsOk;
    var u := State(s.tables, s.threads[tid := Thread(code, NO_LOCKS, {}, None, None)]);
    if tid in s.threads {
      assert s.threads[tid].locks == NO_LOCKS && s.threads[tid].expired == {} && s.threads[tid].due == None;
    }
    forall p | Tracked(s, p) ensures Tracked(u, p) {
      if p !in s.tables.time {
        var other :| other in s.threads && p in s.threads[other].expired;
        assert other in u.threads && p in u.threads[other].expired;
      }
    }
    forall p | BeingAdded(s, p) ensures BeingAdded(u, p) {
      var other :| other in s.threads && s.threads[other].due == Some(p);
      assert other in u.threads && u.threads[other].due == Some(p);
    }
  }

  function After(s: State, tid: Tid, now: nat, pick: Pair): State
    requires Running(s, tid)
  {
    var (t, th) := Effect(s.tables, s.threads[tid], now, pick);
    State(t, s.threads[tid := th])
  }

  /** The pair a step takes out of the table for good. */
  function Gone(th: Thread, pick: Pair): Option<Pair>
    requires th.code.Then?
  {
    match th.code.first
    case RemoveAll(id, key) => Some((id, key))
    case DropEach => if pick in th.expired then Some(pick) else None
    case _ => None
  }

  lemma FireThreadOk(t: Tables, th: Thread, now: nat, pick: Pair)
    requires ThreadOk(th) && th.code.Then?
    requires th.code.first.DropEach? && th.expired != {} ==> pick in th.expired
    ensures ThreadOk(Effect(t, th, now, pick).1)
  {
    hide ListOf, Lists, Placed, Removed, Expired, Dropped;
    match th.code.first
    case Acquire(l) =>
    case Release(l) =>
    case Admit(id, r, stop) =>
    case CheckAbsent(id, stop) =>
    case DropEach =>
    case _ =>
  }

  lemma FireLocks(t: Tables, th: Thread, now: nat, pick: Pair)
    requires th.code.Then?
    ensures var next := Effect(t, th, now, pick).1;
      forall l :: next.locks.Has(l) ==> th.locks.Has(l) || th.code.first == Acquire(l)
  {
    hide ListOf, Lists, Placed, Removed, Expired, Dropped;
    match th.code.first
    case Acquire(l) => SetHas(th.locks, l, true);
    case Release(l) => SetHas(th.locks, l, false);
    case _ =>
  }

  lemma SetHas(locks: Locks, l: Lock, on: bool)
    ensures forall k :: locks.Set(l, on).Has(k) == if k == l then on else locks.Has(k)
  {
    forall k ensures locks.Set(l, on).Has(k) == if k == l then on else locks.Has(k) {
      match k
      case TableRead =>
      case TableWrite =>
      case OwnerLock =>
      case TimeLock =>
    }
  }

  lemma FireExclusive(s: State, tid: Tid, now: nat, pick: Pair)
    requires Exclusive(s) && CanFire(s, tid, pick)
    ensures Exclusive(After(s, tid, now, pick))
  {
    hide Effect;
    var u := After(s, tid, now, pick);
    FireLocks(s.tables, s.threads[tid], now, pick);
    forall a, b, l, m |
      a in u.threads && b in u.threads && a != b && u.threads[a].locks.Has(l) && u.threads[b].locks.Has(m)
      ensures !Conflicts(l, m)
    {
      assert a != tid ==> s.threads[a].locks.Has(l);
      assert b != tid ==> s.threads[b].locks.Has(m);
      assert Conflicts(l, m) == Conflicts(m, l);
    }
  }

  lemma FireListsOk(t: Tables, th: Thread, now: nat, pick: Pair)
    requires ListsOk(t) && th.code.Then?
    ensures ListsOk(Effect(t, th, now, pick).0)
  {
    hide Lists, DistinctKeys, Placed, Kept;
    assert DistinctKeys([]) by {
      EmptyDistinct();
    }
    match th.code.first
    case Push(id, r) =>
      if !Lists(ListOf(t, id), r.key) {
        AppendDistinct(ListOf(t, id), r);
      }
      NothingListed(r.key);
    case PlaceRoute(id, r) =>
      PlacedDistinct(ListOf(t, id), r);
      PlacedOthers(ListOf(t, id), r);
    case RemoveAll(id, key) => KeptDistinct(ListOf(t, id), Other(key));
    case DropEach => KeptDistinct(ListOf(t, pick.0), Other(pick.1));
    case _ =>
  }

  lemma NothingListed(key: RouteKey)
    ensures !Lists([], key)
  {
  }

  /** What a step lists was listed or just stamped, and what it takes out is no longer listed. */
  lemma FireLists(t: Tables, th: Thread, now: nat, pick: Pair, id: Ip, key: RouteKey)
    requires ThreadOk(th) && th.code.Then?
    ensures var u := Effect(t, th, now, pick).0;
      && (Listed(u, id, key) ==> Listed(t, id, key) || th.stamped == Some((id, key)))
      && (Listed(u, id, key) ==> Gone(th, pick) != Some((id, key)))
      && (Listed(t, id, key) && Gone(th, pick) != Some((id, key)) ==> Listed(u, id, key))
      && ((th.code.first.Push? || th.code.first.PlaceRoute?) && th.stamped == Some((id, key)) ==> Listed(u, id, key))
  {
    hide Lists, Placed, Kept;
    match th.code.first
    case Push(i, r) =>
      ListsAppend(ListOf(t, i), r, key);
    case PlaceRoute(i, r) =>
      PlacedKeys(ListOf(t, i), r);
    case RemoveAll(i, k) =>
      DroppedLists(t, i, k);
      assert Listed(Removed(t, i, k), id, key) == Listed(Dropped(t, i, k), id, key);
    case DropEach =>
      DroppedLists(t, pick.0, pick.1);
    case _ =>
  }

  /** Only the step that takes a pair out can untrack it. */
  lemma FireTracked(s: State, tid: Tid, now: nat, pick: Pair, p: Pair)
    requires CanFire(s, tid, pick) && Tracked(s, p) && Gone(s.threads[tid], pick) != Some(p)
    requires ThreadOk(s.threads[tid])
    ensures Tracked(After(s, tid, now, pick), p)
  {
    hide Lists, Placed, Kept;
    var th, u := s.threads[tid], After(s, tid, now, pick);
    FireExpired(s.tables, th, now, pick, p);
    if p in s.tables.time {
      if p !in u.tables.time {
        assert p in u.threads[tid].expired;
      }
    } else {
      var other :| other in s.threads && p in s.threads[other].expired;
      assert other in u.threads && p in u.threads[other].expired;
    }
  }

  /** A stamp leaves the map only into the list of a sweep, and that list only by being dropped. */
  lemma FireExpired(t: Tables, th: Thread, now: nat, pick: Pair, p: Pair)
    requires ThreadOk(th) && th.code.Then? && Gone(th, pick) != Some(p)
    ensures var (u, next) := Effect(t, th, now, pick);
      && (p in t.time ==> p in u.time || p in next.expired)
      && (p in th.expired ==> p in next.expired)
  {
    hide Lists, Placed, Kept;
    match th.code.first
    case RemoveAll(id, key) =>
    case Collect(limit) =>
    case DropEach =>
    case _ =>
  }

  lemma FireStamped(t: Tables, th: Thread, now: nat, pick: Pair)
    requires ThreadOk(th) && th.code.Then?
    ensures var (u, next) := Effect(t, th, now, pick);
      && (next.stamped.Some? ==> next.stamped == th.stamped || next.stamped.value in u.time)
      && (Gone(th, pick).Some? ==> th.stamped == None && th.locks.write)
  {
    hide Lists, Placed, Kept, Removed, Dropped, Expired;
    match th.code.first
    case Stamp(id, key) =>
    case Release(l) =>
    case _ =>
  }

  /** An owner keeps its pair listed, or belongs to the step's own pair, not yet listed. */
  lemma FireOwner(t: Tables, th: Thread, now: nat, pick: Pair, key: RouteKey)
    requires ThreadOk(th) && th.code.Then?
    requires key in Effect(t, th, now, pick).0.owner
    ensures var (u, next) := Effect(t, th, now, pick);
      var p := (u.owner[key], key);
      || next.due == Some(p)
      || (key in t.owner && t.owner[key] == p.0 && Gone(th, pick) != Some(p)
          && (th.due == Some(p) ==> (th.code.first.Push? || th.code.first.PlaceRoute?) && th.stamped == Some(p)))
  {
    hide Lists, Placed, Kept, Expired;
    match th.code.first
    case PutOwner(i, k) =>
    case Admit(i, r, stop) =>
    case Push(i, r) =>
    case PlaceRoute(i, r) =>
    case RemoveAll(i, k) =>
    case DropEach =>
    case _ =>
  }

  lemma FireKeeps(s: State, tid: Tid, now: nat, pick: Pair)
    requires Inv(s) && CanFire(s, tid, pick)
    ensures Inv(After(s, tid, now, pick))
  {
    hide Effect, ThreadOk, Disciplined, Listed, ListsOk, Tracked, Exclusive, Gone;
    var th, u := s.threads[tid], After(s, tid, now, pick);
    FireExclusive(s, tid, now, pick);
    FireThreadOk(s.tables, th, now, pick);
    FireListsOk(s.tables, th, now, pick);
    FireStamped(s.tables, th, now, pick);
    forall id: Ip, key: RouteKey | Listed(u.tables, id, key) ensures Tracked(u, (id, key)) {
      FireLists(s.tables, th, now, pick, id, key);
      FireTracked(s, tid, now, pick, (id, key));
    }
    forall other | other in u.threads && u.threads[other].stamped.Some?
      ensures Tracked(u, u.threads[other].stamped.value)
    {
      StampedStays(s, tid, now, pick, other);
    }
    forall key | key in u.tables.owner
      ensures Listed(u.tables, u.tables.owner[key], key) || BeingAdded(u, (u.tables.owner[key], key))
    {
      OwnerStays(s, tid, now, pick, key);
    }
  }

  lemma OneWriter(s: State, a: Tid, b: Tid)
    requires Exclusive(s) && a in s.threads && b in s.threads
    requires s.threads[a].locks.write && s.threads[b].locks.write
    ensures a == b
  {
    assert s.threads[a].locks.Has(TableWrite) && s.threads[b].locks.Has(TableWrite)
        && Conflicts(TableWrite, TableWrite);
  }

  lemma StampedStays(s: State, tid: Tid, now: nat, pick: Pair, other: Tid)
    requires Inv(s) && CanFire(s, tid, pick) && other in s.threads
    requires After(s, tid, now, pick).threads[other].stamped.Some?
    ensures Tracked(After(s, tid, now, pick), After(s, tid, now, pick).threads[other].stamped.value)
  {
    hide Effect, Disciplined, Listed, ListsOk, Gone;
    var th, u := s.threads[tid], After(s, tid, now, pick);
    var p := u.threads[other].stamped.value;
    FireStamped(s.tables, th, now, pick);
    if Gone(th, pick).Some? && other != tid {
      OneWriter(s, tid, other);
    } else if other != tid || s.threads[other].stamped == Some(p) {
      assert s.threads[other].stamped == Some(p);
      FireTracked(s, tid, now, pick, p);
    }
  }

  lemma OwnerStays(s: State, tid: Tid, now: nat, pick: Pair, key: RouteKey)
    requires Inv(s) && CanFire(s, tid, pick)
    requires key in After(s, tid, now, pick).tables.owner
    ensures var u := After(s, tid, now, pick);
      Listed(u.tables, u.tables.owner[key], key) || BeingAdded(u, (u.tables.owner[key], key))
  {
    hide Effect, Disciplined, Listed, ListsOk, Gone, Tracked, Exclusive;
    var th, u := s.threads[tid], After(s, tid, now, pick);
    var id := u.tables.owner[key];
    FireOwner(s.tables, th, now, pick, key);
    FireLists(s.tables, th, now, pick, id, key);
    if u.threads[tid].due != Some((id, key)) {
      if !Listed(s.tables, id, key) {
        var other :| other in s.threads && s.threads[other].due == Some((id, key));
        if other != tid {
          assert u.threads[other].due == Some((id, key));
        }
      }
    }
  }

  // ---------- over every run ----------

  lemma StepKeeps(s: State, a: Action, u: State, rtt: u32)
    requires Inv(s) && Step(s, a, u, rtt)
    ensures Inv(u)
  {
    hide Inv, CodeOf, Effect;
    match a
    case Start(tid, code) =>
      if op: Op :| code == CodeOf(op, rtt) {
        OperationsDisciplined(op, rtt);
      } else {
        OperationsDisciplined(Sweep(0), rtt);
      }
      StartKeeps(s, tid, code);
    case Fire(tid, now, pick) =>
      FireKeeps(s, tid, now, pick);
  }

  lemma {:induction false} InvAlways(ss: seq<State>, actions: seq<Action>, rtt: u32, n: nat)
    requires Run(ss, actions, rtt) && n <= |actions|
    ensures Inv(ss[n])
  {
    hide Inv, Step;
    if n == 0 {
      StartsWell();
    } else {
      InvAlways(ss, actions, rtt, n - 1);
      assert Step(ss[n - 1], actions[n - 1], ss[n], rtt);
      StepKeeps(ss[n - 1], actions[n - 1], ss[n], rtt);
    }
  }

  lemma StartsWell()
    ensures Inv(State(EMPTY, map[]))
  {
  }

  /** At every moment of every run: each listed route is stamped, so that a later sweep will see it,
      or is on the list of a sweep still running, which will drop it. Every owner is listed with
      its tunnel, or is just being added by a thread that holds the table. No list is empty or
      names a tunnel twice. */
  lemma NoRouteIsImmortal(ss: seq<State>, actions: seq<Action>, rtt: u32, n: nat)
    requires Run(ss, actions, rtt) && n <= |actions|
    ensures forall id: Ip, key: RouteKey :: Listed(ss[n].tables, id, key) ==>
      || (id, key) in ss[n].tables.time
      || exists tid :: Running(ss[n], tid) && (id, key) in ss[n].threads[tid].expired && Drains(ss[n].threads[tid].code)
    ensures forall key :: key in ss[n].tables.owner ==>
      || Listed(ss[n].tables, ss[n].tables.owner[key], key)
      || exists tid :: Running(ss[n], tid) && ss[n].threads[tid].due == Some((ss[n].tables.owner[key], key))
                       && ss[n].threads[tid].locks.write
    ensures ListsOk(ss[n].tables)
  {
    hide Listed, ListsOk, Exclusive;
    InvAlways(ss, actions, rtt, n);
    var s := ss[n];
    forall id: Ip, key: RouteKey | Listed(s.tables, id, key) && (id, key) !in s.tables.time
      ensures exists tid :: Running(s, tid) && (id, key) in s.threads[tid].expired && Drains(s.threads[tid].code)
    {
      var tid :| tid in s.threads && (id, key) in s.threads[tid].expired;
      assert ThreadOk(s.threads[tid]) && Running(s, tid);
    }
    forall key | key in s.tables.owner && !Listed(s.tables, s.tables.owner[key], key)
      ensures exists tid ::
        Running(s, tid) && s.threads[tid].due == Some((s.tables.owner[key], key)) && s.threads[tid].locks.write
    {
      var tid :| tid in s.threads && s.threads[tid].due == Some((s.tables.owner[key], key));
      assert ThreadOk(s.threads[tid]) && Running(s, tid);
    }
  }

  /** Once every operation has finished, each listed route is stamped and each owner listed; a sweep
      then clears the table when its limit has passed every stamp. */
  lemma QuietTableExpires(ss: seq<State>, actions: seq<Action>, rtt: u32, n: nat, limit: nat)
    requires Run(ss, actions, rtt) && n <= |actions|
    requires forall tid :: !Running(ss[n], tid)
    ensures forall id: Ip, key: RouteKey :: Listed(ss[n].tables, id, key) ==> (id, key) in ss[n].tables.time
    ensures forall key :: key in ss[n].tables.owner ==> Listed(ss[n].tables, ss[n].tables.owner[key], key)
    ensures (forall p :: p in ss[n].tables.time ==> ss[n].tables.time[p] <= limit)
      ==> Swept(ss[n].tables, limit) == EMPTY
  {
    hide Listed, Kept, DistinctKeys, Step;
    NoRouteIsImmortal(ss, actions, rtt, n);
    var t := ss[n].tables;
    if forall p :: p in t.time ==> t.time[p] <= limit {
      var u := Swept(t, limit);
      PurgedLists(t, Expired(t, limit));
      forall id | id in u.table ensures false {
        SweptLists(t, limit, id);
      }
    }
  }

  lemma SweptLists(t: Tables, limit: nat, id: Ip)
    requires id in Swept(t, limit).table
    ensures exists key: RouteKey :: Listed(Purged(t, Expired(t, limit)), id, key)
  {
    var u := Purged(t, Expired(t, limit));
    assert u.table[id] == Left(t, Expired(t, limit), id) != [];
    assert Listed(u, id, u.table[id][0].key);
  }

  // ---------- stamps without a route ----------

  /** Stamped under the write lock, and about to be listed under it. */
  ghost predicate BeingListed(s: State, p: Pair) {
    exists tid :: tid in s.threads && s.threads[tid].stamped == Some(p)
  }

  /** A stamp that belongs to no route. */
  ghost predicate Orphan(s: State, p: Pair) {
    p in s.tables.time && !Listed(s.tables, p.0, p.1) && !BeingListed(s, p)
  }

  ghost predicate NoOrphans(s: State) {
    forall p: Pair :: !Orphan(s, p)
  }

  /** A sweep drops a pair that was stamped again after the sweep had collected it. */
  predicate DropsStamped(s: State, a: Action, p: Pair) {
    && a.Fire? && a.pick == p && CanFire(s, a.tid, p) && s.threads[a.tid].code.first.DropEach?
    && p in s.threads[a.tid].expired && p in s.tables.time
  }

  lemma FireStamps(t: Tables, th: Thread, now: nat, pick: Pair, p: Pair)
    requires ThreadOk(th) && th.code.Then?
    ensures var (u, next) := Effect(t, th, now, pick);
      && (p in u.time ==> p in t.time || next.stamped == Some(p))
      && (Gone(th, pick) == Some(p) ==> (p in u.time <==> th.code.first.DropEach? && p in t.time))
      && (th.stamped == Some(p) ==>
            next.stamped == Some(p) || ((th.code.first.Push? || th.code.first.PlaceRoute?) && th.stamped == Some(p)))
      && (Gone(th, pick).Some? ==> next.stamped == None)
  {
    hide Lists, Placed, Kept;
    match th.code.first
    case Stamp(id, key) =>
    case Push(id, r) =>
    case PlaceRoute(id, r) =>
    case RemoveAll(id, key) =>
    case Collect(limit) =>
    case DropEach =>
    case _ =>
  }

  /** Over every reachable state: a step leaves a stamp without a route exactly when it drops that
      pair while it is stamped. */
  lemma FireOrphans(s: State, tid: Tid, now: nat, pick: Pair, p: Pair)
    requires Inv(s) && CanFire(s, tid, pick) && !Orphan(s, p)
    ensures Orphan(After(s, tid, now, pick), p) <==> DropsStamped(s, Fire(tid, now, pick), p)
  {
    hide Effect, Listed, ListsOk, Disciplined, Tracked;
    var th, u := s.threads[tid], After(s, tid, now, pick);
    FireLists(s.tables, th, now, pick, p.0, p.1);
    FireStamps(s.tables, th, now, pick, p);
    if Gone(th, pick) == Some(p) {
      forall other | other in u.threads ensures u.threads[other].stamped != Some(p) {
        if other != tid && s.threads[other].stamped == Some(p) {
          FireStamped(s.tables, th, now, pick);
          OneWriter(s, tid, other);
        }
      }
    } else if BeingListed(s, p) {
      var other :| other in s.threads && s.threads[other].stamped == Some(p);
      assert other != tid ==> u.threads[other].stamped == Some(p);
      assert u.threads[tid].stamped == Some(p) ==> BeingListed(u, p);
    } else {
      assert u.threads[tid].stamped == Some(p) ==> BeingListed(u, p);
    }
  }

  lemma StepOrphans(s: State, a: Action, u: State, rtt: u32, p: Pair)
    requires Inv(s) && Step(s, a, u, rtt) && !Orphan(s, p)
    ensures Orphan(u, p) <==> DropsStamped(s, a, p)
  {
    hide Effect, Listed, ListsOk, CodeOf;
    match a
    case Start(tid, code) =>
      if BeingListed(s, p) {
        var other :| other in s.threads && s.threads[other].stamped == Some(p);
        assert ThreadOk(s.threads[other]);
        assert other != tid && u.threads[other].stamped == Some(p);
      }
    case Fire(tid, now, pick) =>
      FireOrphans(s, tid, now, pick, p);
      assert u == After(s, tid, now, pick);
  }

  /** At every moment of a run each stamped pair is listed or being listed under the write lock,
      exactly when no sweep of the run drops a pair that has been stamped again. */
  lemma {:induction false} OrphansComeFromDrops(ss: seq<State>, actions: seq<Action>, rtt: u32, n: nat)
    requires Run(ss, actions, rtt) && n <= |actions|
    ensures (forall t :: 0 <= t <= n ==> NoOrphans(ss[t]))
       <==> (forall i, p: Pair :: 0 <= i < n ==> !DropsStamped(ss[i], actions[i], p))
  {
    hide Step, DropsStamped, Orphan, Inv;
    if n == 0 {
      assert NoOrphans(ss[0]) by {
        NothingStamped();
      }
    } else {
      var m := n - 1;
      OrphansComeFromDrops(ss, actions, rtt, m);
      InvAlways(ss, actions, rtt, m);
      var a := actions[m];
      assert Step(ss[m], a, ss[n], rtt);
      if NoOrphans(ss[m]) {
        forall p: Pair ensures Orphan(ss[n], p) <==> DropsStamped(ss[m], a, p) {
          StepOrphans(ss[m], a, ss[n], rtt, p);
        }
      }
    }
  }

  lemma NothingStamped()
    ensures NoOrphans(State(EMPTY, map[]))
  {
  }

  /** A run in which no sweep drops a pair stamped again leaves, once all operations have finished,
      the same consistent tables as operations run one at a time. */
  lemma QuietTableConsistent(ss: seq<State>, actions: seq<Action>, rtt: u32, n: nat)
    requires Run(ss, actions, rtt) && n <= |actions|
    requires forall tid :: !Running(ss[n], tid)
    requires forall i, p: Pair :: 0 <= i < n ==> !DropsStamped(ss[i], actions[i], p)
    ensures Consistent(ss[n].tables)
  {
    hide Step, DropsStamped, Listed, DistinctKeys;
    OrphansComeFromDrops(ss, actions, rtt, n);
    NoRouteIsImmortal(ss, actions, rtt, n);
    InvAlways(ss, actions, rtt, n);
    assert NoOrphans(ss[n]);
    forall p: Pair ensures !BeingListed(ss[n], p) {
      forall tid | tid in ss[n].threads ensures ss[n].threads[tid].stamped == None {
        assert ThreadOk(ss[n].threads[tid]) && !Running(ss[n], tid);
      }
    }
    forall id: Ip, key: RouteKey ensures Listed(ss[n].tables, id, key) <==> (id, key) in ss[n].tables.time {
      assert !Orphan(ss[n], (id, key));
    }
  }

  // ---------- no deadlock ----------

  /** A thread about to ask for the table's write lock; the lock lets no new reader past it. */
  predicate WaitsToWrite(s: State, tid: Tid) {
    Running(s, tid) && s.threads[tid].code.first == Acquire(TableWrite)
  }

  ghost predicate CanProceed(s: State, tid: Tid) {
    && (exists pick :: CanFire(s, tid, pick))
    && (s.threads[tid].code.first == Acquire(TableRead) ==> forall other :: !WaitsToWrite(s, other))
  }

  lemma CanFireSomehow(s: State, tid: Tid)
    requires Running(s, tid)
    requires s.threads[tid].code.first.Acquire? ==> Available(s, s.threads[tid].code.first.l)
    ensures exists pick :: CanFire(s, tid, pick)
  {
    var th := s.threads[tid];
    if th.expired != {} {
      var p :| p in th.expired;
      assert CanFire(s, tid, p);
    } else {
      assert CanFire(s, tid, (0, 0));
    }
  }

  /** A thread that holds a lock no other thread outranks has its next lock free. */
  lemma HolderProceeds(s: State, tid: Tid, l: Lock)
    requires Inv(s) && tid in s.threads && s.threads[tid].locks.Has(l)
    requires forall other, m :: other in s.threads && s.threads[other].locks.Has(m) ==> Rank(m) <= Rank(l)
    ensures CanProceed(s, tid)
  {
    hide ListsOk, Listed;
    var th := s.threads[tid];
    assert ThreadOk(th);
    if th.code.first.Acquire? {
      assert Rank(l) < Rank(th.code.first.l);
    }
    CanFireSomehow(s, tid);
  }

  /** Whenever an operation has not finished, some operation can take its next step, even if no new
      reader may pass a waiting writer. */
  lemma DeadlockFree(ss: seq<State>, actions: seq<Action>, rtt: u32, n: nat, tid: Tid)
    requires Run(ss, actions, rtt) && n <= |actions| && Running(ss[n], tid)
    ensures exists t :: CanProceed(ss[n], t)
  {
    hide Inv, Step, CanFire;
    var s := ss[n];
    InvAlways(ss, actions, rtt, n);
    if t :| t in s.threads && s.threads[t].locks.Has(TimeLock) {
      HolderProceeds(s, t, TimeLock);
    } else if t :| t in s.threads && s.threads[t].locks.Has(OwnerLock) {
      HolderProceeds(s, t, OwnerLock);
    } else if t, l :| t in s.threads && s.threads[t].locks.Has(l) {
      HolderProceeds(s, t, l);
    } else if t :| t in s.threads && WaitsToWrite(s, t) {
      CanFireSomehow(s, t);
      assert CanProceed(s, t);
    } else {
      CanFireSomehow(s, tid);
      assert CanProceed(s, tid);
    }
  }

  /** Every step of an operation brings it closer to its end. */
  function Length(code: Code): nat {
    if code.Done? then 0 else
      1 + Max(Length(code.rest), if code.first.Admit? || code.first.CheckAbsent? then Length(code.first.stop) else 0)
  }

  lemma StepsEnd(s: State, tid: Tid, now: nat, pick: Pair)
    requires CanFire(s, tid, pick)
    ensures var th, next := s.threads[tid], After(s, tid, now, pick).threads[tid];
      Length(next.code) < Length(th.code) || (next.code == th.code && |next.expired| < |th.expired|)
  {
    hide Lists, Placed, Kept, Removed, Dropped, Expired;
  }

  // ---------- an operation that is not interrupted ----------

  /** What the rest of an operation does to the tables when nothing interrupts it. */
  function Alone(t: Tables, code: Code, expired: set<Pair>, now: nat): Tables
    decreases Length(code)
  {
    if code.Done? then t
    else
      var i := code.first;
      if i.DropEach? then Alone(Purged(t, expired), code.rest, {}, now)
      else if i.StopIfNone? && expired == {} then t
      else
        var (u, next) := Effect(t, Thread(code, NO_LOCKS, expired, None, None), now, (0, 0));
        Alone(u, next.code, next.expired, now)
  }

  lemma LockAlone(t: Tables, i: Instr, rest: Code, expired: set<Pair>, now: nat)
    requires i.Acquire? || i.Release?
    ensures Alone(t, Then(i, rest), expired, now) == Alone(t, rest, expired, now)
  {
  }

  lemma LeaveAlone(t: Tables, now: nat)
    ensures Alone(t, LEAVE_TABLE, {}, now) == t && Alone(t, LEAVE_BOTH, {}, now) == t
  {
    LockAlone(t, Release(TableWrite), Done, {}, now);
    LockAlone(t, Release(OwnerLock), LEAVE_TABLE, {}, now);
  }

  lemma AddOwnerAlone(t: Tables, id: Ip, r: Route, now: nat)
    requires r.metric == 1
    ensures Alone(t, AddOwnerCode(id, r), {}, now) == OwnerAdded(t, id, r.key, r.rtt, now)
  {
    hide Lists, Purged;
    var push := Then(Push(id, r), LEAVE_TABLE);
    var stamp := Then(Stamp(id, r.key), Then(Release(TimeLock), push));
    var put := Then(PutOwner(id, r.key), Then(Release(OwnerLock), Then(Acquire(TimeLock), stamp)));
    var t1 := t.(owner := t.owner[r.key := id]);
    var t2 := t1.(time := t.time[(id, r.key) := now]);
    var t3 := OwnerAdded(t, id, r.key, r.rtt, now);
    LeaveAlone(t3, now);
    assert Alone(t2, push, {}, now) == Alone(t3, LEAVE_TABLE, {}, now);
    LockAlone(t2, Release(TimeLock), push, {}, now);
    assert Alone(t1, stamp, {}, now) == Alone(t2, Then(Release(TimeLock), push), {}, now);
    LockAlone(t1, Acquire(TimeLock), stamp, {}, now);
    LockAlone(t1, Release(OwnerLock), Then(Acquire(TimeLock), stamp), {}, now);
    assert Alone(t, put, {}, now) == Alone(t1, put.rest, {}, now);
    LockAlone(t, Acquire(OwnerLock), put, {}, now);
    LockAlone(t, Acquire(TableWrite), Then(Acquire(OwnerLock), put), {}, now);
  }

  function StampAndPlace(id: Ip, r: Route): Code {
    Then(Stamp(id, r.key), Then(Release(TimeLock), Then(PlaceRoute(id, r), LEAVE_BOTH)))
  }

  lemma StampAndPlaceAlone(t: Tables, id: Ip, r: Route, now: nat)
    ensures Alone(t, StampAndPlace(id, r), {}, now)
         == Tables(t.table[id := Placed(ListOf(t, id), r)], t.owner, t.time[(id, r.key) := now])
  {
    hide Placed, Purged;
    var place := Then(PlaceRoute(id, r), LEAVE_BOTH);
    var u := t.(time := t.time[(id, r.key) := now]);
    var v := u.(table := t.table[id := Placed(ListOf(t, id), r)]);
    LeaveAlone(v, now);
    assert Alone(u, place, {}, now) == Alone(v, LEAVE_BOTH, {}, now);
    LockAlone(u, Release(TimeLock), place, {}, now);
    assert Alone(t, StampAndPlace(id, r), {}, now) == Alone(u, Then(Release(TimeLock), place), {}, now);
  }

  lemma AddRouteAlone(t: Tables, id: Ip, r: Route, now: nat)
    ensures Alone(t, AddRouteCode(id, r), {}, now) == Added(t, id, r, now)
  {
    hide Placed, Purged;
    var stamp := StampAndPlace(id, r);
    var admit := Then(Admit(id, r, LEAVE_BOTH), Then(Acquire(TimeLock), stamp));
    LockAlone(t, Acquire(OwnerLock), admit, {}, now);
    LockAlone(t, Acquire(TableWrite), Then(Acquire(OwnerLock), admit), {}, now);
    if !Direct(r) && id !in t.table {
      LeaveAlone(t, now);
      assert Alone(t, admit, {}, now) == Alone(t, LEAVE_BOTH, {}, now);
    } else {
      var t1 := if Direct(r) && r.key !in t.owner then t.(owner := t.owner[r.key := id]) else t;
      StampAndPlaceAlone(t1, id, r, now);
      LockAlone(t1, Acquire(TimeLock), stamp, {}, now);
      assert Alone(t, admit, {}, now) == Alone(t1, Then(Acquire(TimeLock), stamp), {}, now);
    }
  }

  lemma AddIfAbsentAlone(t: Tables, id: Ip, r: Route, rtt: u32, now: nat)
    ensures Alone(t, CodeOf(AddIfAbsent(id, r), rtt), {}, now) == AddedIfAbsent(t, id, r, now)
  {
    hide AddRouteCode, Added, Purged;
    var leave, add := Then(Release(TableRead), Done), Then(Release(TableRead), AddRouteCode(id, r));
    var check := Then(CheckAbsent(id, leave), add);
    AddRouteAlone(t, id, r, now);
    LockAlone(t, Release(TableRead), Done, {}, now);
    LockAlone(t, Release(TableRead), AddRouteCode(id, r), {}, now);
    assert Alone(t, check, {}, now) == Alone(t, if id in t.table then leave else add, {}, now);
    LockAlone(t, Acquire(TableRead), check, {}, now);
  }

  lemma RemoveAlone(t: Tables, id: Ip, key: RouteKey, now: nat)
    ensures Alone(t, RemoveCode(id, key), {}, now) == Removed(t, id, key)
  {
    hide Removed, Purged;
    var leave := Then(Release(TimeLock), LEAVE_BOTH);
    var remove := Then(RemoveAll(id, key), leave);
    var u := Removed(t, id, key);
    LeaveAlone(u, now);
    LockAlone(u, Release(TimeLock), LEAVE_BOTH, {}, now);
    assert Alone(t, remove, {}, now) == Alone(u, leave, {}, now);
    LockAlone(t, Acquire(TimeLock), remove, {}, now);
    LockAlone(t, Acquire(OwnerLock), Then(Acquire(TimeLock), remove), {}, now);
    LockAlone(t, Acquire(TableWrite), Then(Acquire(OwnerLock), Then(Acquire(TimeLock), remove)), {}, now);
  }

  lemma DropAlone(t: Tables, gone: set<Pair>, now: nat)
    requires gone != {}
    ensures Alone(t, SWEEP_REST, gone, now) == Purged(t, gone)
  {
    hide Purged;
    var drop := Then(DropEach, LEAVE_BOTH);
    LockAlone(t, Acquire(OwnerLock), drop, gone, now);
    LockAlone(t, Acquire(TableWrite), Then(Acquire(OwnerLock), drop), gone, now);
    LeaveAlone(Purged(t, gone), now);
    assert Alone(t, SWEEP_REST, gone, now) == Alone(t, SWEEP_REST.rest, gone, now);
    assert Alone(t, drop, gone, now) == Alone(Purged(t, gone), LEAVE_BOTH, {}, now);
  }

  lemma SweepAlone(t: Tables, limit: nat, now: nat)
    requires NoEmptyList(t)
    ensures Alone(t, SweepCode(limit), {}, now) == Swept(t, limit)
  {
    hide Purged, Expired;
    var collect := Then(Collect(limit), Then(Release(TimeLock), SWEEP_REST));
    var gone := Expired(t, limit);
    var t1 := t.(time := t.time - gone);
    LockAlone(t, Acquire(TimeLock), collect, {}, now);
    assert {} + gone == gone;
    assert Alone(t, collect, {}, now) == Alone(t1, Then(Release(TimeLock), SWEEP_REST), gone, now);
    LockAlone(t1, Release(TimeLock), SWEEP_REST, gone, now);
    if gone == {} {
      PurgeNothing(t);
      assert t.time - {} == t.time;
      assert Alone(t1, SWEEP_REST, gone, now) == t1;
    } else {
      DropAlone(t1, gone, now);
      PurgeKeepsStamps(t, gone, t1.time);
    }
  }

  lemma PurgeKeepsStamps(t: Tables, gone: set<Pair>, time: map<Pair, nat>)
    ensures Purged(t.(time := time), gone) == Purged(t, gone).(time := time)
  {
  }

  lemma AloneIsAtomic(t: Tables, op: Op, rtt: u32, now: nat)
    requires NoEmptyList(t)
    ensures Alone(t, CodeOf(op, rtt), {}, now) == Apply(t, op, rtt, now)
  {
    hide Alone, AddOwnerCode, AddRouteCode, RemoveCode, SweepCode, OwnerAdded, Added, Removed, Swept;
    match op
    case AddOwner(id, key) => AddOwnerAlone(t, id, Route(key, 1, rtt), now);
    case AddRoute(id, r) => AddRouteAlone(t, id, r, now);
    case AddIfAbsent(id, r) => AddIfAbsentAlone(t, id, r, rtt, now);
    case Remove(id, key) => RemoveAlone(t, id, key, now);
    case Sweep(limit) => SweepAlone(t, limit, now);
  }

  lemma LeftAfterDrop(t: Tables, gone: set<Pair>, p: Pair, id: Ip)
    requires p in gone && id in t.table
    ensures var u := Dropped(t, p.0, p.1);
      if id in u.table then Left(u, gone - {p}, id) == Left(t, gone, id) else Left(t, gone, id) == []
  {
    var list, less := t.table[id], gone - {p};
    if id == p.0 {
      KeptTwice(list, Other(p.1), Spared(less, id));
      KeptSame(list, Both(Other(p.1), Spared(less, id)), Spared(gone, id));
      assert Kept([], Spared(less, id)) == [];
    } else {
      KeptSame(list, Spared(less, id), Spared(gone, id));
    }
  }

  lemma PurgeAfterDrop(t: Tables, gone: set<Pair>, p: Pair)
    requires p in gone
    ensures Purged(Dropped(t, p.0, p.1), gone - {p}) == Purged(t, gone)
  {
    hide Left, Without;
    var u, less := Dropped(t, p.0, p.1), gone - {p};
    forall id | id in t.table
      ensures if id in u.table then Left(u, less, id) == Left(t, gone, id) else Left(t, gone, id) == []
    {
      LeftAfterDrop(t, gone, p, id);
    }
    assert Purged(u, less).table == Purged(t, gone).table;
    assert Purged(u, less).owner == Purged(t, gone).owner;
  }

  /** One step of the machine leaves the outcome of the operation as it was. */
  lemma StepAlone(s: State, tid: Tid, now: nat, pick: Pair)
    requires Inv(s) && CanFire(s, tid, pick)
    ensures var th, u := s.threads[tid], After(s, tid, now, pick);
      Alone(u.tables, u.threads[tid].code, u.threads[tid].expired, now) == Alone(s.tables, th.code, th.expired, now)
  {
    var t, th := s.tables, s.threads[tid];
    if th.code.first.DropEach? {
      hide Dropped, Purged;
      if th.expired == {} {
        PurgeNothing(t);
      } else {
        PurgeAfterDrop(t, th.expired, pick);
      }
    } else {
      EffectAlone(t, th, now, pick);
    }
  }

  lemma EffectAlone(t: Tables, th: Thread, now: nat, pick: Pair)
    requires th.code.Then? && !th.code.first.DropEach?
    ensures var (u, next) := Effect(t, th, now, pick);
      Alone(u, next.code, next.expired, now) == Alone(t, th.code, th.expired, now)
  {
    hide Lists, Placed, Removed, Expired, Purged;
  }

  /** An operation whose steps nothing interleaves leaves the tables as its atomic counterpart does. */
  lemma {:induction false} UninterruptedIsAtomic(ss: seq<State>, actions: seq<Action>, rtt: u32, tid: Tid, op: Op,
                                                 now: nat)
    requires |ss| == |actions| + 1 && Inv(ss[0])
    requires tid in ss[0].threads && ss[0].threads[tid] == Thread(CodeOf(op, rtt), NO_LOCKS, {}, None, None)
    requires forall i {:trigger actions[i]} :: 0 <= i < |actions| ==>
      actions[i].Fire? && actions[i].tid == tid && actions[i].now == now && Step(ss[i], actions[i], ss[i + 1], rtt)
    requires !Running(ss[|actions|], tid)
    ensures ss[|actions|].tables == Apply(ss[0].tables, op, rtt, now)
  {
    hide Apply, CodeOf, Step;
    AloneIsAtomic(ss[0].tables, op, rtt, now);
    OutcomeStays(ss, actions, rtt, tid, now, |actions|);
  }

  lemma {:induction false} OutcomeStays(ss: seq<State>, actions: seq<Action>, rtt: u32, tid: Tid, now: nat, n: nat)
    requires |ss| == |actions| + 1 && n <= |actions| && Inv(ss[0]) && tid in ss[0].threads
    requires forall i {:trigger actions[i]} :: 0 <= i < |actions| ==>
      actions[i].Fire? && actions[i].tid == tid && actions[i].now == now && Step(ss[i], actions[i], ss[i + 1], rtt)
    ensures Inv(ss[n]) && tid in ss[n].threads
    ensures Alone(ss[n].tables, ss[n].threads[tid].code, ss[n].threads[tid].expired, now)
         == Alone(ss[0].tables, ss[0].threads[tid].code, ss[0].threads[tid].expired, now)
  {
    hide Alone, Inv, Effect;
    if n > 0 {
      OutcomeStays(ss, actions, rtt, tid, now, n - 1);
      var a := actions[n - 1];
      assert Step(ss[n - 1], a, ss[n], rtt);
      StepKeeps(ss[n - 1], a, ss[n], rtt);
      StepAlone(ss[n - 1], tid, now, a.pick);
      assert ss[n] == After(ss[n - 1], tid, now, a.pick);
    }
  }

  // ---------- a refresh between the two phases of a sweep ----------

  ghost predicate Reachable(s: State, rtt: u32) {
    exists ss: seq<State>, actions: seq<Action> :: Run(ss, actions, rtt) && ss[|actions|] == s
  }

  lemma Reach(s: State, a: Action, u: State, rtt: u32)
    requires Reachable(s, rtt) && Step(s, a, u, rtt)
    ensures Reachable(u, rtt)
  {
    hide Step;
    var ss: seq<State>, actions: seq<Action> :| Run(ss, actions, rtt) && ss[|actions|] == s;
    var more, steps := ss + [u], actions + [a];
    forall i {:trigger steps[i]} | 0 <= i < |steps| ensures Step(more[i], steps[i], more[i + 1], rtt) {
      if i < |actions| {
        assert steps[i] == actions[i];
      }
    }
    assert Run(more, steps, rtt) && more[|steps|] == u;
  }

  lemma ReachableInv(s: State, rtt: u32)
    requires Reachable(s, rtt)
    ensures Inv(s)
  {
    hide Inv;
    var ss: seq<State>, actions: seq<Action> :| Run(ss, actions, rtt) && ss[|actions|] == s;
    InvAlways(ss, actions, rtt, |actions|);
  }

  const IDLE := Thread(Done, NO_LOCKS, {}, None, None)

  ghost predicate OthersHoldNothing(s: State, tid: Tid) {
    forall other, l :: other in s.threads && other != tid ==> !s.threads[other].locks.Has(l)
  }

  /** An operation can always run to its end while the other threads hold no lock. */
  lemma {:induction false} RunsToEnd(s: State, tid: Tid, rtt: u32, now: nat) returns (u: State)
    requires Reachable(s, rtt) && tid in s.threads && OthersHoldNothing(s, tid)
    ensures Reachable(u, rtt) && u.threads == s.threads[tid := IDLE]
    ensures u.tables == Alone(s.tables, s.threads[tid].code, s.threads[tid].expired, now)
    decreases Length(s.threads[tid].code), |s.threads[tid].expired|
  {
    hide Alone, Effect, Inv;
    var th := s.threads[tid];
    ReachableInv(s, rtt);
    if th.code.Done? {
      u := s;
      DoneAlone(s.tables, th.expired, now);
      Idle(s, tid);
    } else {
      NothingInTheWay(s, tid);
      CanFireSomehow(s, tid);
      var pick :| CanFire(s, tid, pick);
      var next := After(s, tid, now, pick);
      StepAlone(s, tid, now, pick);
      StepsEnd(s, tid, now, pick);
      Reach(s, Fire(tid, now, pick), next, rtt);
      u := RunsToEnd(next, tid, rtt, now);
    }
  }

  lemma Idle(s: State, tid: Tid)
    requires Inv(s) && tid in s.threads && s.threads[tid].code.Done?
    ensures s.threads[tid] == IDLE
  {
    hide ListsOk, Exclusive;
    assert ThreadOk(s.threads[tid]);
  }

  lemma DoneAlone(t: Tables, expired: set<Pair>, now: nat)
    ensures Alone(t, Done, expired, now) == t
  {
  }

  lemma NothingInTheWay(s: State, tid: Tid)
    requires Inv(s) && Running(s, tid) && OthersHoldNothing(s, tid)
    ensures s.threads[tid].code.first.Acquire? ==> Available(s, s.threads[tid].code.first.l)
  {
    hide ListsOk, Exclusive;
    assert ThreadOk(s.threads[tid]);
  }

  lemma Begin(s: State, tid: Tid, op: Op, rtt: u32) returns (u: State)
    requires Reachable(s, rtt) && !Running(s, tid)
    ensures u == State(s.tables, s.threads[tid := Thread(CodeOf(op, rtt), NO_LOCKS, {}, None, None)])
    ensures Reachable(u, rtt)
  {
    hide Reachable, CodeOf;
    u := State(s.tables, s.threads[tid := Thread(CodeOf(op, rtt), NO_LOCKS, {}, None, None)]);
    Reach(s, Start(tid, CodeOf(op, rtt)), u, rtt);
  }

  lemma Advance(s: State, tid: Tid, rtt: u32) returns (u: State)
    requires Reachable(s, rtt) && CanFire(s, tid, (0, 0))
    ensures Reachable(u, rtt) && u == After(s, tid, 0, (0, 0))
  {
    hide Reachable, Effect;
    u := After(s, tid, 0, (0, 0));
    Reach(s, Fire(tid, 0, (0, 0)), u, rtt);
  }

  /** A sweep may stop between its phases, its pairs collected and no lock held. */
  lemma CollectPhase(s: State, tid: Tid, limit: nat, rtt: u32) returns (u: State)
    requires Reachable(s, rtt) && tid in s.threads && OthersHoldNothing(s, tid)
    requires s.threads[tid] == Thread(SweepCode(limit), NO_LOCKS, {}, None, None)
    ensures Reachable(u, rtt) && u.tables == s.tables.(time := s.tables.time - Expired(s.tables, limit))
    ensures u.threads == s.threads[tid := Thread(SWEEP_REST, NO_LOCKS, Expired(s.tables, limit), None, None)]
  {
    hide Reachable, Expired;
    var a := Advance(s, tid, rtt);
    var b := Advance(a, tid, rtt);
    u := Advance(b, tid, rtt);
    assert {} + Expired(s.tables, limit) == Expired(s.tables, limit);
  }

  lemma StartReachable(rtt: u32)
    ensures Reachable(State(EMPTY, map[]), rtt)
  {
    var ss, none: seq<Action> := [State(EMPTY, map[])], [];
    assert Run(ss, none, rtt) && ss[|none|] == State(EMPTY, map[]);
  }

  lemma CollectSweep(s: State, tid: Tid, limit: nat, rtt: u32) returns (u: State)
    requires Reachable(s, rtt) && tid in s.threads && OthersHoldNothing(s, tid)
    requires s.threads[tid] == Thread(CodeOf(Sweep(limit), rtt), NO_LOCKS, {}, None, None)
    ensures Reachable(u, rtt) && u.tables == s.tables.(time := s.tables.time - Expired(s.tables, limit))
    ensures u.threads == s.threads[tid := Thread(SWEEP_REST, NO_LOCKS, Expired(s.tables, limit), None, None)]
  {
    hide Reachable, Expired;
    u := CollectPhase(s, tid, limit, rtt);
  }

  /** A tunnel is added and a sweep collects its stamp. */
  lemma AddAndCollect(id: Ip, key: RouteKey, rtt: u32) returns (s: State)
    ensures Reachable(s, rtt) && s.tables == OwnerAdded(EMPTY, id, key, rtt, 1).(time := map[])
    ensures s.threads == map[0 := IDLE, 1 := Thread(SWEEP_REST, NO_LOCKS, {(id, key)}, None, None)]
  {
    hide Alone, Reachable, CodeOf, Lists;
    var op := AddOwner(id, key);
    StartReachable(rtt);
    s := Begin(State(EMPTY, map[]), 0, op, rtt);
    AloneIsAtomic(s.tables, op, rtt, 1);
    s := RunsToEnd(s, 0, rtt, 1);
    s := Begin(s, 1, Sweep(1), rtt);
    assert Expired(s.tables, 1) == {(id, key)};
    s := CollectSweep(s, 1, 1, rtt);
  }

  /** A quiet state in which a stamp belongs to no listed route can be reached: the tunnel was seen
      again after a sweep collected its old stamp and before the sweep dropped it. */
  lemma RefreshCanLeaveAnOrphan(id: Ip, key: RouteKey, rtt: u32) returns (s: State)
    ensures Reachable(s, rtt) && (forall tid :: !Running(s, tid))
    ensures (id, key) in s.tables.time && !Listed(s.tables, id, key)
  {
    hide Alone, Reachable, CodeOf, Lists, Left;
    var op, p := AddOwner(id, key), (id, key);
    s := AddAndCollect(id, key, rtt);
    s := Begin(s, 0, op, rtt);
    ReachableInv(s, rtt);
    AloneIsAtomic(s.tables, op, rtt, 2);
    s := RunsToEnd(s, 0, rtt, 2);
    assert p in s.tables.time;
    PurgedLists(s.tables, {p});
    DropAlone(s.tables, {p}, 3);
    s := RunsToEnd(s, 1, rtt, 3);
  }
}
