/** Routing by subnet: the longest matching prefix wins, the earliest listed among equals. */
module SubnetRoute {
  import opened Basics
  import opened Sorting

  /** An IPv4 network; a prefix has at most 32 bits. */
  datatype Net = Net(addr: Ip, prefix: nat) {
    predicate Contains(ip: Ip) {
      prefix <= 32 && ip as nat / Pow2(32 - prefix) == addr as nat / Pow2(32 - prefix)
    }
  }

  datatype NetInput = NetInput(net: Net, target: Ip)

  function Pow2(n: nat): (p: nat)
    ensures p > 0
  {
    if n == 0 then 1 else 2 * Pow2(n - 1)
  }

  /** Bit `b` of an address, counted from the lowest. */
  function Bit(ip: Ip, b: nat): nat {
    ip as nat / Pow2(b) % 2
  }

  ghost predicate SameFrom(x: Ip, y: Ip, s: nat) {
    forall b :: s <= b < 32 ==> Bit(x, b) == Bit(y, b)
  }

  lemma {:induction false} HighBits(x: Ip, y: Ip, s: nat)
    requires s <= 32
    ensures x as nat / Pow2(s) == y as nat / Pow2(s) <==> SameFrom(x, y, s)
    decreases 32 - s
  {
    if s == 32 {
      AllBits(x);
      AllBits(y);
    } else {
      HighBits(x, y, s + 1);
      HalfOf(x as nat, s);
      HalfOf(y as nat, s);
      SameNext(x, y, s);
      var a, b := x as nat / Pow2(s), y as nat / Pow2(s);
      assert a == 2 * (a / 2) + a % 2 && b == 2 * (b / 2) + b % 2;
    }
  }

  lemma AllBits(x: Ip)
    ensures x as nat / Pow2(32) == 0
  {
    assert Pow2(8) == 0x100;
    assert Pow2(16) == 0x1_0000;
    assert Pow2(24) == 0x100_0000;
    assert Pow2(32) == 0x1_0000_0000;
  }

  lemma SameNext(x: Ip, y: Ip, s: nat)
    requires s < 32
    ensures SameFrom(x, y, s) <==> x as nat / Pow2(s) % 2 == y as nat / Pow2(s) % 2 && SameFrom(x, y, s + 1)
  {
    assert Bit(x, s) == x as nat / Pow2(s) % 2 && Bit(y, s) == y as nat / Pow2(s) % 2;
    hide Bit, Pow2;
  }

  lemma HalfOf(n: nat, s: nat)
    ensures n / Pow2(s + 1) == n / Pow2(s) / 2
  {
    var p, q := Pow2(s), n / Pow2(s);
    var r, e := n % p, q % 2;
    assert n == p * q + r && q == 2 * (q / 2) + e;
    assert n == (2 * p) * (q / 2) + (p * e + r);
    assert 0 <= p * e + r < 2 * p;
    QuotientIs(n, 2 * p, q / 2, p * e + r);
  }

  lemma QuotientIs(n: nat, d: nat, q: nat, r: nat)
    requires d > 0 && n == d * q + r && r < d
    ensures n / d == q
  {
    var k := n / d - q;
    assert d * k == r - n % d;
    assert k >= 1 ==> d * k >= d;
    assert k <= -1 ==> d * k + d <= 0;
  }

  /** An address lies in a network exactly when it agrees with it on the top `prefix` bits. */
  lemma ContainsMeans(net: Net, ip: Ip)
    ensures net.Contains(ip) <==>
      net.prefix <= 32 && forall b :: 32 - net.prefix <= b < 32 ==> Bit(ip, b) == Bit(net.addr, b)
  {
    hide Pow2, Bit;
    if net.prefix <= 32 {
      HighBits(ip, net.addr, 32 - net.prefix);
    }
  }

  /** Sorting by this key puts longer prefixes first. */
  const LONGEST_FIRST: NetInput -> int := (r: NetInput) => 0 as int - r.net.prefix
  const SHORTEST_FIRST: Net -> int := (n: Net) => n.prefix

  predicate Matches(r: NetInput, ip: Ip) {
    r.net.Contains(ip)
  }

  function Matching(ip: Ip): NetInput -> bool {
    (r: NetInput) => Matches(r, ip)
  }

  /** The entry that longest-prefix routing should choose. */
  ghost predicate IsChosen(table: seq<NetInput>, ip: Ip, i: int) {
    && 0 <= i < |table| && Matches(table[i], ip)
    && (forall j :: 0 <= j < |table| && Matches(table[j], ip) ==> table[j].net.prefix <= table[i].net.prefix)
    && (forall j :: 0 <= j < i && Matches(table[j], ip) ==> table[j].net.prefix < table[i].net.prefix)
  }

  // ---------- the first match on a stably sorted list ----------

  function First<T>(s: seq<T>, p: T -> bool): Option<T> {
    if s == [] then None
    else
      var r := First(s[..|s| - 1], p);
      if r.Some? then r else if p(s[|s| - 1]) then Some(s[|s| - 1]) else None
  }

  lemma {:induction false} FirstMeans<T>(s: seq<T>, p: T -> bool)
    ensures First(s, p).None? <==> forall x :: x in s ==> !p(x)
    ensures First(s, p).Some? ==> First(s, p).value in s && p(First(s, p).value)
  {
    if s != [] {
      var front, last := s[..|s| - 1], s[|s| - 1];
      FirstMeans(front, p);
      assert s == front + [last];
    }
  }

  lemma {:induction false} FirstOfSorted<T>(s: seq<T>, key: T -> int, p: T -> bool)
    requires SortedBy(s, key) && First(s, p).Some?
    ensures forall x :: x in s && p(x) ==> key(First(s, p).value) <= key(x)
    ensures First(WithKey(s, key, key(First(s, p).value)), p) == First(s, p)
  {
    var front, last := s[..|s| - 1], s[|s| - 1];
    assert s == front + [last];
    var k := key(First(s, p).value);
    FirstMeans(s, p);
    FirstMeans(front, p);
    if First(front, p).Some? {
      FirstOfSorted(front, key, p);
      assert First(front, p).value in front;
      FirstAppend(WithKey(front, key, k), if key(last) == k then [last] else [], p);
    } else {
      NoneWithKey(front, key, p, k);
      FirstAppend(WithKey(front, key, k), [last], p);
    }
  }

  lemma {:induction false} NoneWithKey<T>(s: seq<T>, key: T -> int, p: T -> bool, k: int)
    requires First(s, p).None?
    ensures First(WithKey(s, key, k), p).None?
  {
    if s != [] {
      NoneWithKey(s[..|s| - 1], key, p, k);
      FirstAppend(WithKey(s[..|s| - 1], key, k), if key(s[|s| - 1]) == k then [s[|s| - 1]] else [], p);
    }
  }

  lemma FirstAppend<T>(a: seq<T>, b: seq<T>, p: T -> bool)
    requires |b| <= 1
    ensures First(a + b, p) == if First(a, p).Some? then First(a, p) else First(b, p)
  {
    if b == [] {
      assert a + b == a;
    } else {
      assert (a + b)[..|a|] == a;
    }
  }

  ghost predicate IsFirst<T>(s: seq<T>, key: T -> int, p: T -> bool, k: int, i: int) {
    && 0 <= i < |s| && p(s[i]) && key(s[i]) == k
    && forall j :: 0 <= j < i && p(s[j]) ==> key(s[j]) != k
  }

  lemma WithKeyNext<T>(s: seq<T>, key: T -> int, k: int)
    requires s != []
    ensures var front, last := s[..|s| - 1], s[|s| - 1];
      s == front + [last] && WithKey(s, key, k) == WithKey(front, key, k) + if key(last) == k then [last] else []
  {
  }

  lemma FirstStaysFirst<T>(s: seq<T>, key: T -> int, p: T -> bool, k: int, i: int)
    requires s != [] && IsFirst(s[..|s| - 1], key, p, k, i)
    ensures IsFirst(s, key, p, k, i) && s[i] == s[..|s| - 1][i]
  {
    var front := s[..|s| - 1];
    assert forall j :: 0 <= j < |front| ==> front[j] == s[j];
  }

  /** With no earlier match of the key, the last entry is the first. */
  lemma LastIsFirst<T>(s: seq<T>, key: T -> int, p: T -> bool, k: int)
    requires s != [] && First(WithKey(s[..|s| - 1], key, k), p).None?
    requires key(s[|s| - 1]) == k && p(s[|s| - 1])
    ensures IsFirst(s, key, p, k, |s| - 1)
  {
    var front := s[..|s| - 1];
    FirstMeans(WithKey(front, key, k), p);
    hide First, WithKey;
    forall j | 0 <= j < |front| && p(s[j]) ensures key(s[j]) != k {
      assert front[j] == s[j];
      if key(front[j]) == k {
        InWithKey(front, key, k, j);
      }
    }
  }

  /** The first match among the entries of one key is the first entry that matches and has the key. */
  lemma {:induction false} FirstWithKey<T>(s: seq<T>, key: T -> int, p: T -> bool, k: int)
    requires First(WithKey(s, key, k), p).Some?
    ensures exists i :: IsFirst(s, key, p, k, i) && s[i] == First(WithKey(s, key, k), p).value
  {
    if s != [] {
      var front, last := s[..|s| - 1], s[|s| - 1];
      WithKeyNext(s, key, k);
      var tail := if key(last) == k then [last] else [];
      FirstAppend(WithKey(front, key, k), tail, p);
      FirstOfOne(last, p);
      hide WithKey, IsFirst;
      if First(WithKey(front, key, k), p).Some? {
        FirstWithKey(front, key, p, k);
        var i :| IsFirst(front, key, p, k, i) && front[i] == First(WithKey(front, key, k), p).value;
        FirstStaysFirst(s, key, p, k, i);
      } else {
        LastIsFirst(s, key, p, k);
      }
    }
  }

  lemma FirstOfOne<T>(x: T, p: T -> bool)
    ensures First([x], p) == if p(x) then Some(x) else None
    ensures First([], p) == None
  {
    assert [x][..0] == [];
  }

  lemma {:induction false} InWithKey<T>(s: seq<T>, key: T -> int, k: int, i: int)
    requires 0 <= i < |s| && key(s[i]) == k
    ensures s[i] in WithKey(s, key, k)
  {
    if i < |s| - 1 {
      InWithKey(s[..|s| - 1], key, k, i);
    }
  }

  /** Scanning the sorted table finds what longest-prefix routing asks for in the table as given. */
  lemma SortedScanChooses(given: seq<NetInput>, ip: Ip)
    ensures var r := First(StableSort(given, LONGEST_FIRST), Matching(ip));
      && (r.None? <==> forall x :: x in given ==> !Matches(x, ip))
      && (r.Some? ==> exists i :: IsChosen(given, ip, i) && given[i] == r.value)
  {
    var s := StableSort(given, LONGEST_FIRST);
    var p := Matching(ip);
    StableSortSorts(given, LONGEST_FIRST);
    assert forall x :: x in s <==> x in multiset(s);
    assert forall x :: x in given <==> x in multiset(given);
    FirstMeans(s, p);
    if First(s, p).Some? {
      var x := First(s, p).value;
      var k := LONGEST_FIRST(x);
      FirstOfSorted(s, LONGEST_FIRST, p);
      StableSortStable(given, LONGEST_FIRST, k);
      FirstWithKey(given, LONGEST_FIRST, p, k);
      var i :| IsFirst(given, LONGEST_FIRST, p, k, i) && given[i] == x;
      forall j | 0 <= j < |given| && Matches(given[j], ip)
        ensures given[j].net.prefix <= given[i].net.prefix && (j < i ==> given[j].net.prefix < given[i].net.prefix)
      {
        assert given[j] in s;
        assert p(given[j]);
      }
      assert IsChosen(given, ip, i);
    }
  }

  // ---------- the tables ----------

  class SubnetExternalRoute {
    var table: seq<NetInput>
    /** The table as it was last given. */
    ghost var given: seq<NetInput>

    ghost predicate Valid()
      reads this
    {
      table == StableSort(given, LONGEST_FIRST)
    }

    constructor (routes: seq<NetInput>)
      ensures Valid() && given == routes
    {
      table := StableSort(routes, LONGEST_FIRST);
      given := routes;
    }

    method SetRouteTable(routes: seq<NetInput>)
      modifies this
      ensures Valid() && given == routes
    {
      table := StableSort(routes, LONGEST_FIRST);
      given := routes;
    }

    /** The target of the longest matching prefix, the earliest given among equals; none exactly when
        nothing matches. */
    method Route(ip: Ip) returns (r: Option<Ip>)
      requires Valid()
      ensures r.None? <==> forall x :: x in given ==> !Matches(x, ip)
      ensures r.Some? ==> exists i :: IsChosen(given, ip, i) && given[i].target == r.value
    {
      hide StableSort, IsChosen;
      SortedScanChooses(given, ip);
      for k := 0 to |table|
        invariant First(table[..k], Matching(ip)).None?
      {
        assert table[..k + 1][..k] == table[..k];
        if table[k].net.Contains(ip) {
          FirstStays(table, k + 1, Matching(ip));
          return Some(table[k].target);
        }
      }
      assert table[..|table|] == table;
      r := None;
    }
  }

  lemma {:induction false} FirstStays<T>(s: seq<T>, n: nat, p: T -> bool)
    requires n <= |s| && First(s[..n], p).Some?
    ensures First(s, p) == First(s[..n], p)
    decreases |s|
  {
    if n == |s| {
      assert s[..n] == s;
    } else {
      var front := s[..|s| - 1];
      assert front[..n] == s[..n];
      FirstStays(front, n, p);
    }
  }

  class AllowSubnetExternalRoute {
    const table: seq<Net>
    ghost const given: seq<Net>

    ghost predicate Valid() {
      table == StableSort(given, SHORTEST_FIRST)
    }

    constructor (nets: seq<Net>)
      ensures Valid() && given == nets
    {
      table := StableSort(nets, SHORTEST_FIRST);
      given := nets;
    }

    /** Allowed when some listed network has the address, in whatever order they were listed. */
    method Allow(ip: Ip) returns (ok: bool)
      requires Valid()
      ensures ok <==> exists net :: net in given && net.Contains(ip)
    {
      StableSortSorts(given, SHORTEST_FIRST);
      assert forall x :: x in table <==> x in multiset(table);
      assert forall x :: x in given <==> x in multiset(given);
      for k := 0 to |table|
        invariant forall j :: 0 <= j < k ==> !table[j].Contains(ip)
      {
        if table[k].Contains(ip) {
          assert table[k] in given;
          return true;
        }
      }
      ok := false;
    }
  }
}
