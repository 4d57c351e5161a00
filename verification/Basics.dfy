/** Values shared by every component: optional results, bytes, addresses and a few sequence helpers. */
module Basics {

  datatype Option<+T> = None | Some(value: T)

  datatype Result<+T> = Ok(value: T) | Err

  /** An octet. Bit masks are written arithmetically: bit `2^n` of `b` is `(b / 2^n) % 2`. */
  newtype byte = b: int | 0 <= b < 0x100

  /** A 32-bit unsigned word; an IPv4 address is one. */
  newtype u32 = w: int | 0 <= w < 0x1_0000_0000

  type Ip = u32

  function Max(a: nat, b: nat): nat {
    if a < b then b else a
  }

  function Min(a: nat, b: nat): nat {
    if a < b then a else b
  }

  function Zeros(n: nat): (s: seq<byte>)
    ensures |s| == n
  {
    seq(n, i => 0)
  }

  /** The number of present entries. */
  function Count<T>(s: seq<Option<T>>): nat {
    if s == [] then 0 else Count(s[..|s| - 1]) + (if s[|s| - 1].Some? then 1 else 0)
  }

  /** The indices of the present entries. */
  function Present<T>(s: seq<Option<T>>): set<nat> {
    set i: nat | i < |s| && s[i].Some?
  }

  lemma {:induction false} CountIsPresent<T>(s: seq<Option<T>>)
    ensures Count(s) == |Present(s)|
  {
    if s != [] {
      var front, last := s[..|s| - 1], |s| - 1;
      CountIsPresent(front);
      if s[last].Some? {
        assert Present(s) == Present(front) + {last};
      } else {
        assert Present(s) == Present(front);
      }
    }
  }

  lemma SubsetSize<T>(a: set<T>, b: set<T>)
    requires a <= b
    ensures |a| <= |b|
    ensures |a| == |b| ==> a == b
  {
    assert b == a + (b - a);
  }

  /** The first `n` naturals. */
  function Below(n: nat): (s: set<nat>)
    ensures forall i :: i in s <==> 0 <= i < n
    ensures |s| == n
  {
    if n == 0 then {} else Below(n - 1) + {n - 1}
  }

  function Elements<T>(s: seq<T>): set<T> {
    set x | x in s
  }

  // ---------- iteration over an unordered collection ----------

  /** `order` lists every element of `s` once: one of the orders in which a hash map may iterate. */
  ghost predicate Enumerates<K(!new)>(order: seq<K>, s: set<K>) {
    && (forall k :: k in order <==> k in s)
    && (forall i, j :: 0 <= i < j < |order| ==> order[i] != order[j])
  }

  method IterationOrder<K(==,!new)>(s: set<K>) returns (order: seq<K>)
    ensures Enumerates(order, s)
  {
    order := [];
    var todo := s;
    while todo != {}
      invariant todo <= s && Enumerates(order, s - todo)
    {
      var k :| k in todo;
      order, todo := order + [k], todo - {k};
    }
  }
}
