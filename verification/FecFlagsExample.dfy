/** Wrong flags under the code the crate builds for two originals and one parity shard: the systematic
    Vandermonde code, whose parity is 3 * a + 2 * b in GF(2^8). */
module FecFlagsExample {
  import opened Basics
  import opened ErasureCode
  import opened FecFlags
  import opened FecLinear
  import opened FecShard
  import opened Gf256
  import opened NetPacket

  // ---------- three and a half ----------

  function Triple(v: Oct): Oct {
    Xor(v, Double(v))
  }

  function Half(v: Oct): Oct {
    Oct(v.b1, v.b2 != v.b0, v.b3 != v.b0, v.b4 != v.b0, v.b5, v.b6, v.b7, v.b0)
  }

  function Third(v: Oct): Oct {
    var low, high := v.b0 != (v.b1 != v.b2), v.b4 != (v.b5 != (v.b6 != v.b7));
    var upTo4 := low != (v.b3 != v.b4);
    var upTo5 := upTo4 != v.b5;
    var upTo6 := upTo5 != v.b6;
    var from2 := v.b2 != (v.b3 != high);
    Oct(v.b1 != from2, from2, low, high, upTo4, upTo5, upTo6, upTo6 != v.b7)
  }

  lemma HalfDoubles(v: Oct)
    ensures Double(Half(v)) == v && Half(Double(v)) == v
  {
  }

  lemma ThirdTriples(v: Oct)
    ensures Triple(Third(v)) == v && Third(Triple(v)) == v
  {
  }

  lemma XorTwice(a: Oct, b: Oct)
    ensures Xor(Xor(a, b), b) == a && Xor(b, Xor(a, b)) == a && Xor(Xor(b, a), b) == a
  {
    Twice(a.b0, b.b0);
    Twice(a.b1, b.b1);
    Twice(a.b2, b.b2);
    Twice(a.b3, b.b3);
    Twice(a.b4, b.b4);
    Twice(a.b5, b.b5);
    Twice(a.b6, b.b6);
    Twice(a.b7, b.b7);
  }

  lemma Twice(p: bool, q: bool)
    ensures ((p != q) != q) == p && (q != (p != q)) == p && ((q != p) != q) == p
  {
  }

  // ---------- the code ----------

  function Parity(a: byte, b: byte): byte {
    OfBits(Xor(Triple(Bits(a)), Double(Bits(b))))
  }

  function First(p: byte, b: byte): byte {
    OfBits(Third(Xor(Bits(p), Double(Bits(b)))))
  }

  function Second(p: byte, a: byte): byte {
    OfBits(Half(Xor(Bits(p), Triple(Bits(a)))))
  }

  function Solve(k: nat, m: nat, col: seq<Option<byte>>, i: nat): byte {
    if |col| != 3 then 0
    else if i == 0 then
      if col[0].Some? then col[0].value
      else if col[1].Some? && col[2].Some? then First(col[2].value, col[1].value) else 0
    else
      if col[1].Some? then col[1].value
      else if col[0].Some? && col[2].Some? then Second(col[2].value, col[0].value) else 0
  }

  const CODE := RsCode(
    (k: nat, m: nat, d: seq<byte>, j: nat) => if |d| == 2 then Parity(d[0], d[1]) else 0,
    (k: nat, m: nat, col: seq<Option<byte>>, i: nat) => Solve(k, m, col, i))

  lemma ParityOfFirst(p: byte, b: byte)
    ensures Parity(First(p, b), b) == p
  {
    hide Bits, OfBits, Xor, Double, Triple, Third;
    var x := Xor(Bits(p), Double(Bits(b)));
    OfBitsBack(Third(x));
    ThirdTriples(x);
    XorTwice(Bits(p), Double(Bits(b)));
    BitsRoundTrip(p);
  }

  lemma ParityOfSecond(p: byte, a: byte)
    ensures Parity(a, Second(p, a)) == p
  {
    hide Bits, OfBits, Xor, Double, Triple, Half;
    var x := Xor(Bits(p), Triple(Bits(a)));
    OfBitsBack(Half(x));
    HalfDoubles(x);
    XorTwice(Bits(p), Triple(Bits(a)));
    BitsRoundTrip(p);
  }

  lemma FirstOfParity(a: byte, b: byte)
    ensures First(Parity(a, b), b) == a && Second(Parity(a, b), a) == b
  {
    hide Bits, OfBits, Xor, Double, Triple, Half, Third;
    var t, d := Triple(Bits(a)), Double(Bits(b));
    OfBitsBack(Xor(t, d));
    XorTwice(t, d);
    XorTwice(d, t);
    ThirdTriples(Bits(a));
    HalfDoubles(Bits(b));
    BitsRoundTrip(a);
    BitsRoundTrip(b);
  }

  lemma CodeIsMds()
    ensures Mds(CODE, 2, 1)
  {
    hide Parity, First, Second;
    forall d, e | |d| == 2 && |e| == 2 && |Agreement(Word(CODE, 2, 1, d), Word(CODE, 2, 1, e))| >= 2 ensures d == e {
      var p, q := Word(CODE, 2, 1, d), Word(CODE, 2, 1, e);
      assert p[2] == Parity(d[0], d[1]) && q[2] == Parity(e[0], e[1]);
      TwoOfThree(Agreement(p, q));
      FirstOfParity(d[0], d[1]);
      FirstOfParity(e[0], e[1]);
      assert d[0] == e[0] && d[1] == e[1];
    }
  }

  lemma TwoOfThree(s: set<nat>)
    requires |s| >= 2 && forall i :: i in s ==> i < 3
    ensures (0 in s && 1 in s) || (2 in s && (0 in s || 1 in s))
  {
    if 0 !in s {
      SubsetSize(s, {1, 2});
    } else if 1 !in s {
      SubsetSize(s, {0, 2});
    }
  }

  lemma CodeSolves()
    ensures Solves(CODE, 2, 1)
  {
    hide Parity, First, Second;
    forall col: seq<Option<byte>> | |col| == 3 && Count(col) >= 2
      ensures Fits(col, Word(CODE, 2, 1, Solved(CODE, 2, 1, col)), 2)
    {
      ColumnSolved(col);
    }
  }

  lemma ColumnSolved(col: seq<Option<byte>>)
    requires |col| == 3 && Count(col) >= 2
    ensures Fits(col, Word(CODE, 2, 1, Solved(CODE, 2, 1, col)), 2)
  {
    hide Parity, First, Second;
    var d := Solved(CODE, 2, 1, col);
    var w := Word(CODE, 2, 1, d);
    assert w[0] == d[0] && w[1] == d[1] && w[2] == Parity(d[0], d[1]);
    CountIsPresent(col);
    TwoOfThree(Present(col));
    if col[2].Some? {
      if col[0].Some? && col[1].Some? {
        CountIsPresent(col[..2]);
        assert Present(col[..2]) == {0, 1};
      } else if col[0].Some? {
        ParityOfSecond(col[2].value, col[0].value);
      } else {
        ParityOfFirst(col[2].value, col[1].value);
      }
    }
  }

  lemma ParityAdds(a: byte, b: byte, x: byte, y: byte)
    ensures Parity(Add(a, x), Add(b, y)) == Add(Parity(a, b), Parity(x, y))
    ensures Parity(Scale(1, a), Scale(1, b)) == Scale(1, Parity(a, b))
  {
    hide Bits, OfBits, Xor, Double;
    var o, p, q, r := Bits(a), Bits(b), Bits(x), Bits(y);
    OfBitsBack(Xor(o, q));
    OfBitsBack(Xor(p, r));
    OfBitsBack(Xor(Triple(o), Double(p)));
    OfBitsBack(Xor(Triple(q), Double(r)));
    DoubleXor(o, q);
    DoubleXor(p, r);
    XorFour(o, Double(o), q, Double(q));
    XorFour(o, q, Double(o), Double(q));
    XorFour(Triple(o), Triple(q), Double(p), Double(r));
    Unroll(o);
    Unroll(p);
    Unroll(Xor(Triple(o), Double(p)));
    OfBitsBack(Double(o));
    OfBitsBack(Double(p));
    DoubleXor(o, Double(o));
    DoubleXor(Triple(o), Double(p));
  }

  lemma CodeIsLinear()
    ensures Linear(CODE, 2, 1)
  {
    hide Parity, Add, Scale;
    forall d: seq<byte>, e: seq<byte>, j: nat | |d| == 2 && |e| == 2 && j < 1
      ensures CODE.parity(2, 1, AddAll(d, e), j) == Add(CODE.parity(2, 1, d, j), CODE.parity(2, 1, e, j))
      ensures CODE.parity(2, 1, DoubleAll(d), j) == Scale(1, CODE.parity(2, 1, d, j))
    {
      ParityAdds(d[0], d[1], e[0], e[1]);
    }
  }

  // ---------- one loss ----------

  /** Two originals without flags, of which one is lost. If the first is, the packet rebuilt for it
      claims to be compressed and for the gateway; if the second is, it carries a bit no flag uses. */
  lemma FlagsAppear(a: Fields, b: Fields)
    requires a.flagsByte == 0 && b.flagsByte == 0
    ensures GoodCode(CODE, 2, 1)
    ensures RebuiltFlags(CODE, [a, b], 1, {1, 2}, 0) == 0xCB && Has(0xCB, COMPRESSED) && Has(0xCB, GATEWAY)
    ensures RebuiltFlags(CODE, [a, b], 1, {0, 2}, 1) == 0x10
  {
    CodeIsMds();
    CodeSolves();
    CodeIsLinear();
    hide Linear, Mds, Solves;
    FirstLost(a, b);
    SecondLost(a, b);
  }

  lemma WithoutFlags(a: Fields, b: Fields, seen: set<nat>)
    requires a.flagsByte == 0 && b.flagsByte == 0
    ensures var col := FlagsColumn(CODE, [a, b], 1, seen);
      && (0 in seen ==> col[0] == Some(0x20)) && (0 !in seen ==> col[0] == None)
      && (1 in seen ==> col[1] == Some(0x20)) && (1 !in seen ==> col[1] == None)
      && (2 in seen ==> col[2] == Some(0))
  {
    hide Parity;
    assert CodedFlags([a, b]) == [0, 0];
    assert WireFlags(0) == 0x20;
    assert Parity(0, 0) == 0 by {
      ParityOfZero();
    }
  }

  lemma ParityOfZero()
    ensures Parity(0, 0) == 0
  {
    assert Bits(0) == ZERO && Double(ZERO) == ZERO && Triple(ZERO) == ZERO && Xor(ZERO, ZERO) == ZERO;
  }

  lemma FirstLost(a: Fields, b: Fields)
    requires a.flagsByte == 0 && b.flagsByte == 0
    ensures RebuiltFlags(CODE, [a, b], 1, {1, 2}, 0) == 0xCB && Has(0xCB, COMPRESSED) && Has(0xCB, GATEWAY)
  {
    hide First, FlagsColumn;
    WithoutFlags(a, b, {1, 2});
    FirstValue();
  }

  lemma SecondLost(a: Fields, b: Fields)
    requires a.flagsByte == 0 && b.flagsByte == 0
    ensures RebuiltFlags(CODE, [a, b], 1, {0, 2}, 1) == 0x10
  {
    hide Second, FlagsColumn;
    WithoutFlags(a, b, {0, 2});
    SecondValue();
  }

  const DOUBLE5 := Oct(false, false, false, false, false, false, true, false)
  const TRIPLE5 := Oct(false, false, false, false, false, true, true, false)
  const THIRD5 := Oct(true, true, false, true, false, false, true, true)
  const HALF5 := Oct(false, false, false, false, true, true, false, false)

  lemma FirstValue()
    ensures First(0, 0x20) == 0xCB && With(0xCB, FEC, false) == 0xCB
  {
    hide Bits, OfBits;
    SomeBits();
    OtherBits();
    assert Double(BIT5) == DOUBLE5 && Xor(ZERO, DOUBLE5) == DOUBLE5 && Third(DOUBLE5) == THIRD5;
  }

  lemma SecondValue()
    ensures Second(0, 0x20) == 0x30 && With(0x30, FEC, false) == 0x10
  {
    hide Bits, OfBits;
    SomeBits();
    OtherBits();
    assert Triple(BIT5) == TRIPLE5 && Xor(ZERO, TRIPLE5) == TRIPLE5 && Half(TRIPLE5) == HALF5;
  }

  lemma OtherBits()
    ensures Bits(0) == ZERO && OfBits(THIRD5) == 0xCB && OfBits(HALF5) == 0x30
  {
  }
}
