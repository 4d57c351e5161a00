/** Arithmetic in GF(2^8) modulo x^8 + x^4 + x^3 + x^2 + 1, on octets taken apart into bits. */
module Gf256 {
  import opened Basics

  /** An octet as its bits, the lowest first. */
  datatype Oct = Oct(b0: bool, b1: bool, b2: bool, b3: bool, b4: bool, b5: bool, b6: bool, b7: bool)

  const ZERO := Oct(false, false, false, false, false, false, false, false)

  function Bit(b: bool): byte {
    if b then 1 else 0
  }

  function Nibble(p: bool, q: bool, r: bool, s: bool): (n: byte)
    ensures n < 16
  {
    Bit(p) + 2 * Bit(q) + 4 * Bit(r) + 8 * Bit(s)
  }

  function OfBits(o: Oct): byte {
    Nibble(o.b0, o.b1, o.b2, o.b3) + 16 * Nibble(o.b4, o.b5, o.b6, o.b7)
  }

  function Bits(b: byte): Oct {
    var l, h := b % 16, b / 16;
    Oct(l % 2 == 1, l / 2 % 2 == 1, l / 4 % 2 == 1, l / 8 == 1, h % 2 == 1, h / 2 % 2 == 1, h / 4 % 2 == 1, h / 8 == 1)
  }

  lemma NibbleRoundTrip(n: byte)
    requires n < 16
    ensures Nibble(n % 2 == 1, n / 2 % 2 == 1, n / 4 % 2 == 1, n / 8 == 1) == n
  {
  }

  lemma BitsRoundTrip(b: byte)
    ensures OfBits(Bits(b)) == b
  {
    NibbleRoundTrip(b % 16);
    NibbleRoundTrip(b / 16);
  }

  lemma NibbleInjective(a: Oct, b: Oct)
    ensures Nibble(a.b0, a.b1, a.b2, a.b3) == Nibble(b.b0, b.b1, b.b2, b.b3)
      ==> a.b0 == b.b0 && a.b1 == b.b1 && a.b2 == b.b2 && a.b3 == b.b3
    ensures Nibble(a.b4, a.b5, a.b6, a.b7) == Nibble(b.b4, b.b5, b.b6, b.b7)
      ==> a.b4 == b.b4 && a.b5 == b.b5 && a.b6 == b.b6 && a.b7 == b.b7
  {
  }

  lemma OfBitsInjective(a: Oct, b: Oct)
    requires OfBits(a) == OfBits(b)
    ensures a == b
  {
    hide Nibble;
    var l, h := Nibble(a.b0, a.b1, a.b2, a.b3), Nibble(a.b4, a.b5, a.b6, a.b7);
    var p, q := Nibble(b.b0, b.b1, b.b2, b.b3), Nibble(b.b4, b.b5, b.b6, b.b7);
    assert l as int + 16 * h as int == p as int + 16 * q as int;
    NibbleInjective(a, b);
  }

  function Xor(a: Oct, b: Oct): Oct {
    Oct(a.b0 != b.b0, a.b1 != b.b1, a.b2 != b.b2, a.b3 != b.b3, a.b4 != b.b4, a.b5 != b.b5, a.b6 != b.b6, a.b7 != b.b7)
  }

  /** Multiplication by two modulo x^8 + x^4 + x^3 + x^2 + 1. */
  function Double(v: Oct): Oct {
    Oct(v.b7, v.b0, v.b1 != v.b7, v.b2 != v.b7, v.b3 != v.b7, v.b4, v.b5, v.b6)
  }

  function Times(n: nat, v: Oct): Oct {
    if n == 0 then v else Double(Times(n - 1, v))
  }

  lemma DoubleXor(a: Oct, b: Oct)
    ensures Double(Xor(a, b)) == Xor(Double(a), Double(b))
  {
    var l, r := Double(Xor(a, b)), Xor(Double(a), Double(b));
    assert l.b0 == r.b0 && l.b1 == r.b1 && l.b2 == r.b2 && l.b3 == r.b3;
    assert l.b4 == r.b4 && l.b5 == r.b5 && l.b6 == r.b6 && l.b7 == r.b7;
  }

  lemma {:induction false} TimesXor(n: nat, a: Oct, b: Oct)
    ensures Times(n, Xor(a, b)) == Xor(Times(n, a), Times(n, b))
  {
    if n > 0 {
      TimesXor(n - 1, a, b);
      DoubleXor(Times(n - 1, a), Times(n - 1, b));
    }
  }

  lemma {:induction false} TimesZero(n: nat, a: Oct)
    ensures Times(n, a) == ZERO <==> a == ZERO
  {
    if n > 0 {
      TimesZero(n - 1, a);
    }
  }

  lemma {:induction false} TimesSum(n: nat, i: nat, v: Oct)
    ensures Times(n + i, v) == Times(n, Times(i, v))
  {
    if n > 0 {
      TimesSum(n - 1, i, v);
    }
  }

  /** The first nine powers of two have no fixed point but zero. */
  lemma NoFixedPoint(n: nat, v: Oct)
    requires 1 <= n <= 9 && Times(n, v) == v
    ensures v == ZERO
  {
    Unroll(v);
  }

  lemma Unroll(v: Oct)
    ensures Times(1, v) == Double(v)
    ensures Times(2, v) == Double(Times(1, v)) && Times(3, v) == Double(Times(2, v))
    ensures Times(4, v) == Double(Times(3, v)) && Times(5, v) == Double(Times(4, v))
    ensures Times(6, v) == Double(Times(5, v)) && Times(7, v) == Double(Times(6, v))
    ensures Times(8, v) == Double(Times(7, v)) && Times(9, v) == Double(Times(8, v))
  {
  }

  lemma XorCommutes(a: Oct, b: Oct)
    ensures Xor(a, b) == Xor(b, a)
  {
  }

  lemma XorCancelRight(a: Oct, b: Oct, c: Oct)
    ensures Xor(Xor(a, c), Xor(b, c)) == Xor(a, b)
  {
    var p, q := Xor(a, c), Xor(b, c);
    var l := Xor(p, q);
    Cancel(a.b0, b.b0, c.b0);
    Cancel(a.b1, b.b1, c.b1);
    Cancel(a.b2, b.b2, c.b2);
    Cancel(a.b3, b.b3, c.b3);
    Cancel(a.b4, b.b4, c.b4);
    Cancel(a.b5, b.b5, c.b5);
    Cancel(a.b6, b.b6, c.b6);
    Cancel(a.b7, b.b7, c.b7);
  }

  lemma Cancel(p: bool, q: bool, r: bool)
    ensures ((p != r) != (q != r)) == (p != q)
  {
  }

  lemma XorCancel(a: Oct, b: Oct, c: Oct)
    ensures Xor(Xor(a, c), Xor(b, c)) == Xor(a, b)
    ensures Xor(Xor(c, a), Xor(c, b)) == Xor(a, b)
  {
    XorCancelRight(a, b, c);
    XorCommutes(a, c);
    XorCommutes(b, c);
  }

  lemma XorFour(a: Oct, b: Oct, c: Oct, d: Oct)
    ensures Xor(Xor(a, c), Xor(b, d)) == Xor(Xor(a, b), Xor(c, d))
  {
  }

  lemma XorEqual(a: Oct, b: Oct)
    ensures Xor(a, b) == ZERO <==> a == b
  {
  }

  // ---------- on bytes ----------

  function Add(a: byte, b: byte): byte {
    OfBits(Xor(Bits(a), Bits(b)))
  }

  /** The product with `2^n`. */
  function Scale(n: nat, a: byte): byte {
    OfBits(Times(n, Bits(a)))
  }

  lemma OfBitsBack(o: Oct)
    ensures Bits(OfBits(o)) == o
  {
    BitsRoundTrip(OfBits(o));
    OfBitsInjective(Bits(OfBits(o)), o);
  }

  lemma AddZero(a: byte)
    ensures Add(a, 0) == a && Add(0, a) == a
  {
    assert Bits(0) == ZERO;
    assert Xor(Bits(a), ZERO) == Bits(a) && Xor(ZERO, Bits(a)) == Bits(a);
    BitsRoundTrip(a);
  }

  lemma AddCancel(a: byte, b: byte, c: byte)
    ensures Add(a, b) == Add(a, c) <==> b == c
  {
    hide Xor, Bits, OfBits;
    if Add(a, b) == Add(a, c) {
      OfBitsInjective(Xor(Bits(a), Bits(b)), Xor(Bits(a), Bits(c)));
      XorCancel(Bits(b), Bits(c), Bits(a));
      XorEqual(Bits(b), Bits(c));
      XorEqual(Xor(Bits(a), Bits(b)), Xor(Bits(a), Bits(c)));
      BitsRoundTrip(b);
      BitsRoundTrip(c);
    }
  }

  lemma ScaleNext(n: nat, a: byte)
    ensures Scale(0, a) == a && Scale(1, Scale(n, a)) == Scale(n + 1, a)
  {
    hide Bits, OfBits, Double;
    BitsRoundTrip(a);
    OfBitsBack(Times(n, Bits(a)));
    assert Times(1, Times(n, Bits(a))) == Double(Times(0, Times(n, Bits(a))));
  }
}
