/** The hypotheses of the recovery theorems can be met for every batch the encoder sends: parity 0 is the
    XOR of the data bytes, parity 1 the XOR of the data bytes weighted by powers of two in GF(2^8). */
module FecWitness {
  import opened Basics
  import opened ErasureCode
  import opened Gf256
  import opened NetPacket
  import Encoder = FecEncoder

  // ---------- the code ----------

  function Weighted(j: nat, i: nat, b: byte): Oct {
    Times(if j == 0 then 0 else i, Bits(b))
  }

  function Fold(j: nat, d: seq<byte>): Oct {
    if d == [] then ZERO else Xor(Fold(j, d[..|d| - 1]), Weighted(j, |d| - 1, d[|d| - 1]))
  }

  function Parity(k: nat, m: nat, d: seq<byte>, j: nat): byte {
    OfBits(Fold(j, d))
  }

  predicate DifferOnlyAt(d: seq<byte>, e: seq<byte>, at: set<nat>) {
    |d| == |e| && forall i: nat :: i < |d| && i !in at ==> d[i] == e[i]
  }

  lemma {:induction false} FoldOne(j: nat, d: seq<byte>, e: seq<byte>, x: nat)
    requires DifferOnlyAt(d, e, {x}) && x < |d|
    ensures Xor(Fold(j, d), Fold(j, e)) == Xor(Weighted(j, x, d[x]), Weighted(j, x, e[x]))
  {
    hide Xor, Times, Bits;
    var n := |d| - 1;
    var p, q := d[..n], e[..n];
    if x < n {
      FoldOne(j, p, q, x);
      assert d[n] == e[n];
      XorCancel(Fold(j, p), Fold(j, q), Weighted(j, n, d[n]));
    } else {
      assert p == q;
      XorCancel(Weighted(j, n, d[n]), Weighted(j, n, e[n]), Fold(j, p));
    }
  }

  lemma {:induction false} FoldTwo(j: nat, d: seq<byte>, e: seq<byte>, x: nat, y: nat)
    requires DifferOnlyAt(d, e, {x, y}) && x < y < |d|
    ensures Xor(Fold(j, d), Fold(j, e)) ==
      Xor(Xor(Weighted(j, x, d[x]), Weighted(j, x, e[x])), Xor(Weighted(j, y, d[y]), Weighted(j, y, e[y])))
  {
    hide Xor, Times, Bits;
    var n := |d| - 1;
    var p, q := d[..n], e[..n];
    if y < n {
      FoldTwo(j, p, q, x, y);
      assert d[n] == e[n];
      XorCancel(Fold(j, p), Fold(j, q), Weighted(j, n, d[n]));
    } else {
      FoldOne(j, p, q, x);
      XorFour(Fold(j, p), Fold(j, q), Weighted(j, n, d[n]), Weighted(j, n, e[n]));
    }
  }

  /** If two data columns differ in one byte, every parity byte differs. */
  lemma OneDifference(j: nat, d: seq<byte>, e: seq<byte>, x: nat)
    requires DifferOnlyAt(d, e, {x}) && x < |d| && Fold(j, d) == Fold(j, e)
    ensures d[x] == e[x]
  {
    FoldOne(j, d, e, x);
    var n := if j == 0 then 0 else x;
    XorEqual(Fold(j, d), Fold(j, e));
    TimesXor(n, Bits(d[x]), Bits(e[x]));
    TimesZero(n, Xor(Bits(d[x]), Bits(e[x])));
    XorEqual(Bits(d[x]), Bits(e[x]));
    BitsRoundTrip(d[x]);
    BitsRoundTrip(e[x]);
  }

  /** If they differ in two bytes, the two parity bytes cannot both agree. */
  lemma TwoDifferences(d: seq<byte>, e: seq<byte>, x: nat, y: nat)
    requires DifferOnlyAt(d, e, {x, y}) && x < y < |d| <= 10
    requires Fold(0, d) == Fold(0, e) && Fold(1, d) == Fold(1, e)
    ensures d[x] == e[x]
  {
    hide Xor, Double, Bits, Fold;
    FoldTwo(0, d, e, x, y);
    FoldTwo(1, d, e, x, y);
    var u, v := Xor(Bits(d[x]), Bits(e[x])), Xor(Bits(d[y]), Bits(e[y]));
    TimesXor(x, Bits(d[x]), Bits(e[x]));
    TimesXor(y, Bits(d[y]), Bits(e[y]));
    XorEqual(Fold(0, d), Fold(0, e));
    XorEqual(Fold(1, d), Fold(1, e));
    XorEqual(u, v);
    XorEqual(Times(x, u), Times(y, u));
    TimesSum(y - x, x, u);
    NoFixedPoint(y - x, Times(x, u));
    TimesZero(x, u);
    XorEqual(Bits(d[x]), Bits(e[x]));
    BitsRoundTrip(d[x]);
    BitsRoundTrip(e[x]);
  }

  // ---------- it is MDS for every batch ----------

  function Differences(d: seq<byte>, e: seq<byte>): set<nat>
    requires |d| == |e|
  {
    set i: nat | i < |d| && d[i] != e[i]
  }

  /** The parity positions in which two codewords agree. */
  function ParityAgreement(m: nat, d: seq<byte>, e: seq<byte>): set<nat> {
    set j: nat | j < m && Fold(j, d) == Fold(j, e)
  }

  lemma AgreementSplits(rs: RsCode, k: nat, m: nat, d: seq<byte>, e: seq<byte>)
    requires rs.parity == Parity && |d| == |e| == k
    ensures |Agreement(Word(rs, k, m, d), Word(rs, k, m, e))| <= k - |Differences(d, e)| + |ParityAgreement(m, d, e)|
  {
    hide Fold, OfBits;
    var p, q := Word(rs, k, m, d), Word(rs, k, m, e);
    var all := Agreement(p, q);
    var low, high := all * Below(k), all - Below(k);
    assert all == low + high;
    forall i: nat | i < k ensures p[i] == d[i] && q[i] == e[i] {
    }
    assert low == Below(k) - Differences(d, e);
    assert Differences(d, e) <= Below(k);
    var ps := ParityAgreement(m, d, e);
    forall i | i in high ensures i >= k && i - k in ps {
      assert p[i] == Parity(k, m, d, i - k) && q[i] == Parity(k, m, e, i - k);
      OfBitsInjective(Fold(i - k, d), Fold(i - k, e));
    }
    ShiftSize(high, ps, k);
  }

  lemma ShiftSize(high: set<nat>, ps: set<nat>, k: nat)
    requires forall i :: i in high ==> i >= k && i - k in ps
    ensures |high| <= |ps|
  {
    if high != {} {
      var i :| i in high;
      ShiftSize(high - {i}, ps - {i - k}, k);
    }
  }

  lemma OnlyThose(d: seq<byte>, e: seq<byte>)
    requires |d| == |e|
    ensures DifferOnlyAt(d, e, Differences(d, e))
    ensures forall i: nat :: i in Differences(d, e) <==> i < |d| && d[i] != e[i]
  {
  }

  lemma TwoInAnyOrder(d: seq<byte>, e: seq<byte>, x: nat, y: nat)
    requires x != y && x < |d| <= 10 && y < |d| && DifferOnlyAt(d, e, {x, y})
    requires Fold(0, d) == Fold(0, e) && Fold(1, d) == Fold(1, e)
    ensures d[x] == e[x] || d[y] == e[y]
  {
    hide Fold, DifferOnlyAt;
    if x < y {
      TwoDifferences(d, e, x, y);
    } else {
      assert {x, y} == {y, x};
      TwoDifferences(d, e, y, x);
    }
  }

  /** With no more differences than agreeing parity bytes, the columns are the same. */
  lemma FewDifferences(d: seq<byte>, e: seq<byte>, m: nat)
    requires |d| == |e| <= 10 && m <= 2
    requires |Differences(d, e)| <= |ParityAgreement(m, d, e)|
    ensures Differences(d, e) == {}
  {
    hide Fold, DifferOnlyAt, Differences;
    var diff, ps := Differences(d, e), ParityAgreement(m, d, e);
    OnlyThose(d, e);
    SubsetSize(ps, Below(m));
    if diff != {} {
      var x :| x in diff;
      if diff - {x} == {} {
        assert diff == {x};
        assert ps != {};
        var j :| j in ps;
        OneDifference(j, d, e, x);
      } else {
        var y :| y in diff - {x};
        SubsetSize({x, y}, diff);
        assert diff == {x, y} && ps == Below(2);
        assert 0 in ps && 1 in ps;
        TwoInAnyOrder(d, e, x, y);
      }
    }
  }

  lemma WitnessMds(rs: RsCode, k: nat, m: nat)
    requires rs.parity == Parity && 1 <= k <= 10 && m <= 2
    ensures Mds(rs, k, m)
  {
    forall d, e | |d| == k && |e| == k && |Agreement(Word(rs, k, m, d), Word(rs, k, m, e))| >= k ensures d == e {
      AgreementSplits(rs, k, m, d, e);
      FewDifferences(d, e, m);
      OnlyThose(d, e);
    }
  }

  /** A way to solve, by choosing a codeword that fits whenever there is one. */
  ghost function ChosenData(k: nat, m: nat, col: seq<Option<byte>>): (d: seq<byte>)
    ensures |d| == k
  {
    var rs := RsCode(Parity, (k: nat, m: nat, col: seq<Option<byte>>, i: nat) => 0);
    if |col| == k + m && exists d :: |d| == k && Fits(col, Word(rs, k, m, d), k)
    then var d :| |d| == k && Fits(col, Word(rs, k, m, d), k); d
    else Zeros(k)
  }

  ghost function Witness(): RsCode {
    RsCode(Parity, (k: nat, m: nat, col: seq<Option<byte>>, i: nat) => if i < k then ChosenData(k, m, col)[i] else 0)
  }

  /** The hypotheses of the recovery theorems hold of this code for every batch the encoder flushes. */
  lemma HypothesesCanBeMet(k: nat)
    requires 1 <= k <= Encoder.BATCH_SIZE
    ensures Mds(Witness(), k, Encoder.ParityCount(k)) && Solver(Witness(), k, Encoder.ParityCount(k))
  {
    var m := Encoder.ParityCount(k);
    WitnessMds(Witness(), k, m);
    var rs := RsCode(Parity, (k: nat, m: nat, col: seq<Option<byte>>, i: nat) => 0);
    forall col: seq<Option<byte>>, d: seq<byte> |
      |col| == k + m && |d| == k && Count(col) >= k && Fits(col, Word(Witness(), k, m, d), k)
      ensures Fits(col, Word(Witness(), k, m, Solved(Witness(), k, m, col)), k)
    {
      assert Word(rs, k, m, d) == Word(Witness(), k, m, d);
      var c := ChosenData(k, m, col);
      assert Solved(Witness(), k, m, col) == c;
      assert Word(rs, k, m, c) == Word(Witness(), k, m, c);
    }
  }
}
