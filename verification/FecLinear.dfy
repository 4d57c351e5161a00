/** The flags column under a linear code, as Reed-Solomon is: the rebuilt flags are off by the FEC bit
    times the sum of the decoding coefficients of the originals that arrived. */
module FecLinear {
  import opened Basics
  import opened ErasureCode
  import opened FecFlags
  import opened FecShard
  import opened Gf256
  import opened NetPacket

  function AddAll(a: seq<byte>, b: seq<byte>): (c: seq<byte>)
    requires |a| == |b|
    ensures |c| == |a|
  {
    seq(|a|, i requires 0 <= i < |a| => Add(a[i], b[i]))
  }

  function DoubleAll(a: seq<byte>): (c: seq<byte>)
    ensures |c| == |a|
  {
    seq(|a|, i requires 0 <= i < |a| => Scale(1, a[i]))
  }

  /** Parity respects sums and the product with two, which generates all field elements but zero. */
  ghost predicate Linear(rs: RsCode, k: nat, m: nat) {
    && (forall d, e, j: nat :: |d| == |e| == k && j < m ==>
          rs.parity(k, m, AddAll(d, e), j) == Add(rs.parity(k, m, d, j), rs.parity(k, m, e, j)))
    && (forall d, j: nat :: |d| == k && j < m ==> rs.parity(k, m, DoubleAll(d), j) == Scale(1, rs.parity(k, m, d, j)))
  }

  ghost predicate GoodCode(rs: RsCode, k: nat, m: nat) {
    Linear(rs, k, m) && Mds(rs, k, m) && Solves(rs, k, m)
  }

  // ---------- solving respects sums and doubles ----------

  function AddColumn(a: seq<Option<byte>>, b: seq<Option<byte>>): (c: seq<Option<byte>>)
    requires |a| == |b|
    ensures |c| == |a|
  {
    seq(|a|, i requires 0 <= i < |a| => if a[i].Some? && b[i].Some? then Some(Add(a[i].value, b[i].value)) else None)
  }

  function DoubleColumn(a: seq<Option<byte>>): (c: seq<Option<byte>>)
    ensures |c| == |a|
  {
    seq(|a|, i requires 0 <= i < |a| => if a[i].Some? then Some(Scale(1, a[i].value)) else None)
  }

  lemma WordAdd(rs: RsCode, k: nat, m: nat, d: seq<byte>, e: seq<byte>)
    requires Linear(rs, k, m) && |d| == |e| == k
    ensures Word(rs, k, m, AddAll(d, e)) == AddAll(Word(rs, k, m, d), Word(rs, k, m, e))
  {
    hide Add;
    var l, r := Word(rs, k, m, AddAll(d, e)), AddAll(Word(rs, k, m, d), Word(rs, k, m, e));
    forall i: nat | i < k + m ensures l[i] == r[i] {
      if i >= k {
        assert l[i] == rs.parity(k, m, AddAll(d, e), i - k);
      }
    }
  }

  lemma WordDouble(rs: RsCode, k: nat, m: nat, d: seq<byte>)
    requires Linear(rs, k, m) && |d| == k
    ensures Word(rs, k, m, DoubleAll(d)) == DoubleAll(Word(rs, k, m, d))
  {
    hide Scale;
    var l, r := Word(rs, k, m, DoubleAll(d)), DoubleAll(Word(rs, k, m, d));
    forall i: nat | i < k + m ensures l[i] == r[i] {
      if i >= k {
        assert l[i] == rs.parity(k, m, DoubleAll(d), i - k);
      }
    }
  }

  lemma SolvesIsSolver(rs: RsCode, k: nat, m: nat)
    requires Solves(rs, k, m)
    ensures Solver(rs, k, m)
  {
  }

  lemma SolvedAdd(rs: RsCode, k: nat, m: nat, a: seq<Option<byte>>, b: seq<Option<byte>>)
    requires GoodCode(rs, k, m) && |a| == k + m && SamePresence(a, b) && Count(a) >= k
    ensures Solved(rs, k, m, AddColumn(a, b)) == AddAll(Solved(rs, k, m, a), Solved(rs, k, m, b))
  {
    hide Add, Linear, Mds, Solver, Word, Solved;
    var c, d, e := AddColumn(a, b), Solved(rs, k, m, a), Solved(rs, k, m, b);
    UsedSame(a, b, k);
    UsedSame(a, c, k);
    assert Fits(a, Word(rs, k, m, d), k) && Fits(b, Word(rs, k, m, e), k);
    hide Used;
    WordAdd(rs, k, m, d, e);
    assert Fits(c, Word(rs, k, m, AddAll(d, e)), k);
    SolvesIsSolver(rs, k, m);
    SolveExact(rs, k, m, c, AddAll(d, e));
  }

  lemma SolvedDouble(rs: RsCode, k: nat, m: nat, a: seq<Option<byte>>)
    requires GoodCode(rs, k, m) && |a| == k + m && Count(a) >= k
    ensures Solved(rs, k, m, DoubleColumn(a)) == DoubleAll(Solved(rs, k, m, a))
  {
    hide Scale, Linear, Mds, Solver, Word, Solved;
    var c, d := DoubleColumn(a), Solved(rs, k, m, a);
    UsedSame(a, c, k);
    assert Fits(a, Word(rs, k, m, d), k);
    hide Used;
    WordDouble(rs, k, m, d);
    assert Fits(c, Word(rs, k, m, DoubleAll(d)), k);
    SolvesIsSolver(rs, k, m);
    SolveExact(rs, k, m, c, DoubleAll(d));
  }

  lemma SolvedAt(rs: RsCode, k: nat, m: nat, col: seq<Option<byte>>, i: nat)
    requires i < k
    ensures Solved(rs, k, m, col)[i] == rs.solve(k, m, col, i)
  {
  }

  // ---------- the error in the flags column ----------

  /** `v` for each original in `seen` below `n`, zero in the other places of `seen`. */
  function Marked(k: nat, m: nat, seen: set<nat>, n: nat, v: byte): (col: seq<Option<byte>>)
    ensures |col| == k + m
  {
    seq(k + m, i requires 0 <= i < k + m => if i !in seen then None else if i < n && i < k then Some(v) else Some(0))
  }

  /** One for the original `j`, zero in the other places of `seen`. */
  function Unit(k: nat, m: nat, seen: set<nat>, j: nat): (col: seq<Option<byte>>)
    ensures |col| == k + m
  {
    seq(k + m, i requires 0 <= i < k + m => if i !in seen then None else if i == j then Some(1) else Some(0))
  }

  /** How much of original `j` goes into the byte solved for `i`. */
  function Coefficient(rs: RsCode, k: nat, m: nat, seen: set<nat>, j: nat, i: nat): byte {
    rs.solve(k, m, Unit(k, m, seen, j), i)
  }

  /** The sum of the coefficients of the originals in `seen` below `n`. */
  function CoefficientSum(rs: RsCode, k: nat, m: nat, seen: set<nat>, i: nat, n: nat): byte {
    if n == 0 then 0
    else
      Add(CoefficientSum(rs, k, m, seen, i, n - 1), if n - 1 in seen then Coefficient(rs, k, m, seen, n - 1, i) else 0)
  }

  ghost predicate Places(k: nat, m: nat, seen: set<nat>) {
    (forall i :: i in seen ==> i < k + m) && |seen| >= k
  }

  lemma CountIn(col: seq<Option<byte>>, k: nat, m: nat, seen: set<nat>)
    requires Places(k, m, seen) && |col| == k + m && forall i: nat :: i < k + m ==> (col[i].Some? <==> i in seen)
    ensures Count(col) >= k
  {
    CountIsPresent(col);
    assert Present(col) == seen;
  }

  lemma SolvedZero(rs: RsCode, k: nat, m: nat, seen: set<nat>, v: byte, i: nat)
    requires GoodCode(rs, k, m) && Places(k, m, seen) && i < k
    ensures rs.solve(k, m, Marked(k, m, seen, 0, v), i) == 0
  {
    hide Add, GoodCode;
    var zero := Marked(k, m, seen, 0, v);
    CountIn(zero, k, m, seen);
    AddZero(0);
    assert AddColumn(zero, zero) == zero;
    SolvedAdd(rs, k, m, zero, zero);
    SolvedAt(rs, k, m, zero, i);
    var s := rs.solve(k, m, zero, i);
    AddZero(s);
    AddCancel(s, s, 0);
  }

  lemma MarkedNext(k: nat, m: nat, seen: set<nat>, n: nat)
    requires n < k
    ensures Marked(k, m, seen, n + 1, 1)
         == if n in seen then AddColumn(Marked(k, m, seen, n, 1), Unit(k, m, seen, n)) else Marked(k, m, seen, n, 1)
  {
    hide Add;
    AddZero(0);
    AddZero(1);
  }

  lemma {:induction false} SolvedSum(rs: RsCode, k: nat, m: nat, seen: set<nat>, i: nat, n: nat)
    requires GoodCode(rs, k, m) && Places(k, m, seen) && i < k && n <= k
    ensures rs.solve(k, m, Marked(k, m, seen, n, 1), i) == CoefficientSum(rs, k, m, seen, i, n)
  {
    hide Add, GoodCode;
    if n == 0 {
      SolvedZero(rs, k, m, seen, 1, i);
    } else {
      SolvedSum(rs, k, m, seen, i, n - 1);
      MarkedNext(k, m, seen, n - 1);
      var a, b := Marked(k, m, seen, n - 1, 1), Unit(k, m, seen, n - 1);
      if n - 1 in seen {
        CountIn(a, k, m, seen);
        SolvedAdd(rs, k, m, a, b);
        SolvedAt(rs, k, m, a, i);
        SolvedAt(rs, k, m, b, i);
        SolvedAt(rs, k, m, AddColumn(a, b), i);
      } else {
        AddZero(CoefficientSum(rs, k, m, seen, i, n - 1));
      }
    }
  }

  lemma {:induction false} SolvedScaled(rs: RsCode, k: nat, m: nat, seen: set<nat>, i: nat, n: nat)
    requires GoodCode(rs, k, m) && Places(k, m, seen) && i < k
    ensures rs.solve(k, m, Marked(k, m, seen, k, Scale(n, 1)), i)
      == Scale(n, rs.solve(k, m, Marked(k, m, seen, k, 1), i))
  {
    hide Scale, GoodCode;
    ScaleNext(n, rs.solve(k, m, Marked(k, m, seen, k, 1), i));
    ScaleNext(n, 1);
    if n > 0 {
      SolvedScaled(rs, k, m, seen, i, n - 1);
      var a, b := Marked(k, m, seen, k, Scale(n - 1, 1)), Marked(k, m, seen, k, Scale(n, 1));
      CountIn(a, k, m, seen);
      ScaleNext(n - 1, 1);
      ScaleNext(n - 1, rs.solve(k, m, Marked(k, m, seen, k, 1), i));
      ScaleZero();
      assert DoubleColumn(a) == b;
      SolvedDouble(rs, k, m, a);
      SolvedAt(rs, k, m, a, i);
      SolvedAt(rs, k, m, b, i);
    }
  }

  lemma ScaleZero()
    ensures Scale(1, 0) == 0
  {
    assert Bits(0) == ZERO && Double(ZERO) == ZERO;
    assert Times(1, ZERO) == Double(Times(0, ZERO));
  }

  const BIT5 := Oct(false, false, false, false, false, true, false, false)

  lemma ScaleFive()
    ensures Scale(5, 1) == 0x20
  {
    hide Times, Bits, OfBits;
    var f := false;
    var a, b, c := Oct(true, f, f, f, f, f, f, f), Oct(f, true, f, f, f, f, f, f), Oct(f, f, true, f, f, f, f, f);
    var d, e := Oct(f, f, f, true, f, f, f, f), Oct(f, f, f, f, true, f, f, f);
    assert Double(a) == b && Double(b) == c && Double(c) == d && Double(d) == e && Double(e) == BIT5;
    Unroll(a);
    SomeBits();
  }

  lemma SomeBits()
    ensures Bits(1) == Oct(true, false, false, false, false, false, false, false)
    ensures Bits(0x20) == BIT5 && OfBits(BIT5) == 0x20
  {
  }

  // ---------- the rebuilt flags ----------

  lemma AddFec(f: byte)
    requires !Has(f, FEC)
    ensures Add(f, 0x20) == WireFlags(f) == f + 0x20
  {
    hide Bits, Nibble;
    var o := Bits(f);
    SomeBits();
    assert !o.b5 by {
      FecIsBit5(f);
    }
    assert Xor(o, BIT5) == o.(b5 := true);
    NibblePlus(o.b4, o.b6, o.b7);
    BitsRoundTrip(f);
  }

  lemma FecIsBit5(f: byte)
    ensures Bits(f).b5 == Has(f, FEC)
  {
    assert f / 16 / 2 == f / 32;
  }

  lemma NibblePlus(p: bool, r: bool, s: bool)
    ensures Nibble(p, true, r, s) == Nibble(p, false, r, s) + 2
  {
  }

  /** The column as it would be without the FEC bit. */
  function Clean(rs: RsCode, items: seq<Fields>, m: nat, seen: set<nat>): (col: seq<Option<byte>>)
    ensures |col| == |items| + m
  {
    seq(|items| + m, i requires 0 <= i < |items| + m =>
      if i in seen then Some(Word(rs, |items|, m, CodedFlags(items))[i]) else None)
  }

  lemma FlagsColumnSplits(rs: RsCode, items: seq<Fields>, m: nat, seen: set<nat>)
    requires FecClear(items)
    ensures FlagsColumn(rs, items, m, seen)
         == AddColumn(Clean(rs, items, m, seen), Marked(|items|, m, seen, |items|, 0x20))
  {
    hide Add;
    var k := |items|;
    var l, r := FlagsColumn(rs, items, m, seen), AddColumn(Clean(rs, items, m, seen), Marked(k, m, seen, k, 0x20));
    forall i: nat | i < k + m ensures l[i] == r[i] {
      if i in seen {
        if i < k {
          AddFec(items[i].flagsByte);
        } else {
          AddZero(rs.parity(k, m, CodedFlags(items), i - k));
        }
      }
    }
  }

  lemma CleanSolves(rs: RsCode, items: seq<Fields>, m: nat, seen: set<nat>)
    requires GoodCode(rs, |items|, m) && Places(|items|, m, seen)
    ensures Solved(rs, |items|, m, Clean(rs, items, m, seen)) == CodedFlags(items)
  {
    hide Linear, Mds, Word;
    var col := Clean(rs, items, m, seen);
    CountIn(col, |items|, m, seen);
    SolvesIsSolver(rs, |items|, m);
    SolveExact(rs, |items|, m, col, CodedFlags(items));
  }

  /** For every linear MDS code: the byte solved for a missing original's flags is the one sent plus
      0x20 times the sum of the decoding coefficients of the originals that arrived. */
  lemma SolvedFlags(rs: RsCode, items: seq<Fields>, m: nat, seen: set<nat>, i: nat)
    requires GoodCode(rs, |items|, m) && FecClear(items) && Places(|items|, m, seen) && i < |items|
    ensures rs.solve(|items|, m, FlagsColumn(rs, items, m, seen), i)
         == Add(items[i].flagsByte, Scale(5, CoefficientSum(rs, |items|, m, seen, i, |items|)))
  {
    hide Add, Scale, GoodCode, FecClear, FlagsColumn;
    var k := |items|;
    var clean, err := Clean(rs, items, m, seen), Marked(k, m, seen, k, 0x20);
    FlagsColumnSplits(rs, items, m, seen);
    CleanSolves(rs, items, m, seen);
    CountIn(clean, k, m, seen);
    SolvedAdd(rs, k, m, clean, err);
    SolvedAt(rs, k, m, AddColumn(clean, err), i);
    SolvedAt(rs, k, m, err, i);
    ScaleFive();
    SolvedScaled(rs, k, m, seen, i, 5);
    SolvedSum(rs, k, m, seen, i, k);
  }

  /** So the rebuilt flags are right exactly when that sum is zero or one. */
  lemma LinearFlagsRightIff(rs: RsCode, items: seq<Fields>, m: nat, seen: set<nat>, i: nat)
    requires GoodCode(rs, |items|, m) && FecClear(items) && Places(|items|, m, seen) && i < |items|
    ensures RebuiltFlags(rs, items, m, seen, i) == items[i].flagsByte
       <==> CoefficientSum(rs, |items|, m, seen, i, |items|) in {0, 1}
  {
    hide Add, Scale, GoodCode, FlagsColumn, CoefficientSum;
    var f, s := items[i].flagsByte, CoefficientSum(rs, |items|, m, seen, i, |items|);
    SolvedFlags(rs, items, m, seen, i);
    AddFec(f);
    AddZero(f);
    CleanIff(Add(f, Scale(5, s)), f);
    AddCancel(f, Scale(5, s), 0);
    AddCancel(f, Scale(5, s), 0x20);
    ScaleInjective(5, s, 0);
    ScaleInjective(5, s, 1);
    ScaleFive();
    ScaleOfZero(5);
  }

  lemma CleanIff(v: byte, f: byte)
    requires !Has(f, FEC)
    ensures With(v, FEC, false) == f <==> v == f || v == f + 0x20
  {
  }

  lemma ScaleOfZero(n: nat)
    ensures Scale(n, 0) == 0
  {
    assert Bits(0) == ZERO;
    TimesZero(n, ZERO);
  }

  lemma ScaleInjective(n: nat, a: byte, b: byte)
    ensures Scale(n, a) == Scale(n, b) <==> a == b
  {
    hide Bits, OfBits, Xor, Double;
    if Scale(n, a) == Scale(n, b) {
      OfBitsInjective(Times(n, Bits(a)), Times(n, Bits(b)));
      XorEqual(Times(n, Bits(a)), Times(n, Bits(b)));
      TimesXor(n, Bits(a), Bits(b));
      TimesZero(n, Xor(Bits(a), Bits(b)));
      XorEqual(Bits(a), Bits(b));
      BitsRoundTrip(a);
      BitsRoundTrip(b);
    }
  }
}
