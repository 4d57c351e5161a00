/** The flags column. The encoder codes the flags byte as it was before the FEC bit is set, the decoder
    stores the byte with the bit set, so that column does not hold a codeword. A rebuilt packet's flags
    are right for every code when no original of the batch arrived; as soon as one did, the MDS
    property no longer determines them. */
module FecFlags {
  import opened Basics
  import opened ErasureCode
  import opened FecMessage
  import opened FecShard
  import opened NetPacket
  import opened FecRecovery

  /** The crate also finds a codeword through any `k` bytes in any `k` positions. */
  ghost predicate Solves(rs: RsCode, k: nat, m: nat) {
    forall col :: |col| == k + m && Count(col) >= k ==> Fits(col, Word(rs, k, m, Solved(rs, k, m, col)), k)
  }

  /** The flags of the originals, which the encoder codes. */
  function CodedFlags(items: seq<Fields>): (d: seq<byte>)
    ensures |d| == |items|
  {
    seq(|items|, i requires 0 <= i < |items| => items[i].flagsByte)
  }

  /** The flags byte of a stored original: the FEC bit is still set. */
  function WireFlags(flags: byte): byte {
    With(flags, FEC, true)
  }

  /** The flags column of the shards in the slots `seen`, as the decoder has it. */
  function FlagsColumn(rs: RsCode, items: seq<Fields>, m: nat, seen: set<nat>): (col: seq<Option<byte>>)
    ensures |col| == |items| + m
  {
    seq(|items| + m, i requires 0 <= i < |items| + m =>
      if i !in seen then None
      else if i < |items| then Some(WireFlags(items[i].flagsByte))
      else Some(rs.parity(|items|, m, CodedFlags(items), i - |items|)))
  }

  /** The flags of the packet rebuilt for the missing original `i`. */
  function RebuiltFlags(rs: RsCode, items: seq<Fields>, m: nat, seen: set<nat>, i: nat): byte {
    With(rs.solve(|items|, m, FlagsColumn(rs, items, m, seen), i), FEC, false)
  }

  /** Packets reach the encoder with the FEC bit clear. */
  ghost predicate FecClear(items: seq<Fields>) {
    forall i :: 0 <= i < |items| ==> !Has(items[i].flagsByte, FEC)
  }

  ghost predicate Pattern(items: seq<Fields>, m: nat, seen: set<nat>) {
    && (forall i :: i in seen ==> i < |items| + m)
    && |seen| >= |items|
  }

  lemma ColumnHasEnough(rs: RsCode, items: seq<Fields>, m: nat, seen: set<nat>)
    requires Pattern(items, m, seen)
    ensures Count(FlagsColumn(rs, items, m, seen)) == |seen|
  {
    var col := FlagsColumn(rs, items, m, seen);
    CountIsPresent(col);
    assert Present(col) == seen;
  }

  /** This is the column `Reconstruct` solves for the flags: byte 1 of every stored shard. */
  lemma FlagsColumnIsStored(rs: RsCode, items: seq<Fields>, shards: seq<Option<Shard>>, seen: set<nat>)
    requires Batch(items) && |shards| == |items| + Parities(items)
    requires forall i: nat :: i < |shards| ==> (shards[i].Some? <==> i in seen)
    requires forall i: nat ::
      i < |items| && i in seen ==> shards[i].value == Pack(items[i].(flagsByte := WireFlags(items[i].flagsByte)))
    requires forall i: nat ::
      |items| <= i < |shards| && i in seen ==> shards[i].value == ParityOf(rs, items, i - |items|)
    ensures Column(shards, 1) == FlagsColumn(rs, items, Parities(items), seen)
  {
    LongestAtLeast(items, 0);
    assert DataColumn(PaddedShards(items), 1) == CodedFlags(items) by {
      forall i | 0 <= i < |items| ensures DataColumn(PaddedShards(items), 1)[i] == CodedFlags(items)[i] {
        assert PackedShards(items)[i] == Pack(items[i]);
      }
    }
    var col := FlagsColumn(rs, items, Parities(items), seen);
    forall i | 0 <= i < |shards| ensures Column(shards, 1)[i] == col[i] {
    }
  }

  /** When only parity arrived, the rebuilt flags are right, whatever the code. */
  lemma FlagsRightWithoutOriginals(rs: RsCode, items: seq<Fields>, m: nat, seen: set<nat>, i: nat)
    requires Mds(rs, |items|, m) && Solver(rs, |items|, m)
    requires FecClear(items) && Pattern(items, m, seen) && i < |items|
    requires forall j :: j in seen ==> j >= |items|
    ensures RebuiltFlags(rs, items, m, seen, i) == items[i].flagsByte
  {
    hide Mds, Solver, Has, With;
    var k, col, d := |items|, FlagsColumn(rs, items, m, seen), CodedFlags(items);
    ColumnHasEnough(rs, items, m, seen);
    ParityColumnFits(rs, items, m, seen);
    SolveExact(rs, k, m, col, d);
    assert Solved(rs, k, m, col)[i] == rs.solve(k, m, col, i);
    ClearStays(items[i].flagsByte);
  }

  lemma ParityColumnFits(rs: RsCode, items: seq<Fields>, m: nat, seen: set<nat>)
    requires forall j :: j in seen ==> j >= |items|
    ensures Fits(FlagsColumn(rs, items, m, seen), Word(rs, |items|, m, CodedFlags(items)), |items|)
  {
  }

  lemma ClearStays(flags: byte)
    requires !Has(flags, FEC)
    ensures With(flags, FEC, false) == flags
  {
  }

  // ---------- relabelling one position of a code ----------

  /** Exchanges the bytes `a` and `b`. */
  function Swap(a: byte, b: byte, v: byte): byte {
    if v == a then b else if v == b then a else v
  }

  function SwapAt(d: seq<byte>, x: nat, a: byte, b: byte): (e: seq<byte>)
    ensures |e| == |d|
  {
    if x < |d| then d[x := Swap(a, b, d[x])] else d
  }

  function SwapColumn(col: seq<Option<byte>>, x: nat, a: byte, b: byte): (e: seq<Option<byte>>)
    ensures |e| == |col|
  {
    if x < |col| && col[x].Some? then col[x := Some(Swap(a, b, col[x].value))] else col
  }

  /** The code in which data position `x` is written with `a` and `b` exchanged. */
  function Relabelled(rs: RsCode, x: nat, a: byte, b: byte): RsCode {
    RsCode((k: nat, m: nat, d: seq<byte>, j: nat) => rs.parity(k, m, SwapAt(d, x, a, b), j),
           (k: nat, m: nat, col: seq<Option<byte>>, i: nat) =>
             var v := rs.solve(k, m, SwapColumn(col, x, a, b), i);
             if i == x then Swap(a, b, v) else v)
  }

  lemma RelabelledWord(rs: RsCode, k: nat, m: nat, x: nat, a: byte, b: byte, d: seq<byte>)
    requires |d| == k && x < k
    ensures Word(Relabelled(rs, x, a, b), k, m, d) == SwapAt(Word(rs, k, m, SwapAt(d, x, a, b)), x, a, b)
  {
    var u := Word(Relabelled(rs, x, a, b), k, m, d);
    var v := SwapAt(Word(rs, k, m, SwapAt(d, x, a, b)), x, a, b);
    forall i | 0 <= i < k + m ensures u[i] == v[i] {
    }
  }

  lemma RelabelledMds(rs: RsCode, k: nat, m: nat, x: nat, a: byte, b: byte)
    requires Mds(rs, k, m) && x < k
    ensures Mds(Relabelled(rs, x, a, b), k, m)
  {
    var t := Relabelled(rs, x, a, b);
    forall d, e | |d| == k && |e| == k && |Agreement(Word(t, k, m, d), Word(t, k, m, e))| >= k ensures d == e {
      var p, q := SwapAt(d, x, a, b), SwapAt(e, x, a, b);
      RelabelledWord(rs, k, m, x, a, b, d);
      RelabelledWord(rs, k, m, x, a, b, e);
      assert Agreement(Word(t, k, m, d), Word(t, k, m, e)) == Agreement(Word(rs, k, m, p), Word(rs, k, m, q));
      assert p == q;
      assert SwapAt(p, x, a, b) == d && SwapAt(q, x, a, b) == e;
    }
  }

  lemma RelabelledSolves(rs: RsCode, k: nat, m: nat, x: nat, a: byte, b: byte)
    requires Solves(rs, k, m) && x < k
    ensures Solves(Relabelled(rs, x, a, b), k, m)
  {
    var t := Relabelled(rs, x, a, b);
    forall col: seq<Option<byte>> | |col| == k + m && Count(col) >= k
      ensures Fits(col, Word(t, k, m, Solved(t, k, m, col)), k)
    {
      var d := Solved(t, k, m, col);
      RelabelledSolution(rs, k, m, x, a, b, col);
      RelabelledWord(rs, k, m, x, a, b, d);
      var s := SwapColumn(col, x, a, b);
      var w := Word(rs, k, m, Solved(rs, k, m, s));
      UsedSame(s, col, k);
      forall i: nat | i < |col| && Used(col, k, i) ensures col[i].value == Word(t, k, m, d)[i] {
        RelabelledAt(rs, k, m, x, a, b, col, w, i);
      }
    }
  }

  lemma RelabelledSolution(rs: RsCode, k: nat, m: nat, x: nat, a: byte, b: byte, col: seq<Option<byte>>)
    requires x < k && |col| == k + m
    ensures SwapAt(Solved(Relabelled(rs, x, a, b), k, m, col), x, a, b) == Solved(rs, k, m, SwapColumn(col, x, a, b))
  {
    var l, r := SwapAt(Solved(Relabelled(rs, x, a, b), k, m, col), x, a, b), Solved(rs, k, m, SwapColumn(col, x, a, b));
    forall i: nat | i < k ensures l[i] == r[i] {
      assert r[i] == rs.solve(k, m, SwapColumn(col, x, a, b), i);
    }
  }

  /** If the exchanged column fits a word where it is used, the column fits the exchanged word. */
  lemma RelabelledAt(rs: RsCode, k: nat, m: nat, x: nat, a: byte, b: byte, col: seq<Option<byte>>, w: seq<byte>, i: nat)
    requires |w| == |col| && i < |col| && x < k && col[i].Some? && Used(SwapColumn(col, x, a, b), k, i)
    requires Fits(SwapColumn(col, x, a, b), w, k)
    ensures col[i].value == SwapAt(w, x, a, b)[i]
  {
  }

  // ---------- one delivered original is enough to spoil them ----------

  /** Two words through all used positions of a column but one, which also share position `i`. */
  lemma ManyAgree(col: seq<Option<byte>>, k: nat, j: nat, i: nat, p: seq<byte>, q: seq<byte>)
    requires |p| == |q| == |col| && Count(col) >= k && i < |col| && j < |col|
    requires Used(col, k, j) && col[i].None? && p[i] == q[i]
    requires forall y: nat :: y < |col| && y != j && Used(col, k, y) ==> p[y] == q[y]
    ensures |Agreement(p, q)| >= k
  {
    UsedSize(col, k);
    var both := UsedSet(col, k) - {j} + {i};
    assert |UsedSet(col, k) - {j}| == k - 1;
    assert |both| == k;
    SubsetSize(both, Agreement(p, q));
  }

  lemma SolutionFits(rs: RsCode, k: nat, m: nat, col: seq<Option<byte>>, j: nat, u: byte, y: nat)
    requires Solves(rs, k, m) && |col| == k + m && Count(col) >= k && j < k && y < |col|
    requires Used(col, k, j) && Used(col, k, y)
    ensures Word(rs, k, m, Solved(rs, k, m, col[j := Some(u)]))[y] == if y == j then u else col[y].value
  {
    var c := col[j := Some(u)];
    UsedSame(c, col, k);
    assert Fits(c, Word(rs, k, m, Solved(rs, k, m, c)), k);
    assert Used(c, k, y);
  }

  /** Changing one used byte of a column changes every byte solved for a missing position. */
  lemma SolutionsDiffer(rs: RsCode, k: nat, m: nat, col: seq<Option<byte>>, j: nat, u: byte, v: byte, i: nat)
    requires Mds(rs, k, m) && Solves(rs, k, m)
    requires |col| == k + m && Count(col) >= k && j < k && i < k && u != v
    requires Used(col, k, j) && col[i].None?
    ensures rs.solve(k, m, col[j := Some(u)], i) != rs.solve(k, m, col[j := Some(v)], i)
  {
    var d, f := Solved(rs, k, m, col[j := Some(u)]), Solved(rs, k, m, col[j := Some(v)]);
    var p, q := Word(rs, k, m, d), Word(rs, k, m, f);
    forall y: nat | y < |col| && Used(col, k, y)
      ensures p[y] == if y == j then u else col[y].value
      ensures q[y] == if y == j then v else col[y].value
    {
      SolutionFits(rs, k, m, col, j, u, y);
      SolutionFits(rs, k, m, col, j, v, y);
    }
    assert p[j] != q[j];
    if p[i] == q[i] {
      ManyAgree(col, k, j, i, p, q);
    }
  }

  /** A data position that is present is always used when some original is missing. */
  lemma DataIsUsed(rs: RsCode, items: seq<Fields>, m: nat, seen: set<nat>, j: nat)
    requires Pattern(items, m, seen) && j in seen && j < |items|
    ensures Used(FlagsColumn(rs, items, m, seen), |items|, j)
  {
    var col := FlagsColumn(rs, items, m, seen);
    CountIsPresent(col[..j]);
    SubsetSize(Present(col[..j]), Below(j));
  }

  predicate Wrong(v: byte, flags: byte) {
    With(v, FEC, false) != flags
  }

  /** Two bytes that differ from each other and from a right one cannot both be right. */
  lemma OneIsWrong(flags: byte, a: byte, b: byte, c: byte)
    requires a != b && a != c && b != c && !Wrong(a, flags)
    ensures Wrong(b, flags) || Wrong(c, flags)
  {
    if !Wrong(b, flags) && !Wrong(c, flags) {
      RightBytes(a, flags);
      RightBytes(b, flags);
      RightBytes(c, flags);
    }
  }

  lemma RightBytes(v: byte, flags: byte)
    requires With(v, FEC, false) == flags
    ensures v == flags || v as int == flags as int + 0x20
  {
  }

  /** With the code relabelled at a delivered original's position, only that byte of the column is
      read differently. */
  lemma RelabelledColumn(rs: RsCode, items: seq<Fields>, m: nat, seen: set<nat>, j: nat, z: byte)
    requires FecClear(items) && j < |items| && j in seen
    requires z != items[j].flagsByte && z != WireFlags(items[j].flagsByte)
    ensures var w := WireFlags(items[j].flagsByte);
      && FlagsColumn(Relabelled(rs, j, w, z), items, m, seen) == FlagsColumn(rs, items, m, seen)
      && SwapColumn(FlagsColumn(rs, items, m, seen), j, w, z) == FlagsColumn(rs, items, m, seen)[j := Some(z)]
  {
    var f, w := items[j].flagsByte, WireFlags(items[j].flagsByte);
    assert Has(f, FEC) == false && w == f + 0x20;
    assert SwapAt(CodedFlags(items), j, w, z) == CodedFlags(items);
    var t := Relabelled(rs, j, w, z);
    assert FlagsColumn(t, items, m, seen) == FlagsColumn(rs, items, m, seen);
  }

  /** If an original of the batch arrived and another is missing, there is a code, as good as the one
      given, for which the flags rebuilt for the missing one are wrong. */
  lemma FlagsWrongWithAnOriginal(rs: RsCode, items: seq<Fields>, m: nat, seen: set<nat>, j: nat, i: nat)
    returns (bad: RsCode)
    requires Mds(rs, |items|, m) && Solves(rs, |items|, m)
    requires FecClear(items) && Pattern(items, m, seen)
    requires j in seen && j < |items| && i !in seen && i < |items|
    ensures Mds(bad, |items|, m) && Solves(bad, |items|, m)
    ensures RebuiltFlags(bad, items, m, seen, i) != items[i].flagsByte
  {
    var k, col := |items|, FlagsColumn(rs, items, m, seen);
    var f, w := items[j].flagsByte, WireFlags(items[j].flagsByte);
    bad := rs;
    if !Wrong(rs.solve(k, m, col, i), items[i].flagsByte) {
      var y: byte, z: byte := OtherBytes(f, w);
      ColumnHasEnough(rs, items, m, seen);
      DataIsUsed(rs, items, m, seen, j);
      assert col[j := Some(w)] == col;
      SolutionsDiffer(rs, k, m, col, j, w, y, i);
      SolutionsDiffer(rs, k, m, col, j, w, z, i);
      SolutionsDiffer(rs, k, m, col, j, y, z, i);
      var a, b, c := rs.solve(k, m, col, i), rs.solve(k, m, col[j := Some(y)], i), rs.solve(k, m, col[j := Some(z)], i);
      OneIsWrong(items[i].flagsByte, a, b, c);
      var v := if Wrong(b, items[i].flagsByte) then y else z;
      bad := Relabelled(rs, j, w, v);
      RelabelledMds(rs, k, m, j, w, v);
      RelabelledSolves(rs, k, m, j, w, v);
      RelabelledColumn(rs, items, m, seen, j, v);
    }
  }

  lemma OtherBytes(f: byte, w: byte) returns (y: byte, z: byte)
    ensures y != z && y != f && y != w && z != f && z != w
  {
    y := if f != 0 && w != 0 then 0 else if f != 1 && w != 1 then 1 else 2;
    z := if f != 3 && w != 3 then 3 else if f != 4 && w != 4 then 4 else 5;
  }
}
