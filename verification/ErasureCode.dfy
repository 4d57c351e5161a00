/** The Reed-Solomon crate as the encoder and the decoder use it: a code that works on each byte
    column of a group of shards separately. Nothing is assumed about the crate; theorems about
    recovery take `Mds` and `Solver` as hypotheses. */
module ErasureCode {
  import opened Basics

  /** `parity(k, m, d, j)` is byte `j` of the `m` parity bytes of a column `d` of `k` data bytes.
      `solve(k, m, col, i)` is data byte `i` the crate computes from a column with missing bytes. */
  datatype RsCode = RsCode(
    parity: (nat, nat, seq<byte>, nat) -> byte,
    solve: (nat, nat, seq<Option<byte>>, nat) -> byte)

  type Shard = seq<byte>
  type Shards = seq<Option<Shard>>

  // ---------- one column ----------

  function Word(rs: RsCode, k: nat, m: nat, d: seq<byte>): (w: seq<byte>)
    requires |d| == k
    ensures |w| == k + m
  {
    d + seq(m, (j: nat) => rs.parity(k, m, d, j))
  }

  function Solved(rs: RsCode, k: nat, m: nat, col: seq<Option<byte>>): (d: seq<byte>)
    ensures |d| == k
  {
    seq(k, (i: nat) => rs.solve(k, m, col, i))
  }

  /** The crate solves for the data bytes with the first `k` present positions only. */
  predicate Used<T>(col: seq<Option<T>>, k: nat, i: nat)
    requires i < |col|
  {
    col[i].Some? && Count(col[..i]) < k
  }

  function UsedSet<T>(col: seq<Option<T>>, k: nat): set<nat> {
    set i: nat | i < |col| && Used(col, k, i)
  }

  ghost predicate Fits(col: seq<Option<byte>>, word: seq<byte>, k: nat)
    requires |col| == |word|
  {
    forall i: nat :: i < |col| && Used(col, k, i) ==> col[i].value == word[i]
  }

  function Agreement(a: seq<byte>, b: seq<byte>): set<nat>
    requires |a| == |b|
  {
    set i: nat | i < |a| && a[i] == b[i]
  }

  /** Maximum distance separable: any `k` positions determine the codeword. */
  ghost predicate Mds(rs: RsCode, k: nat, m: nat) {
    forall d, e :: |d| == k && |e| == k && |Agreement(Word(rs, k, m, d), Word(rs, k, m, e))| >= k ==> d == e
  }

  /** The crate returns a codeword through the positions it uses whenever there is one. */
  ghost predicate Solver(rs: RsCode, k: nat, m: nat) {
    forall col, d ::
      |col| == k + m && |d| == k && Count(col) >= k && Fits(col, Word(rs, k, m, d), k)
      ==> Fits(col, Word(rs, k, m, Solved(rs, k, m, col)), k)
  }

  predicate SamePresence<T>(a: seq<Option<T>>, b: seq<Option<T>>) {
    |a| == |b| && forall i :: 0 <= i < |a| ==> (a[i].Some? <==> b[i].Some?)
  }

  lemma {:induction false} CountSame<T>(a: seq<Option<T>>, b: seq<Option<T>>)
    requires SamePresence(a, b)
    ensures Count(a) == Count(b)
  {
    if a != [] {
      CountSame(a[..|a| - 1], b[..|b| - 1]);
    }
  }

  /** Which positions are used depends on which are present alone. */
  lemma UsedSame<T>(a: seq<Option<T>>, b: seq<Option<T>>, k: nat)
    requires SamePresence(a, b)
    ensures Count(a) == Count(b)
    ensures forall i: nat :: i < |a| ==> (Used(a, k, i) <==> Used(b, k, i))
  {
    CountSame(a, b);
    forall i: nat | i < |a| ensures Used(a, k, i) <==> Used(b, k, i) {
      CountSame(a[..i], b[..i]);
    }
  }

  lemma UsedSetNext<T>(col: seq<Option<T>>, k: nat)
    requires col != []
    ensures var last := |col| - 1;
      UsedSet(col, k) == UsedSet(col[..last], k) + if Used(col, k, last) then {last} else {}
  {
    var last := |col| - 1;
    forall i: nat | i < last ensures Used(col, k, i) == Used(col[..last], k, i) {
      assert col[..last][..i] == col[..i];
    }
  }

  lemma {:induction false} UsedSize<T>(col: seq<Option<T>>, k: nat)
    ensures |UsedSet(col, k)| == Min(k, Count(col))
  {
    if col != [] {
      UsedSetNext(col, k);
      UsedSize(col[..|col| - 1], k);
    } else {
      assert UsedSet(col, k) == {};
    }
  }

  /** Solving a consistent column gives back exactly the data it was coded from. */
  lemma SolveExact(rs: RsCode, k: nat, m: nat, col: seq<Option<byte>>, d: seq<byte>)
    requires Mds(rs, k, m) && Solver(rs, k, m)
    requires |col| == k + m && |d| == k && Count(col) >= k
    requires Fits(col, Word(rs, k, m, d), k)
    ensures Solved(rs, k, m, col) == d
  {
    var e := Solved(rs, k, m, col);
    UsedSize(col, k);
    SubsetSize(UsedSet(col, k), Agreement(Word(rs, k, m, d), Word(rs, k, m, e)));
  }

  // ---------- whole shards ----------

  predicate Uniform(shards: Shards, len: nat) {
    forall i: nat :: i < |shards| && shards[i].Some? ==> |shards[i].value| == len
  }

  function Column(shards: Shards, c: nat): (col: seq<Option<byte>>)
    ensures |col| == |shards|
  {
    seq(|shards|, i requires 0 <= i < |shards| =>
      if shards[i].Some? && c < |shards[i].value| then Some(shards[i].value[c]) else None)
  }

  function DataColumn(data: seq<Shard>, c: nat): (col: seq<byte>)
    ensures |col| == |data|
  {
    seq(|data|, i requires 0 <= i < |data| => if c < |data[i]| then data[i][c] else 0)
  }

  /** Parity shard `j` of the data shards, each `len` long. */
  function ParityShard(rs: RsCode, data: seq<Shard>, m: nat, len: nat, j: nat): (s: Shard)
    ensures |s| == len
  {
    seq(len, (c: nat) => rs.parity(|data|, m, DataColumn(data, c), j))
  }

  /** The length of the first present shard, 0 when there is none. */
  function FirstLength(shards: Shards): nat {
    if shards == [] then 0
    else if shards[0].Some? then |shards[0].value|
    else FirstLength(shards[1..])
  }

  function SolvedShard(rs: RsCode, k: nat, m: nat, shards: Shards, len: nat, i: nat): (s: Shard)
    ensures |s| == len
  {
    seq(len, (c: nat) => rs.solve(k, m, Column(shards, c), i))
  }

  /** `ReedSolomon::new` followed by `reconstruct`: both shard numbers must be positive, present
      shards must be non-empty and of one length, and only missing shards are written. */
  function Reconstruct(rs: RsCode, k: nat, m: nat, shards: Shards): (r: Result<Shards>)
    requires |shards| == k + m
    ensures r.Ok? <==>
      k > 0 && m > 0 && Uniform(shards, FirstLength(shards)) && (FirstLength(shards) > 0 || Count(shards) == 0)
    ensures r.Ok? ==> |r.value| == k + m
    ensures r.Ok? ==> forall i: nat :: i < k + m ==> r.value[i].Some?
    ensures r.Ok? ==> forall i: nat :: i < k + m && shards[i].Some? ==> r.value[i] == shards[i]
  {
    var len := FirstLength(shards);
    if k == 0 || m == 0 || !Uniform(shards, len) || (len == 0 && Count(shards) != 0) then Err
    else
      var data := seq(k, i requires 0 <= i < k =>
        if shards[i].Some? then shards[i].value else SolvedShard(rs, k, m, shards, len, i));
      Ok(seq(k + m, i requires 0 <= i < k + m =>
        if shards[i].Some? then shards[i]
        else if i < k then Some(data[i])
        else Some(ParityShard(rs, data, m, len, i - k))))
  }

  lemma {:induction false} FirstLengthIsOne(shards: Shards, i: nat)
    requires i < |shards| && shards[i].Some?
    ensures exists j: nat :: j <= i && shards[j].Some? && FirstLength(shards) == |shards[j].value|
  {
    if shards[0].Some? {
      assert FirstLength(shards) == |shards[0].value|;
    } else {
      FirstLengthIsOne(shards[1..], i - 1);
      var j: nat :| j <= i - 1 && shards[1..][j].Some? && FirstLength(shards[1..]) == |shards[1..][j].value|;
      assert shards[j + 1].Some?;
    }
  }

  lemma {:induction false} ColumnCount(shards: Shards, c: nat)
    requires forall i: nat :: i < |shards| && shards[i].Some? ==> c < |shards[i].value|
    ensures Count(Column(shards, c)) == Count(shards)
  {
    CountIsPresent(shards);
    CountIsPresent(Column(shards, c));
    assert Present(shards) == Present(Column(shards, c));
  }
}
