/** The stages a packet passes on its way out and in: compression and encryption, in its buffer. */
module PacketStages {
  import opened Basics
  import opened NetPacket
  import opened Transmission

  const TAG_LEN: nat := 16
  const MIN_SIZE: nat := 256

  /** An authenticated cipher under a fixed key; `open` takes the sealed bytes followed by the tag. */
  datatype Aead = Aead(
    seal: (seq<byte>, seq<byte>) -> (seq<byte>, seq<byte>),
    open: (seq<byte>, seq<byte>) -> Result<seq<byte>>)

  /** What is assumed of the cipher: sealing keeps the length and adds a tag, and opening undoes it. */
  ghost predicate Sound(a: Aead) {
    && (forall nonce: seq<byte>, plain: seq<byte> ::
          var (sealed, tag) := a.seal(nonce, plain);
          |sealed| == |plain| && |tag| == TAG_LEN && a.open(nonce, sealed + tag) == Ok(plain))
    && (forall nonce: seq<byte>, bytes: seq<byte> ::
          a.open(nonce, bytes).Ok? ==> |a.open(nonce, bytes).value| + TAG_LEN == |bytes|)
  }

  datatype Lz4 = Lz4(compress: seq<byte> -> seq<byte>, decompress: seq<byte> -> Result<seq<byte>>)

  /** What is assumed of the compressor: decompressing undoes compressing. */
  ghost predicate Lossless(z: Lz4) {
    forall bytes: seq<byte> :: z.decompress(z.compress(bytes)) == Ok(bytes)
  }

  // ---------- the stages on packets ----------

  /** Twelve bytes of the header: the type, the low three bytes of the sequence number, and the ends. */
  function Nonce(h: Header): (n: seq<byte>)
    ensures |n| == 12
  {
    [h.typeByte] + WordBytes(h.seqNo)[1..] + WordBytes(h.dest) + WordBytes(h.src)
  }

  function Encrypted(a: Option<Aead>, p: Packet): Packet {
    if a.None? then p
    else
      var (sealed, tag) := a.value.seal(Nonce(p.head), p.payload);
      Packet(p.head, sealed + tag)
  }

  function Decrypted(a: Option<Aead>, p: Packet): Result<Packet> {
    if a.None? then Ok(p)
    else
      match a.value.open(Nonce(p.head), p.payload)
      case Ok(plain) => Ok(Packet(p.head, plain))
      case Err => Err
  }

  predicate Shrinks(z: Option<Lz4>, payload: seq<byte>) {
    z.Some? && |payload| >= MIN_SIZE && |z.value.compress(payload)| < |payload|
  }

  function Compressed(z: Option<Lz4>, p: Packet): Packet {
    if Shrinks(z, p.payload) then Packet(SetFlag(p.head, COMPRESSED, true), z.value.compress(p.payload)) else p
  }

  function Decompressed(z: Option<Lz4>, p: Packet): Result<Packet> {
    if z.None? || !Has(p.head.flagsByte, COMPRESSED) then Ok(p)
    else
      match z.value.decompress(p.payload)
      case Ok(payload) => Ok(Packet(SetFlag(p.head, COMPRESSED, false), payload))
      case Err => Err
  }

  // ---------- the stages in a buffer ----------

  function PacketOf(b: TransmissionBytes): (p: Packet)
    requires b.Valid() && |b.Contents()| >= HEAD_LENGTH
    reads b
  {
    Packet(ReadHeader(b.Contents()), b.Contents()[HEAD_LENGTH..])
  }

  predicate IsPacket(b: TransmissionBytes)
    reads b
  {
    b.Valid() && |b.Contents()| >= HEAD_LENGTH
  }

  method SetHead(b: TransmissionBytes, h: Header)
    requires IsPacket(b)
    modifies b`buf
    ensures IsPacket(b) && PacketOf(b) == Packet(h, old(PacketOf(b)).payload)
  {
    HeaderRoundTrip(h, b.Contents()[HEAD_LENGTH..]);
    b.Write(0, HeaderBytes(h));
    assert b.Contents()[HEAD_LENGTH..] == old(b.Contents())[HEAD_LENGTH..];
  }

  lemma HeadOfPrefix(a: seq<byte>, b: seq<byte>)
    requires |a| >= HEAD_LENGTH && |b| >= HEAD_LENGTH && a[..HEAD_LENGTH] == b[..HEAD_LENGTH]
    ensures ReadHeader(a) == ReadHeader(b)
  {
    var s, t := a[..HEAD_LENGTH], b[..HEAD_LENGTH];
    assert a[4..8] == s[4..8] && a[8..12] == s[8..12] && a[12..16] == s[12..16];
    assert b[4..8] == t[4..8] && b[8..12] == t[8..12] && b[12..16] == t[12..16];
    assert s[0] == t[0] && s[1] == t[1] && s[2] == t[2] && s[3] == t[3];
  }

  /** Seals the payload in place and fills the tag into the last bytes of the window. */
  method SealInPlace(a: Aead, b: TransmissionBytes)
    requires IsPacket(b) && |b.Contents()| >= HEAD_LENGTH + TAG_LEN && Sound(a)
    modifies b`buf
    ensures IsPacket(b)
    ensures var was := old(b.Contents());
      var (sealed, tag) := a.seal(Nonce(ReadHeader(was)), was[HEAD_LENGTH..|was| - TAG_LEN]);
      b.Contents() == was[..HEAD_LENGTH] + (sealed + tag)
  {
    var bytes := b.Contents();
    var n := |bytes| - TAG_LEN;
    var (sealed, tag) := a.seal(Nonce(ReadHeader(bytes)), bytes[HEAD_LENGTH..n]);
    b.Write(HEAD_LENGTH, sealed);
    b.Write(n, tag);
    assert b.Contents() == bytes[..HEAD_LENGTH] + (sealed + tag);
  }

  /** Makes room for the tag behind the payload and seals it. */
  method EncryptInPlace(a: Option<Aead>, b: TransmissionBytes)
    requires IsPacket(b) && (a.Some? ==> Sound(a.value))
    modifies b
    ensures IsPacket(b) && PacketOf(b) == Encrypted(a, old(PacketOf(b)))
    ensures var was := old(b.Contents());
      b.Contents() ==
        if a.None? then was
        else
          var (sealed, tag) := a.value.seal(Nonce(ReadHeader(was)), was[HEAD_LENGTH..]);
          was[..HEAD_LENGTH] + sealed + tag
  {
    if a.Some? {
      hide ReadHeader, Nonce, Sound;
      ghost var was := b.Contents();
      b.ExtendEnd(TAG_LEN);
      ghost var bytes := b.Contents();
      assert bytes[..HEAD_LENGTH] == was[..HEAD_LENGTH] && bytes[HEAD_LENGTH..|bytes| - TAG_LEN] == was[HEAD_LENGTH..];
      HeadOfPrefix(bytes, was);
      SealInPlace(a.value, b);
      HeadOfPrefix(b.Contents(), was);
    }
  }

  /** Opens the payload in place and drops the tag; a packet that does not open is refused. */
  method DecryptInPlace(a: Option<Aead>, b: TransmissionBytes) returns (ok: bool)
    requires IsPacket(b) && (a.Some? ==> Sound(a.value))
    modifies b
    ensures IsPacket(b) && ok == Decrypted(a, old(PacketOf(b))).Ok?
    ensures ok ==> PacketOf(b) == Decrypted(a, old(PacketOf(b))).value
    ensures a.None? ==> ok && b.Contents() == old(b.Contents())
    ensures a.Some? ==>
      var was := old(b.Contents());
      var plain := a.value.open(Nonce(ReadHeader(was)), was[HEAD_LENGTH..]);
      && (ok <==> plain.Ok?)
      && (ok ==> b.Contents() == was[..HEAD_LENGTH] + plain.value)
      && (!ok ==> b.Contents() == was)
  {
    ok := true;
    if a.Some? {
      var bytes := b.Contents();
      var plain := a.value.open(Nonce(ReadHeader(bytes)), bytes[HEAD_LENGTH..]);
      if plain.Err? {
        return false;
      }
      b.Write(HEAD_LENGTH, plain.value);
      b.ShrinkEnd(TAG_LEN);
      assert b.Contents() == bytes[..HEAD_LENGTH] + plain.value;
      HeadOfPrefix(b.Contents(), bytes);
    }
  }

  /** Copies the header and the compressed payload to a buffer of their own, when that is shorter. */
  method Compress(z: Option<Lz4>, b: TransmissionBytes, reserve: nat) returns (r: TransmissionBytes)
    requires IsPacket(b)
    ensures IsPacket(r) && PacketOf(r) == Compressed(z, PacketOf(b))
    ensures r == b || fresh(r)
    ensures |r.Contents()| <= |b.Contents()|
    ensures r == b <==>
      var payload := b.Contents()[HEAD_LENGTH..];
      z.None? || |payload| < 256 || |z.value.compress(payload)| >= |payload|
    ensures r != b ==> PacketOf(r).payload == z.value.compress(b.Contents()[HEAD_LENGTH..])
    ensures b.Contents() == old(b.Contents())
  {
    if z.None? {
      return b;
    }
    var payload := b.Contents()[HEAD_LENGTH..];
    if |payload| < MIN_SIZE {
      return b;
    }
    var small := z.value.compress(payload);
    if |small| >= |payload| {
      return b;
    }
    r := Copied(b.Contents()[..HEAD_LENGTH], small, reserve);
    HeadOfPrefix(r.Contents(), b.Contents());
    SetHead(r, SetFlag(ReadHeader(r.Contents()), COMPRESSED, true));
  }

  method Copied(head: seq<byte>, payload: seq<byte>, reserve: nat) returns (r: TransmissionBytes)
    requires |head| == HEAD_LENGTH
    ensures fresh(r) && IsPacket(r) && r.Contents() == head + payload
    ensures r.Contents()[..HEAD_LENGTH] == head && PacketOf(r).payload == payload
  {
    r := new TransmissionBytes.ZeroedSize(HEAD_LENGTH + |payload|, reserve, 0);
    r.Write(0, head);
    r.Write(HEAD_LENGTH, payload);
    assert r.Contents() == head + payload;
  }

  method Decompress(z: Option<Lz4>, b: TransmissionBytes) returns (r: Result<TransmissionBytes>)
    requires IsPacket(b)
    ensures r.Ok? <==> Decompressed(z, PacketOf(b)).Ok?
    ensures r.Ok? ==> IsPacket(r.value) && Ok(PacketOf(r.value)) == Decompressed(z, PacketOf(b))
    ensures r.Ok? ==> r.value == b || fresh(r.value)
  {
    if z.None? || !Has(PacketOf(b).head.flagsByte, COMPRESSED) {
      return Ok(b);
    }
    var whole := z.value.decompress(b.Contents()[HEAD_LENGTH..]);
    if whole.Err? {
      return Err;
    }
    var copy := Copied(b.Contents()[..HEAD_LENGTH], whole.value, 0);
    HeadOfPrefix(copy.Contents(), b.Contents());
    SetHead(copy, SetFlag(ReadHeader(copy.Contents()), COMPRESSED, false));
    r := Ok(copy);
  }

  // ---------- what the stages mean ----------

  /** The nonce by its place in the sixteen bytes of a header: the type byte, the sequence number
      without its highest byte, the destination, the source. */
  lemma NonceLayout(s: seq<byte>)
    requires |s| >= HEAD_LENGTH
    ensures Nonce(ReadHeader(s)) == [s[0]] + s[5..8] + s[12..16] + s[8..12]
  {
    WriteOfRead(s[4..8]);
    WriteOfRead(s[8..12]);
    WriteOfRead(s[12..16]);
    assert s[4..8][1..] == s[5..8];
  }

  /** A payload is compressed exactly when there is a compressor, it has at least 256 bytes and gets
      shorter; it then goes out flagged, and never longer than it came. */
  lemma CompressedMeans(z: Option<Lz4>, p: Packet)
    ensures var q := Compressed(z, p);
      && |q.payload| <= |p.payload|
      && (q.payload != p.payload <==>
            z.Some? && |p.payload| >= 256 && |z.value.compress(p.payload)| < |p.payload|)
      && (q.payload != p.payload ==>
            q.payload == z.value.compress(p.payload) && q.head == p.head.(flagsByte := q.head.flagsByte)
            && Has(q.head.flagsByte, COMPRESSED) && q.head.flagsByte % 0x80 == p.head.flagsByte % 0x80)
      && (q.payload == p.payload ==> q == p)
  {
  }

  // ---------- each stage is undone by its counterpart ----------

  /** Two headers give the same nonce exactly when they agree on the type byte, the ends and the low
      24 bits of the sequence number: the TTL and flag bytes do not matter. */
  lemma NonceDetermined(g: Header, h: Header)
    ensures Nonce(g) == Nonce(h) <==>
      g.typeByte == h.typeByte && g.src == h.src && g.dest == h.dest && g.seqNo % 0x100_0000 == h.seqNo % 0x100_0000
  {
    var n, m := Nonce(g), Nonce(h);
    if n == m {
      assert n[0] == m[0];
      assert n[4..8] == WordBytes(g.dest) && m[4..8] == WordBytes(h.dest);
      assert n[8..12] == WordBytes(g.src) && m[8..12] == WordBytes(h.src);
      ReadOfWrite(g.dest);
      ReadOfWrite(h.dest);
      ReadOfWrite(g.src);
      ReadOfWrite(h.src);
      assert n[1..4] == WordBytes(g.seqNo)[1..] && m[1..4] == WordBytes(h.seqNo)[1..];
      LowDigits(g.seqNo, h.seqNo);
    } else if g.typeByte == h.typeByte && g.src == h.src && g.dest == h.dest
              && g.seqNo % 0x100_0000 == h.seqNo % 0x100_0000 {
      LowDigits(g.seqNo, h.seqNo);
    }
  }

  lemma LowDigits(a: u32, b: u32)
    ensures WordBytes(a)[1..] == WordBytes(b)[1..] <==> a % 0x100_0000 == b % 0x100_0000
  {
    LowWord(a);
    LowWord(b);
    var s, t := WordBytes(a), WordBytes(b);
    if s[1..] == t[1..] {
      assert s[1] == s[1..][0] && s[2] == s[1..][1] && s[3] == s[1..][2];
      assert t[1] == t[1..][0] && t[2] == t[1..][1] && t[3] == t[1..][2];
    }
    if a % 0x100_0000 == b % 0x100_0000 {
      LowParts(a % 0x100_0000, s[1], s[2], s[3], t[1], t[2], t[3]);
    }
  }

  lemma LowWord(a: u32)
    ensures var s := WordBytes(a);
      a % 0x100_0000 == s[1] as u32 * 0x1_0000 + s[2] as u32 * 0x100 + s[3] as u32
  {
    var n := a as int;
    assert n % 0x100_0000 == n - n / 0x100_0000 * 0x100_0000;
    assert n / 0x100_0000 == n / 0x1_0000 / 0x100 && n / 0x1_0000 == n / 0x100 / 0x100;
  }

  lemma LowParts(w: u32, a: byte, b: byte, c: byte, x: byte, y: byte, z: byte)
    requires w == a as u32 * 0x1_0000 + b as u32 * 0x100 + c as u32
    requires w == x as u32 * 0x1_0000 + y as u32 * 0x100 + z as u32
    ensures a == x && b == y && c == z
  {
  }

  /** What was encrypted decrypts under every header with the same nonce. */
  lemma DecryptUndoes(a: Option<Aead>, p: Packet, h: Header)
    requires a.Some? ==> Sound(a.value)
    requires Nonce(h) == Nonce(p.head)
    ensures Decrypted(a, Packet(h, Encrypted(a, p).payload)) == Ok(Packet(h, p.payload))
  {
  }

  /** What was compressed decompresses to the same payload; what was not comes through untouched,
      unless its header already claimed to be compressed. */
  lemma DecompressUndoes(z: Option<Lz4>, p: Packet, h: Header)
    requires z.Some? ==> Lossless(z.value)
    requires h.flagsByte == Compressed(z, p).head.flagsByte
    ensures var r := Decompressed(z, Packet(h, Compressed(z, p).payload));
      r.Ok? && r.value.payload == p.payload <==>
        z.None? || Shrinks(z, p.payload) || !Has(p.head.flagsByte, COMPRESSED)
        || z.value.decompress(p.payload) == Ok(p.payload)
  {
    FlagBits(p.head.flagsByte, COMPRESSED, true, COMPRESSED);
  }
}
