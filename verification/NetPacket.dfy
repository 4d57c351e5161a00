/** The 16-byte packet header: message type, TTL nibbles, flag bits and the three 32-bit words. */
module NetPacket {
  import opened Basics

  const HEAD_LENGTH: nat := 16

  const COMPRESSED: byte := 0x80
  const GATEWAY: byte := 0x40
  const FEC: byte := 0x20

  datatype Header = Header(
    typeByte: byte, ttlByte: byte, flagsByte: byte, reserved: byte,
    seqNo: u32, src: Ip, dest: Ip)

  datatype Packet = Packet(head: Header, payload: seq<byte>)

  datatype MsgType =
    | Turn | Broadcast | ExcludeBroadcast | TargetBroadcast
    | Ping | Pong | PingTurn | PongTurn
    | PunchStart1 | PunchStart2 | PunchReq | PunchRes
    | PushClientIps | RpcReq | RpcRes | Quic

  // ---------- message type ----------

  function Code(t: MsgType): byte {
    match t
    case Turn => 1 case Broadcast => 2 case ExcludeBroadcast => 3 case TargetBroadcast => 4
    case Ping => 5 case Pong => 6 case PingTurn => 7 case PongTurn => 8
    case PunchStart1 => 9 case PunchStart2 => 10 case PunchReq => 11 case PunchRes => 12
    case PushClientIps => 13 case RpcReq => 14 case RpcRes => 15 case Quic => 17
  }

  function TypeOf(h: Header): Option<MsgType> {
    match h.typeByte % 0x80
    case 1 => Some(Turn) case 2 => Some(Broadcast) case 3 => Some(ExcludeBroadcast)
    case 4 => Some(TargetBroadcast) case 5 => Some(Ping) case 6 => Some(Pong)
    case 7 => Some(PingTurn) case 8 => Some(PongTurn) case 9 => Some(PunchStart1)
    case 10 => Some(PunchStart2) case 11 => Some(PunchReq) case 12 => Some(PunchRes)
    case 13 => Some(PushClientIps) case 14 => Some(RpcReq) case 15 => Some(RpcRes)
    case 17 => Some(Quic)
    case _ => None
  }

  function SetMsgType(h: Header, t: MsgType): Header {
    h.(typeByte := Code(t) % 0x80 + 0x80)
  }

  // ---------- TTL nibbles ----------

  function MaxTtl(h: Header): byte {
    h.ttlByte / 0x10
  }

  function Ttl(h: Header): byte {
    h.ttlByte % 0x10
  }

  /** Both nibbles; the shift left drops the high bits of `ttl`. */
  function SetTtl(h: Header, ttl: byte): Header {
    h.(ttlByte := (ttl % 0x10) * 0x10 + ttl % 0x10)
  }

  function DecrTtl(h: Header): Header {
    if Ttl(h) == 0 then h else h.(ttlByte := h.ttlByte / 0x10 * 0x10 + (Ttl(h) - 1))
  }

  // ---------- flag bits ----------

  predicate Has(flags: byte, mask: byte)
    requires mask in {COMPRESSED, GATEWAY, FEC}
  {
    flags / mask % 2 == 1
  }

  function With(flags: byte, mask: byte, on: bool): (f: byte)
    requires mask in {COMPRESSED, GATEWAY, FEC}
  {
    if Has(flags, mask) == on then flags else if on then flags + mask else flags - mask
  }

  function SetFlag(h: Header, mask: byte, on: bool): Header
    requires mask in {COMPRESSED, GATEWAY, FEC}
  {
    h.(flagsByte := With(h.flagsByte, mask, on))
  }

  /** A flag byte as its three flags and its low five bits. */
  function Join(c: bool, g: bool, f: bool, low: byte): byte
    requires low < 0x20
  {
    (if c then 0x80 else 0) + (if g then 0x40 else 0) + (if f then 0x20 else 0) + low
  }

  lemma JoinBits(c: bool, g: bool, f: bool, low: byte)
    requires low < 0x20
    ensures var b := Join(c, g, f, low);
      Has(b, COMPRESSED) == c && Has(b, GATEWAY) == g && Has(b, FEC) == f && b % 0x20 == low
  {
  }

  lemma JoinAll(flags: byte)
    ensures flags == Join(Has(flags, COMPRESSED), Has(flags, GATEWAY), Has(flags, FEC), flags % 0x20)
  {
  }

  /** Writing one flag changes that flag and no other bit. */
  lemma FlagBits(flags: byte, mask: byte, on: bool, other: byte)
    requires mask in {COMPRESSED, GATEWAY, FEC} && other in {COMPRESSED, GATEWAY, FEC}
    ensures Has(With(flags, mask, on), other) == if other == mask then on else Has(flags, other)
    ensures With(flags, mask, on) % 0x20 == flags % 0x20
  {
    var c, g, f, low := Has(flags, COMPRESSED), Has(flags, GATEWAY), Has(flags, FEC), flags % 0x20;
    JoinAll(flags);
    if mask == COMPRESSED {
      assert With(flags, mask, on) == Join(on, g, f, low);
      JoinBits(on, g, f, low);
    } else if mask == GATEWAY {
      assert With(flags, mask, on) == Join(c, on, f, low);
      JoinBits(c, on, f, low);
    } else {
      assert With(flags, mask, on) == Join(c, g, on, low);
      JoinBits(c, g, on, low);
    }
  }

  /** A fresh TTL fills both nibbles, for the values a nibble holds; each decrement lowers the
      current one by one until it is zero, and never touches the maximum. The current one is the low
      nibble. */
  lemma TtlNibbles(h: Header, ttl: byte)
    ensures h.ttlByte == MaxTtl(h) * 0x10 + Ttl(h) && Ttl(h) < 0x10
    ensures DecrTtl(h) == if Ttl(h) == 0 then h else h.(ttlByte := h.ttlByte - 1)
    ensures MaxTtl(SetTtl(h, ttl)) == Ttl(SetTtl(h, ttl)) == ttl % 0x10
    ensures MaxTtl(DecrTtl(h)) == MaxTtl(h)
    ensures Ttl(DecrTtl(h)) == if Ttl(h) == 0 then 0 else Ttl(h) - 1
  {
  }

  /** Setting a message type always gives a header that reads back as that type; the top bit is set
      and no other field changes. */
  lemma TypeRoundTrip(h: Header, t: MsgType)
    ensures TypeOf(SetMsgType(h, t)) == Some(t)
    ensures SetMsgType(h, t) == h.(typeByte := 0x80 + Code(t))
  {
  }

  /** A type byte is understood exactly when its low seven bits are 1 to 15 or 17, and then it means
      the one type with that code. */
  lemma TypeKnown(h: Header, t: MsgType)
    ensures TypeOf(h).Some? <==> 1 <= h.typeByte % 0x80 <= 15 || h.typeByte % 0x80 == 17
    ensures TypeOf(h) == Some(t) <==> h.typeByte % 0x80 == Code(t)
  {
  }

  // ---------- bytes ----------

  function WordBytes(w: u32): (s: seq<byte>)
    ensures |s| == 4
  {
    [(w / 0x100_0000) as byte, (w / 0x1_0000 % 0x100) as byte, (w / 0x100 % 0x100) as byte, (w % 0x100) as byte]
  }

  function ReadWord(s: seq<byte>): u32
    requires |s| == 4
  {
    s[0] as u32 * 0x100_0000 + s[1] as u32 * 0x1_0000 + s[2] as u32 * 0x100 + s[3] as u32
  }

  function HeaderBytes(h: Header): (s: seq<byte>)
    ensures |s| == HEAD_LENGTH
  {
    [h.typeByte, h.ttlByte, h.flagsByte, h.reserved] + WordBytes(h.seqNo) + WordBytes(h.src) + WordBytes(h.dest)
  }

  function ReadHeader(s: seq<byte>): Header
    requires |s| >= HEAD_LENGTH
  {
    Header(s[0], s[1], s[2], s[3], ReadWord(s[4..8]), ReadWord(s[8..12]), ReadWord(s[12..16]))
  }

  lemma ReadOfWrite(w: u32)
    ensures ReadWord(WordBytes(w)) == w
  {
    var n := w as int;
    var a, b, c := n / 0x100, n / 0x1_0000, n / 0x100_0000;
    assert b == a / 0x100 && c == b / 0x100;
    assert n == a * 0x100 + n % 0x100 && a == b * 0x100 + a % 0x100 && b == c * 0x100 + b % 0x100;
  }

  lemma WriteOfRead(s: seq<byte>)
    requires |s| == 4
    ensures WordBytes(ReadWord(s)) == s
  {
    var w := ReadWord(s) as int;
    Digits(s[0] as int * 0x1_0000 + s[1] as int * 0x100 + s[2] as int, s[3] as int);
    Digits(s[0] as int * 0x100 + s[1] as int, s[2] as int);
    Digits(s[0] as int, s[1] as int);
    assert w / 0x1_0000 == w / 0x100 / 0x100 && w / 0x100_0000 == w / 0x1_0000 / 0x100;
  }

  lemma Digits(hi: int, lo: int)
    requires 0 <= lo < 0x100
    ensures (hi * 0x100 + lo) / 0x100 == hi && (hi * 0x100 + lo) % 0x100 == lo
  {
  }

  function BigEndian(s: seq<byte>): nat {
    if s == [] then 0 else BigEndian(s[..|s| - 1]) * 0x100 + s[|s| - 1] as nat
  }

  lemma WordIsBigEndian(s: seq<byte>)
    requires |s| == 4
    ensures ReadWord(s) as nat == BigEndian(s)
  {
    var t := s[..3];
    assert t[..2] == s[..2] && s[..2][..1] == s[..1] && s[..1][..0] == [];
    assert BigEndian(s[..1]) == s[0] as nat && BigEndian(s[..2]) == BigEndian(s[..1]) * 0x100 + s[1] as nat;
    assert BigEndian(t) == BigEndian(s[..2]) * 0x100 + s[2] as nat;
  }

  /** Where a header lies on the wire: four single bytes, then the sequence number, the source and the
      destination in network order. */
  lemma WireLayout(h: Header)
    ensures var s := HeaderBytes(h);
      && s[..4] == [h.typeByte, h.ttlByte, h.flagsByte, h.reserved]
      && BigEndian(s[4..8]) == h.seqNo as nat
      && BigEndian(s[8..12]) == h.src as nat
      && BigEndian(s[12..]) == h.dest as nat
  {
    var s := HeaderBytes(h);
    HeaderRoundTrip(h, []);
    assert s + [] == s && s[12..] == s[12..16];
    WordIsBigEndian(s[4..8]);
    WordIsBigEndian(s[8..12]);
    WordIsBigEndian(s[12..16]);
  }

  /** Reading a header and writing it back loses nothing, in both directions. */
  lemma HeaderRoundTrip(h: Header, s: seq<byte>)
    ensures ReadHeader(HeaderBytes(h) + s) == h
    ensures |s| >= HEAD_LENGTH ==> HeaderBytes(ReadHeader(s)) == s[..HEAD_LENGTH]
  {
    var b := HeaderBytes(h) + s;
    assert b[4..8] == WordBytes(h.seqNo) && b[8..12] == WordBytes(h.src) && b[12..16] == WordBytes(h.dest);
    ReadOfWrite(h.seqNo);
    ReadOfWrite(h.src);
    ReadOfWrite(h.dest);
    if |s| >= HEAD_LENGTH {
      WriteOfRead(s[4..8]);
      WriteOfRead(s[8..12]);
      WriteOfRead(s[12..16]);
    }
  }
}
