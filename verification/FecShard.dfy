/** How a packet becomes a Reed-Solomon shard: [type, flags, u16 length, payload], zero-padded by
    the encoder to the longest shard of its batch. */
module FecShard {
  import opened Basics

  datatype Fields = Fields(typeByte: byte, flagsByte: byte, payload: seq<byte>)

  /** The length prefix is a big-endian u16; a longer payload has its length truncated. */
  function Pack(f: Fields): (s: seq<byte>)
    ensures |s| == 4 + |f.payload|
  {
    var n := |f.payload| % 0x1_0000;
    [f.typeByte, f.flagsByte, (n / 0x100) as byte, (n % 0x100) as byte] + f.payload
  }

  function Unpack(shard: seq<byte>): Result<Fields> {
    if |shard| < 4 then Err
    else
      var len := shard[2] as nat * 0x100 + shard[3] as nat;
      if len + 4 > |shard| then Err else Ok(Fields(shard[0], shard[1], shard[4..4 + len]))
  }

  function PadTo(shard: seq<byte>, len: nat): (s: seq<byte>)
    requires |shard| <= len
    ensures |s| == len
  {
    shard + Zeros(len - |shard|)
  }

  /** Unpacking a padded shard returns the packed fields, exactly when the payload length fits its prefix. */
  lemma FramingRoundTrip(f: Fields, len: nat)
    requires 4 + |f.payload| <= len
    ensures Unpack(PadTo(Pack(f), len)) == Ok(f) <==> |f.payload| <= 0xFFFF
  {
    var s := PadTo(Pack(f), len);
    var n := |f.payload| % 0x1_0000;
    assert s[2] as nat * 0x100 + s[3] as nat == n;
    assert s[4..4 + n] == f.payload[..n];
  }

  /** The header bytes of a shard and a prefix of its payload never depend on the padding. */
  lemma PaddingKeepsFields(shard: seq<byte>, len: nat)
    requires |shard| <= len && Unpack(shard).Ok?
    ensures Unpack(PadTo(shard, len)) == Unpack(shard)
  {
    var n := shard[2] as nat * 0x100 + shard[3] as nat;
    assert PadTo(shard, len)[4..4 + n] == shard[4..4 + n];
  }
}

/** The FEC message carried in the payload of a packet whose FEC flag is set. */
module FecMessage {
  import opened Basics
  import opened NetPacket

  datatype ParityData = ParityData(dataShards: nat, parityShards: nat)

  datatype FecPacket = FecPacket(groupId: nat, index: nat, payload: seq<byte>, parityData: Option<ParityData>)

  /** A packet on the wire: its header and the message its payload encodes. */
  datatype Frame = Frame(head: Header, body: FecPacket)

  const EMPTY_HEADER := Header(0, 0, 0, 0, 0, 0, 0)
}
