/** A payload's way from one client to another: the sending stages, any number of relays, and the
    receiving stages. */
module PacketPath {
  import opened Basics
  import opened NetPacket
  import opened Transmission
  import opened PacketStages

  const IPV4_MIN: nat := 20
  const SEND_TTL: byte := 5
  const BROADCAST_IP: Ip := 0xFFFF_FFFF
  const UNSPECIFIED: Ip := 0

  // ---------- where payloads come from ----------

  /** A packet read from the TUN device, put behind zeroed head room; one that does not fit the block
      is refused. A zeroed block is allocated without spare capacity. */
  method FromTun(bytes: seq<byte>) returns (r: Result<Option<TransmissionBytes>>)
    ensures r == Ok(None) <==> bytes == []
    ensures r == Err <==> |bytes| > DEFAULT_BUF_SIZE - HEAD_LENGTH
    ensures r.Ok? && r.value.Some? ==> FromZeroed(r.value.value, bytes) && fresh(r.value.value)
  {
    if bytes == [] {
      return Ok(None);
    }
    var b := new TransmissionBytes.NewOffset(HEAD_LENGTH, 0);
    var io := b.Put(bytes);
    r := if io.Done? then Ok(Some(b)) else Err;
  }

  /** A packet received from the internal IP stack into a zeroed window, then cut to its length. */
  method FromStack(bytes: seq<byte>) returns (b: TransmissionBytes)
    requires |bytes| <= DEFAULT_BUF_SIZE - HEAD_LENGTH
    ensures FromZeroed(b, bytes) && fresh(b)
  {
    b := new TransmissionBytes.NewOffsetZeroed(HEAD_LENGTH, 0);
    b.Write(0, bytes);
    ghost var whole := b.Contents();
    var io := b.SetLen(|bytes|);
    assert b.Contents() == whole[..|bytes|] == bytes;
  }

  /** A payload behind head room that is still zero. */
  predicate FromZeroed(b: TransmissionBytes, payload: seq<byte>)
    reads b
  {
    b.Valid() && b.Contents() == payload && b.start == HEAD_LENGTH && b.buf[..HEAD_LENGTH] == Zeros(HEAD_LENGTH)
  }

  // ---------- sending ----------

  /** Which peer a destination is sent to: itself inside the network, else by the subnet routes. */
  datatype Routing = Routing(inside: Ip -> bool, outside: Ip -> Option<Ip>)

  function SentHead(stale: Header, me: Ip, dest: Ip): Header {
    SetTtl(SetMsgType(stale, Turn).(src := me), SEND_TTL).(dest := dest)
  }

  /** The packet on the wire; `stale` is what the head room held before the header was written. */
  function Outgoing(stale: Header, me: Ip, dest: Ip, z: Option<Lz4>, a: Option<Aead>, payload: seq<byte>): Packet {
    Encrypted(a, Compressed(z, Packet(SentHead(stale, me, dest), payload)))
  }

  method Ipv4Outbound(me: Ip, routing: Routing, z: Option<Lz4>, a: Option<Aead>, data: TransmissionBytes)
    returns (r: Result<Option<TransmissionBytes>>)
    requires data.Valid() && (a.Some? ==> Sound(a.value))
    modifies data
    ensures var payload := old(data.Contents());
      if |payload| < IPV4_MIN then r == Ok(None)
      else if old(data.start) < HEAD_LENGTH then r == Err
      else
        var dest := ReadWord(payload[16..20]);
        if !routing.inside(dest) && routing.outside(dest).None? then r == Ok(None)
        else
          var peer := if routing.inside(dest) then dest else routing.outside(dest).value;
          r.Ok? && r.value.Some? && IsPacket(r.value.value)
          && PacketOf(r.value.value)
             == Outgoing(ReadHeader(old(data.buf[data.start - HEAD_LENGTH..data.start])), me, peer, z, a, payload)
  {
    ghost var payload := data.Contents();
    if |data.Contents()| < IPV4_MIN {
      return Ok(None);
    }
    var dest := ReadWord(data.Contents()[16..20]);
    var io := data.RetreatHead(HEAD_LENGTH);
    if io.Refused? {
      return Err;
    }
    ghost var stale := old(data.buf[data.start - HEAD_LENGTH..data.start]);
    HeadOfPrefix(data.Contents(), stale);
    assert data.Contents()[HEAD_LENGTH..] == payload;
    var head := SetTtl(SetMsgType(PacketOf(data).head, Turn).(src := me), SEND_TTL);
    if !routing.inside(dest) {
      var via := routing.outside(dest);
      if via.None? {
        SetHead(data, head);
        return Ok(None);
      }
      dest := via.value;
    }
    SetHead(data, head.(dest := dest));
    var packet := Compress(z, data, if a.Some? then TAG_LEN else 0);
    EncryptInPlace(a, packet);
    r := Ok(Some(packet));
  }

  // ---------- receiving ----------

  /** A client: its address, the broadcast address of its network, whether it knows a route to the
      destination at hand, and its settings. */
  datatype Node = Node(ip: Ip, broadcast: Ip, known: bool, z: Option<Lz4>, a: Option<Aead>)

  /** What becomes of a packet. An accepted one carries the number of hops it took. */
  datatype Verdict =
    | Failed
    | Dropped
    | Forwarded(packet: Packet)
    | ToDecoder(packet: Packet)
    | Accepted(packet: Packet, kind: MsgType, metric: byte)

  predicate IsFor(node: Node, dest: Ip) {
    dest in {node.ip, node.broadcast, BROADCAST_IP, UNSPECIFIED}
  }

  function Inbound(node: Node, p: Packet): Verdict {
    var kind := TypeOf(p.head);
    if kind.None? then Failed
    else if p.head.src == p.head.dest then Dropped
    else
      var q := p.(head := DecrTtl(p.head));
      if MaxTtl(q.head) <= Ttl(q.head) then Dropped
      else if !IsFor(node, q.head.dest) then
        if Ttl(q.head) >= 1 && node.known then Forwarded(q) else Dropped
      else Arrived(node, q, kind.value, MaxTtl(q.head) - Ttl(q.head))
  }

  function Arrived(node: Node, q: Packet, kind: MsgType, metric: byte): Verdict {
    if kind == Quic then
      if Has(q.head.flagsByte, FEC) then ToDecoder(q) else Accepted(q, kind, metric)
    else
      match Decrypted(node.a, q)
      case Err => Failed
      case Ok(plain) =>
        if Has(plain.head.flagsByte, FEC) then ToDecoder(plain)
        else
          match Decompressed(node.z, plain)
          case Err => Failed
          case Ok(whole) => Accepted(whole, kind, metric)
  }

  /** Known by its code, from somewhere else, and with a TTL not above its maximum. */
  predicate Lives(h: Header) {
    && (1 <= h.typeByte % 0x80 <= 15 || h.typeByte % 0x80 == 17)
    && h.src != h.dest
    && h.ttlByte / 0x10 >= h.ttlByte % 0x10 && h.ttlByte >= 0x10
  }

  /** The header one hop on. */
  function Hopped(h: Header): Header {
    h.(ttlByte := if h.ttlByte % 0x10 == 0 then h.ttlByte else h.ttlByte - 1)
  }

  /** When a node passes a packet on: the packet lives, at least two hops are left, the destination is
      none of the four addresses a node listens to, and the node knows a route. */
  predicate PassesOn(node: Node, h: Header) {
    && Lives(h) && h.ttlByte % 0x10 >= 2
    && h.dest != node.ip && h.dest != node.broadcast && h.dest != 0xFFFF_FFFF && h.dest != 0
    && node.known
  }

  /** When a packet is for the node itself. */
  predicate Arrives(node: Node, h: Header) {
    Lives(h) && (h.dest == node.ip || h.dest == node.broadcast || h.dest == 0xFFFF_FFFF || h.dest == 0)
  }

  /** What the node is left with of a packet for itself: for QUIC the payload as it came, else what the
      payload opens to; and for a packet without the FEC flag what that decompresses to. */
  ghost predicate Delivers(node: Node, p: Packet, q: Packet, coded: bool) {
    var h := Hopped(p.head);
    var quic := p.head.typeByte % 0x80 == 17;
    var plain := if quic || node.a.None? then Ok(p.payload) else node.a.value.open(Nonce(p.head), p.payload);
    && coded == Has(h.flagsByte, FEC)
    && plain.Ok?
    && if coded || quic || node.z.None? || h.flagsByte < 0x80 then q == Packet(h, plain.value)
       else q.head == h.(flagsByte := h.flagsByte - 0x80) && node.z.value.decompress(plain.value) == Ok(q.payload)
  }

  lemma LivesIff(h: Header)
    ensures Lives(h) <==> TypeOf(h).Some? && h.src != h.dest && MaxTtl(DecrTtl(h)) > Ttl(DecrTtl(h))
    ensures Hopped(h) == DecrTtl(h)
    ensures MaxTtl(Hopped(h)) == h.ttlByte / 0x10 && Ttl(Hopped(h)) as nat == Hops(h)
  {
  }

  /** The hops left after this one. */
  function Hops(h: Header): nat {
    var ttl := (h.ttlByte % 0x10) as nat;
    if ttl == 0 then 0 else ttl - 1
  }

  /** A node passes a packet on exactly under the stated condition on the header, unchanged but for
      the TTL, which is one lower. */
  lemma ForwardsIff(node: Node, p: Packet)
    ensures var v := Inbound(node, p);
      && (v.Forwarded? <==> PassesOn(node, p.head))
      && (v.Forwarded? ==> v.packet == p.(head := p.head.(ttlByte := p.head.ttlByte - 1)))
  {
    hide TypeOf, Decrypted, Decompressed;
    LivesIff(p.head);
  }

  /** What a packet for the node itself becomes, and that only such a packet is accepted or given to
      the decoder: behind a cipher, only when its payload opened. */
  lemma ArrivesIff(node: Node, p: Packet, q: Packet)
    ensures var v := Inbound(node, p);
      && (v == ToDecoder(q) <==> Arrives(node, p.head) && Delivers(node, p, q, true))
      && (v.Accepted? && v.packet == q <==> Arrives(node, p.head) && Delivers(node, p, q, false))
      && (v.Accepted? ==>
            TypeOf(p.head) == Some(v.kind)
            && v.metric as nat == (p.head.ttlByte / 0x10) as nat - Hops(p.head))
  {
    hide TypeOf, Nonce;
    LivesIff(p.head);
    TypeKnown(p.head, Quic);
    NonceDetermined(p.head, DecrTtl(p.head));
  }

  /** A packet fails when its type is unknown, or when it is for the node but does not open or does not
      decompress; it is dropped without a word in all other cases not named above. */
  lemma FailsIff(node: Node, p: Packet)
    ensures var v := Inbound(node, p);
      && (v.Failed? <==>
            || TypeOf(p.head).None?
            || (Arrives(node, p.head) && forall q: Packet, coded :: !Delivers(node, p, q, coded)))
      && (v.Dropped? <==>
            TypeOf(p.head).Some? && !PassesOn(node, p.head) && !Arrives(node, p.head))
  {
    hide Delivers, Decrypted, Decompressed, TypeOf;
    var v := Inbound(node, p);
    forall q: Packet ensures v.Failed? && Arrives(node, p.head) ==>
        !Delivers(node, p, q, true) && !Delivers(node, p, q, false)
    {
      ArrivesIff(node, p, q);
    }
    if v.ToDecoder? || v.Accepted? {
      ArrivesIff(node, p, v.packet);
    }
    ForwardsIff(node, p);
    LivesIff(p.head);
  }

  /** What a verdict says of the packet: it was passed on exactly under the condition above, and one
      that was taken had arrived and, behind a cipher, opened. */
  ghost predicate Judged(node: Node, p: Packet, v: Verdict) {
    && (v.Forwarded? <==> PassesOn(node, p.head))
    && (v.Forwarded? ==> v.packet == p.(head := p.head.(ttlByte := p.head.ttlByte - 1)))
    && (v.ToDecoder? ==> Arrives(node, p.head) && Delivers(node, p, v.packet, true))
    && (v.Accepted? ==> Arrives(node, p.head) && Delivers(node, p, v.packet, false))
    && ((v.ToDecoder? || v.Accepted?) && node.a.Some? && p.head.typeByte % 0x80 != 17 ==>
          node.a.value.open(Nonce(p.head), p.payload).Ok?)
  }

  lemma InboundMeans(node: Node, p: Packet)
    ensures Judged(node, p, Inbound(node, p))
  {
    hide Inbound, PassesOn, Arrives, Nonce;
    var v := Inbound(node, p);
    ForwardsIff(node, p);
    if v.ToDecoder? || v.Accepted? {
      ArrivesIff(node, p, v.packet);
    }
  }

  /** A packet on its way in: `Inbound`, carried out in the packet's buffer. */
  method NextHandle(node: Node, b: TransmissionBytes) returns (v: Verdict)
    requires b.Valid() && (node.a.Some? ==> Sound(node.a.value))
    modifies b
    ensures v == if |old(b.Contents())| < HEAD_LENGTH then Failed else Inbound(node, old(PacketOf(b)))
    ensures |old(b.Contents())| >= HEAD_LENGTH ==> Judged(node, old(PacketOf(b)), v)
  {
    hide PassesOn, Arrives, Delivers, Nonce, ReadHeader;
    if |b.Contents()| < HEAD_LENGTH {
      return Failed;
    }
    InboundMeans(node, PacketOf(b));
    var head := PacketOf(b).head;
    var kind := TypeOf(head);
    if kind.None? {
      return Failed;
    }
    if head.src == head.dest {
      return Dropped;
    }
    head := DecrTtl(head);
    SetHead(b, head);
    if MaxTtl(head) <= Ttl(head) {
      return Dropped;
    }
    if !IsFor(node, head.dest) {
      if Ttl(head) >= 1 && node.known {
        return Forwarded(PacketOf(b));
      }
      return Dropped;
    }
    var metric := MaxTtl(head) - Ttl(head);
    if kind.value == Quic {
      if Has(head.flagsByte, FEC) {
        return ToDecoder(PacketOf(b));
      }
      return Accepted(PacketOf(b), Quic, metric);
    }
    var ok := DecryptInPlace(node.a, b);
    if !ok {
      return Failed;
    }
    if Has(PacketOf(b).head.flagsByte, FEC) {
      return ToDecoder(PacketOf(b));
    }
    var whole := Decompress(node.z, b);
    v := match whole case Err => Failed case Ok(pkt) => Accepted(PacketOf(pkt), kind.value, metric);
  }

  // ---------- relaying ----------

  /** A packet passed on from node to node; the nodes, their routes and settings are arbitrary and a
      node may occur again. Each entry of `ps` is one transmission. */
  ghost predicate Relayed(ps: seq<Packet>, nodes: seq<Node>) {
    && |ps| == |nodes| + 1
    && forall i {:trigger nodes[i]} :: 0 <= i < |nodes| ==> Inbound(nodes[i], ps[i]) == Forwarded(ps[i + 1])
  }

  lemma ForwardKeeps(node: Node, p: Packet, q: Packet)
    requires Inbound(node, p) == Forwarded(q)
    ensures q == p.(head := DecrTtl(p.head)) && Ttl(q.head) >= 1
  {
    hide TypeOf, Decrypted, Decompressed;
  }

  /** After every hop only the TTL has changed, one lower each time. */
  lemma {:induction false} RelayTouchesTtl(ps: seq<Packet>, nodes: seq<Node>, n: byte, k: nat)
    requires Relayed(ps, nodes) && k < |ps|
    requires 1 <= n < 0x10 && MaxTtl(ps[0].head) == Ttl(ps[0].head) == n
    ensures ps[k] == ps[0].(head := ps[k].head) && ps[k].head == ps[0].head.(ttlByte := ps[k].head.ttlByte)
    ensures MaxTtl(ps[k].head) == n && k < n as nat && Ttl(ps[k].head) as nat == n as nat - k
  {
    hide Inbound;
    if k > 0 {
      RelayTouchesTtl(ps, nodes, n, k - 1);
      assert Inbound(nodes[k - 1], ps[k - 1]) == Forwarded(ps[k]);
      ForwardKeeps(nodes[k - 1], ps[k - 1], ps[k]);
      TtlNibbles(ps[k - 1].head, 0);
    }
  }

  /** However it is routed, a packet sent with TTL `n` is transmitted at most `n` times; where it is
      accepted its metric is the number of links it crossed, so 1 means it was not relayed. */
  lemma RelayingEnds(ps: seq<Packet>, nodes: seq<Node>, h: Header, n: byte, node: Node)
    requires Relayed(ps, nodes) && 1 <= n < 0x10 && ps[0].head == SetTtl(h, n)
    ensures |ps| <= n as nat
    ensures var v := Inbound(node, ps[|ps| - 1]);
      (v.Accepted? ==> v.metric as nat == |ps| && (v.metric == 1 <==> nodes == []))
      && (v.Forwarded? ==> |ps| < n as nat)
  {
    TtlNibbles(h, n);
    RelayTouchesTtl(ps, nodes, n, |ps| - 1);
    TtlNibbles(ps[|ps| - 1].head, 0);
  }

  // ---------- the whole path ----------

  /** Two packets that were sent have the same nonce exactly when they go between the same ends and
      their head rooms held the same low 24 bits where the sequence number is; nothing on the way to
      the wire sets that number. */
  lemma SentNonce(stale: Header, me: Ip, dest: Ip, payload: seq<byte>, stale': Header, me': Ip, dest': Ip,
                  payload': seq<byte>, z: Option<Lz4>, a: Option<Aead>)
    ensures var p, q := Outgoing(stale, me, dest, z, a, payload), Outgoing(stale', me', dest', z, a, payload');
      Nonce(p.head) == Nonce(q.head) <==>
        me == me' && dest == dest' && stale.seqNo % 0x100_0000 == stale'.seqNo % 0x100_0000
  {
    hide Shrinks, Nonce;
    var p, q := Outgoing(stale, me, dest, z, a, payload), Outgoing(stale', me', dest', z, a, payload');
    NonceDetermined(p.head, q.head);
  }

  /** With zeroed head room, that is exactly when they go between the same ends. */
  lemma ZeroedNonce(room: seq<byte>, me: Ip, dest: Ip, payload: seq<byte>, me': Ip, dest': Ip, payload': seq<byte>,
                    z: Option<Lz4>, a: Option<Aead>)
    requires room == Zeros(HEAD_LENGTH)
    ensures var stale := ReadHeader(room);
      Nonce(Outgoing(stale, me, dest, z, a, payload).head) == Nonce(Outgoing(stale, me', dest', z, a, payload').head)
      <==> me == me' && dest == dest'
  {
    hide Nonce, Outgoing;
    SentNonce(ReadHeader(room), me, dest, payload, ReadHeader(room), me', dest', payload', z, a);
  }

  /** What goes on the wire, by its bytes: a packet of type 1 with both TTL nibbles 5 between the two
      ends, the rest of the header as the head room had it but for the compression flag; behind it the
      compressed payload, or the payload itself, as a whole sealed under the nonce of that header. */
  lemma OutgoingMeans(stale: Header, me: Ip, dest: Ip, z: Option<Lz4>, a: Option<Aead>, payload: seq<byte>)
    ensures var p := Outgoing(stale, me, dest, z, a, payload);
      var small := z.Some? && |payload| >= 256 && |z.value.compress(payload)| < |payload|;
      var body := if small then z.value.compress(payload) else payload;
      && p.head == Header(0x81, 0x55, p.head.flagsByte, stale.reserved, stale.seqNo, me, dest)
      && p.head.flagsByte ==
         (if small && stale.flagsByte < 0x80 then stale.flagsByte + 0x80 else stale.flagsByte)
      && (a.None? ==> p.payload == body)
      && (a.Some? ==>
            var (sealed, tag) := a.value.seal(Nonce(p.head), body);
            p.payload == sealed + tag)
  {
    hide Nonce;
  }

  lemma OutgoingHead(stale: Header, me: Ip, dest: Ip, z: Option<Lz4>, a: Option<Aead>, payload: seq<byte>)
    ensures var p := Outgoing(stale, me, dest, z, a, payload);
      && TypeOf(p.head) == Some(Turn) && p.head.src == me && p.head.dest == dest
      && p.head.ttlByte == SetTtl(stale, SEND_TTL).ttlByte
      && Has(p.head.flagsByte, FEC) == Has(stale.flagsByte, FEC)
  {
    TypeRoundTrip(stale, Turn);
    FlagBits(stale.flagsByte, COMPRESSED, true, FEC);
  }

  /** A payload sent and relayed any number of times comes out as it went in, at a receiver with the
      same settings, exactly when the head room did not hold flags that mislead it: the FEC flag, or
      the compression flag on a packet sent uncompressed, unless decompressing happens to give the
      payload back. */
  lemma PathIdentity(stale: Header, me: Ip, z: Option<Lz4>, a: Option<Aead>, payload: seq<byte>,
                     ps: seq<Packet>, nodes: seq<Node>, last: Node)
    requires (a.Some? ==> Sound(a.value)) && (z.Some? ==> Lossless(z.value))
    requires last.ip != me && last.a == a && last.z == z
    requires Relayed(ps, nodes) && ps[0] == Outgoing(stale, me, last.ip, z, a, payload)
    ensures |ps| <= SEND_TTL as nat
    ensures var v := Inbound(last, ps[|ps| - 1]);
      && (v.Accepted? ==>
            v.kind == Turn && v.packet.head.src == me && v.packet.head.dest == last.ip && v.metric as nat == |ps|)
      && (v.Accepted? && v.packet.payload == payload <==>
            !Has(stale.flagsByte, FEC)
            && (z.None? || Shrinks(z, payload) || !Has(stale.flagsByte, COMPRESSED)
                || z.value.decompress(payload) == Ok(payload)))
  {
    hide Shrinks, Sound, Lossless, Has, TypeOf;
    var k := |ps| - 1;
    OutgoingHead(stale, me, last.ip, z, a, payload);
    TtlNibbles(stale, SEND_TTL);
    RelayTouchesTtl(ps, nodes, SEND_TTL, k);
    TtlNibbles(ps[k].head, 0);
    var sent := Packet(SentHead(stale, me, last.ip), payload);
    var small := Compressed(z, sent);
    var q := Packet(DecrTtl(ps[k].head), ps[k].payload);
    NonceDetermined(q.head, small.head);
    DecryptUndoes(a, small, q.head);
    DecompressUndoes(z, sent, q.head);
    assert TypeOf(ps[k].head) == TypeOf(ps[0].head) by {
      SameType(ps[k].head, ps[0].head);
    }
  }

  /** Both callers of `Ipv4Outbound` hand it a buffer whose head room is zeroed, so in the program
      every payload comes out as it went in. */
  lemma ZeroedPathIdentity(room: seq<byte>, me: Ip, z: Option<Lz4>, a: Option<Aead>, payload: seq<byte>,
                           ps: seq<Packet>, nodes: seq<Node>, last: Node)
    requires room == Zeros(HEAD_LENGTH)
    requires (a.Some? ==> Sound(a.value)) && (z.Some? ==> Lossless(z.value))
    requires last.ip != me && last.a == a && last.z == z
    requires Relayed(ps, nodes) && ps[0] == Outgoing(ReadHeader(room), me, last.ip, z, a, payload)
    ensures |ps| <= SEND_TTL as nat
    ensures var v := Inbound(last, ps[|ps| - 1]);
      v.Accepted? && v.kind == Turn && v.packet.payload == payload && v.metric as nat == |ps|
  {
    hide Sound, Lossless, Relayed, Outgoing, Inbound, Shrinks;
    PathIdentity(ReadHeader(room), me, z, a, payload, ps, nodes, last);
  }

  lemma SameType(g: Header, h: Header)
    requires g.typeByte == h.typeByte
    ensures TypeOf(g) == TypeOf(h)
  {
  }
}
