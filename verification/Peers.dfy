/**
 Peer ids, socket addresses and peers (types/src/types.rs, types/src/peer.rs), their
 52-byte wire form, and the bit strings the routing tables are built on (src/kad.rs).
 */
module Peers {
  import opened Wrappers
  import opened Bytes
  import opened Metric

  const PEER_ID_LENGTH: nat := 32
  const SOCKET_LENGTH: nat := 18
  const PEER_LENGTH: nat := 52

  type PeerId = b: seq<byte> | |b| == 32 witness seq(32, _ => 0)
  type Octets4 = b: seq<byte> | |b| == 4 witness [0, 0, 0, 0]
  type Octets16 = b: seq<byte> | |b| == 16 witness seq(16, _ => 0)

  datatype SocketAddr =
    | V4(ip4: Octets4, port: U16)
    | V6(ip6: Octets16, port: U16, flow: U32, scope: U32)

  datatype TransportType = QUIC | TCP | RTP | UDT

  datatype Peer = Peer(id: PeerId, socket: SocketAddr, transport: TransportType, isPub: bool)

  // ---------------------------------------------------------------- sockets

  // ::ffff:a.b.c.d, section 2.5.5.2 of RFC 4291.
  function Mapped(ip: Octets4): Octets16
  {
    seq(10, _ => 0) + [255, 255] + ip
  }

  function IpOctets(s: SocketAddr): Octets16
  {
    match s
    case V4(ip, _) => Mapped(ip)
    case V6(ip, _, _, _) => ip
  }

  // `Ipv6Addr::to_ipv4` answers for IPv4-mapped and for IPv4-compatible addresses
  // (sections 2.5.5.2 and 2.5.5.1 of RFC 4291).
  predicate HasIpv4(ip: Octets16)
  {
    (forall i :: 0 <= i < 10 ==> ip[i] == 0) && (ip[10..12] == [0, 0] || ip[10..12] == [255, 255])
  }

  function SocketToBytes(s: SocketAddr): (b: seq<byte>)
    ensures |b| == SOCKET_LENGTH
  {
    IpOctets(s) + ToLe(s.port, 2)
  }

  function SocketFromBytes(b: seq<byte>): Result<SocketAddr>
  {
    if |b| != SOCKET_LENGTH then Err
    else
      LeBounded(b[16..18]);
      Widths();
      Ok(SocketOf(b[0..16], FromLe(b[16..18])))
  }

  function SocketOf(ip: Octets16, port: U16): SocketAddr
  {
    if HasIpv4(ip) then V4(ip[12..16], port) else V6(ip, port, 0, 0)
  }

  // What a socket becomes when it crosses the wire.
  function NormalSocket(s: SocketAddr): SocketAddr
  {
    match s
    case V4(_, _) => s
    case V6(ip, port, _, _) => if HasIpv4(ip) then V4(ip[12..16], port) else V6(ip, port, 0, 0)
  }

  lemma SocketRoundTrip(s: SocketAddr)
    ensures SocketFromBytes(SocketToBytes(s)) == Ok(NormalSocket(s))
  {
    var b := SocketToBytes(s);
    assert b[0..16] == IpOctets(s) && b[16..18] == ToLe(s.port, 2);
    Widths();
    LeRoundTrip(s.port, 2);
    if s.V4? {
      assert Mapped(s.ip4)[10..12] == [255, 255] && Mapped(s.ip4)[12..16] == s.ip4;
    }
  }

  // An IPv6 socket crosses the wire as IPv4 exactly when its address is ::ffff:a.b.c.d or
  // ::a.b.c.d, and then as a.b.c.d; otherwise only flow and scope are cleared.
  lemma NormalSocketExact(ip: Octets16, port: U16, flow: U32, scope: U32)
    ensures var n := NormalSocket(V6(ip, port, flow, scope));
            && (forall a: Octets4 :: ip == [0, 0, 0, 0, 0, 0, 0, 0, 0, 0, 255, 255] + a || ip == [0, 0, 0, 0, 0, 0, 0, 0, 0, 0, 0, 0] + a ==>
                  n == V4(a, port))
            && ((forall a: Octets4 :: ip != [0, 0, 0, 0, 0, 0, 0, 0, 0, 0, 255, 255] + a && ip != [0, 0, 0, 0, 0, 0, 0, 0, 0, 0, 0, 0] + a) ==>
                  n == V6(ip, port, 0, 0))
  {
    var a: Octets4 := ip[12..16];
    if HasIpv4(ip) {
      assert ip == [0, 0, 0, 0, 0, 0, 0, 0, 0, 0] + ip[10..12] + a;
      assert ip == [0, 0, 0, 0, 0, 0, 0, 0, 0, 0, 255, 255] + a || ip == [0, 0, 0, 0, 0, 0, 0, 0, 0, 0, 0, 0] + a;
    }
  }

  // ---------------------------------------------------------------- peers

  function TransportToByte(t: TransportType): byte
  {
    match t
    case QUIC => 0
    case TCP => 1
    case RTP => 2
    case UDT => 3
  }

  function TransportFromByte(b: byte): Result<TransportType>
  {
    if b == 0 then Ok(QUIC) else if b == 1 then Ok(TCP) else if b == 2 then Ok(RTP) else if b == 3 then Ok(UDT) else Err
  }

  function PeerToBytes(p: Peer): (b: seq<byte>)
    ensures |b| == PEER_LENGTH
  {
    p.id + SocketToBytes(p.socket) + [TransportToByte(p.transport)] + [if p.isPub then 1 else 0]
  }

  function PeerFromBytes(b: seq<byte>): Result<Peer>
  {
    if |b| != PEER_LENGTH then Err
    else
      var socket := SocketFromBytes(b[32..50]);
      var transport := TransportFromByte(b[50]);
      if socket.Err? || transport.Err? then Err
      else Ok(Peer(b[0..32], socket.value, transport.value, b[51] == 1))
  }

  function NormalPeer(p: Peer): Peer
  {
    p.(socket := NormalSocket(p.socket))
  }

  lemma PeerRoundTrip(p: Peer)
    ensures PeerFromBytes(PeerToBytes(p)) == Ok(NormalPeer(p))
    ensures NormalPeer(p) == Peer(p.id, NormalSocket(p.socket), p.transport, p.isPub)
    ensures NormalPeer(NormalPeer(p)) == NormalPeer(p)
  {
    var b := PeerToBytes(p);
    assert b[0..32] == p.id && b[32..50] == SocketToBytes(p.socket);
    SocketRoundTrip(p.socket);
  }

  // Where the fields of a peer lie in its 52 bytes.
  lemma PeerLayout(p: Peer)
    ensures var b := PeerToBytes(p);
            && |b| == 52 && b[..32] == p.id
            && b[32..48] == (if p.socket.V4? then [0, 0, 0, 0, 0, 0, 0, 0, 0, 0, 255, 255] + p.socket.ip4 else p.socket.ip6)
            && b[48] == p.socket.port % 256 && b[49] == p.socket.port / 256
            && b[50] == (match p.transport case QUIC => 0 case TCP => 1 case RTP => 2 case UDT => 3)
            && b[51] == if p.isPub then 1 else 0
  {
    assert ToLe(p.socket.port, 2) == [p.socket.port % 256, p.socket.port / 256] by {
      assert ToLe(p.socket.port / 256, 1) == [p.socket.port / 256 % 256] + ToLe(p.socket.port / 256 / 256, 0);
    }
  }

  // Whatever bytes decode to a peer: 52 of them, and a peer that the wire would not change.
  lemma DecodedPeerNormal(b: seq<byte>)
    requires PeerFromBytes(b).Ok?
    ensures |b| == 52 && NormalPeer(PeerFromBytes(b).value) == PeerFromBytes(b).value
    ensures PeerFromBytes(b).value.id == b[..32]
  {
  }

  // ---------------------------------------------------------------- distances

  // The low `k` bits of `n`, most significant first.
  function LowBits(n: nat, k: nat): (d: Distance)
    ensures |d| == k
  {
    if k == 0 then [] else LowBits(n / 2, k - 1) + [n % 2 == 1]
  }

  // As `BitVec::from_bytes`: each byte gives eight bits.
  function Bits(b: seq<byte>): (d: Distance)
    ensures |d| == 8 * |b|
  {
    if b == [] then [] else LowBits(b[0], 8) + Bits(b[1..])
  }

  function PeerBits(id: PeerId): (d: Distance)
    ensures |d| == 256
  {
    Bits(id)
  }

  function SocketBits(s: SocketAddr): (d: Distance)
    ensures |d| == 144
  {
    Bits(IpOctets(s) + ToLe(s.port, 2))
  }

  lemma {:induction false} LowBitsInjective(m: nat, n: nat, k: nat)
    requires m < Pow2(k) && n < Pow2(k) && LowBits(m, k) == LowBits(n, k)
    ensures m == n
  {
    if k == 0 {
    } else {
      assert LowBits(m / 2, k - 1) == LowBits(m, k)[..k - 1] == LowBits(n, k)[..k - 1] == LowBits(n / 2, k - 1);
      assert (m % 2 == 1) == LowBits(m, k)[k - 1] == LowBits(n, k)[k - 1] == (n % 2 == 1);
      LowBitsInjective(m / 2, n / 2, k - 1);
    }
  }

  lemma {:induction false} BitsInjective(a: seq<byte>, b: seq<byte>)
    requires |a| == |b| && Bits(a) == Bits(b)
    ensures a == b
  {
    if a == [] {
    } else {
      assert LowBits(a[0], 8) == Bits(a)[..8] == Bits(b)[..8] == LowBits(b[0], 8);
      PowersOfTwo();
      LowBitsInjective(a[0], b[0], 8);
      assert Bits(a[1..]) == Bits(a)[8..] == Bits(b)[8..] == Bits(b[1..]);
      BitsInjective(a[1..], b[1..]);
    }
  }

  lemma FirstByte(b: seq<byte>)
    requires b != []
    ensures Bits(b)[..8] == LowBits(b[0], 8)
  {
  }

  // ---------------------------------------------------------------- what the bits of bytes are

  lemma ValueSnoc(d: Distance, b: bool)
    ensures Value(d + [b]) == 2 * Value(d) + if b then 1 else 0
  {
    assert (d + [b])[..|d|] == d;
  }

  lemma {:induction false} LowBitsValue(d: Distance, x: nat, k: nat)
    requires x < Pow2(k)
    ensures Value(d + LowBits(x, k)) == Value(d) * Pow2(k) + x
  {
    if k == 0 {
      assert d + [] == d;
    } else {
      var bits := LowBits(x / 2, k - 1);
      LowBitsValue(d, x / 2, k - 1);
      assert d + LowBits(x, k) == (d + bits) + [x % 2 == 1];
      ValueSnoc(d + bits, x % 2 == 1);
      Doubling(Value(d), Pow2(k - 1));
    }
  }

  lemma Doubling(v: nat, p: nat)
    ensures 2 * (v * p) == v * (2 * p)
  {
  }

  lemma {:induction false} BitsSnoc(b: seq<byte>, x: byte)
    ensures Bits(b + [x]) == Bits(b) + LowBits(x, 8)
  {
    if b == [] {
      assert [x][1..] == [] && Bits([]) == [];
      assert b + [x] == [x];
      assert Bits([x]) == LowBits(x, 8) + Bits([]);
    } else {
      BitsSnoc(b[1..], x);
      assert (b + [x])[1..] == b[1..] + [x];
    }
  }

  // The bits of a byte string, read as a number, are the bytes read as one, first byte and
  // first bit most significant.
  lemma {:induction false} BitsValue(b: seq<byte>)
    ensures Value(Bits(b)) == FromBe(b)
  {
    if b == [] {
    } else {
      var init, x := b[..|b| - 1], b[|b| - 1];
      BitsValue(init);
      assert b == init + [x];
      BitsSnoc(init, x);
      PowersOfTwo();
      LowBitsValue(Bits(init), x, 8);
    }
  }

  // How far two peer ids are apart: the XOR of the two 256-bit numbers.
  function Gap(a: PeerId, b: PeerId): nat
  {
    NatXor(FromBe(a), FromBe(b))
  }

  lemma GapIsDistance(a: PeerId, b: PeerId)
    ensures Value(Xor(PeerBits(a), PeerBits(b))) == Gap(a, b)
  {
    XorValue(PeerBits(a), PeerBits(b));
    BitsValue(a);
    BitsValue(b);
  }

  // Comparing distances in the routing table is comparing these numbers.
  lemma NearerByGap(x: PeerId, a: PeerId, y: PeerId, b: PeerId)
    ensures Less(Xor(PeerBits(x), PeerBits(a)), Xor(PeerBits(y), PeerBits(b))) <==> Gap(x, a) < Gap(y, b)
  {
    LessIffSmaller(Xor(PeerBits(x), PeerBits(a)), Xor(PeerBits(y), PeerBits(b)));
    GapIsDistance(x, a);
    GapIsDistance(y, b);
  }

  // Two ids share the first eight bits of their distances from a root exactly when their
  // first bytes agree.
  lemma SharedByFirstByte(root: PeerId, a: PeerId, b: PeerId)
    ensures Xor(PeerBits(root), PeerBits(a))[..8] == Xor(PeerBits(root), PeerBits(b))[..8] <==> a[0] == b[0]
  {
    XorTake(PeerBits(root), PeerBits(a), 8);
    XorTake(PeerBits(root), PeerBits(b), 8);
    XorInjective(PeerBits(root)[..8], PeerBits(a)[..8], PeerBits(b)[..8]);
    FirstByte(a);
    FirstByte(b);
    if LowBits(a[0], 8) == LowBits(b[0], 8) {
      PowersOfTwo();
      LowBitsInjective(a[0], b[0], 8);
    }
  }

  // Peer ids are told apart by their bits, socket addresses are not: an IPv4 address and
  // its IPv4-mapped form look the same to the routing table.
  lemma PeerBitsInjective(a: PeerId, b: PeerId)
    requires PeerBits(a) == PeerBits(b)
    ensures a == b
  {
    BitsInjective(a, b);
  }

  lemma SocketBitsCollide(ip: Octets4, port: U16, flow: U32, scope: U32)
    ensures V4(ip, port) != V6(Mapped(ip), port, flow, scope)
    ensures SocketBits(V4(ip, port)) == SocketBits(V6(Mapped(ip), port, flow, scope))
  {
  }
}
