/**
 The messages between two endpoints and their bytes: `Keypair` (src/keys.rs), `DHT` and
 `Hole` (src/hole_punching.rs), `RemotePublic` and `EndpointMessage` (src/transports.rs).
 */
module Wire {
  import opened Wrappers
  import opened Bytes
  import opened Peers

  datatype KeyType = Ed25519 | Lattice | NoKey

  datatype Keypair = Keypair(key: KeyType, sk: seq<byte>, pk: seq<byte>)

  datatype RemotePublic = RemotePublic(keypair: Keypair, peer: Peer, dh: seq<byte>)

  datatype Hole = StunOne | StunTwo | Help

  datatype EndpointMessage =
    | Close
    | Handshake(remote: RemotePublic)
    | DHT(peers: seq<Peer>)
    | HoleMsg(hole: Hole)
    | HoleConnect
    | Data(data: seq<byte>)
    | RelayHandshake(from: RemotePublic, to: PeerId)
    | RelayData(source: PeerId, target: PeerId, payload: seq<byte>)

  // ---------------------------------------------------------------- keys

  function PkLen(k: KeyType): nat
  {
    if k.Ed25519? then 32 else 0
  }

  function KeyToByte(k: KeyType): byte
  {
    match k
    case Ed25519 => 1
    case Lattice => 2
    case NoKey => 0
  }

  function KeyFromByte(b: byte): Result<KeyType>
  {
    if b == 0 then Ok(NoKey) else if b == 1 then Ok(Ed25519) else if b == 2 then Ok(Lattice) else Err
  }

  // Only the key type and the public key travel.
  function KeypairToBytes(k: Keypair): (b: seq<byte>)
    ensures |b| == 1 + |k.pk|
  {
    [KeyToByte(k.key)] + k.pk
  }

  function KeypairFromBytes(b: seq<byte>): (r: Result<Keypair>)
    ensures r.Ok? ==> |b| == 1 + |r.value.pk| && |r.value.pk| == PkLen(r.value.key)
  {
    if |b| < 1 then Err
    else
      var key := KeyFromByte(b[0]);
      if key.Err? then Err
      else if |b| != 1 + PkLen(key.value) then Err
      else Ok(Keypair(key.value, [], b[1..]))
  }

  function Public(k: Keypair): Keypair
  {
    k.(sk := [])
  }

  lemma KeypairRoundTrip(k: Keypair)
    requires |k.pk| == PkLen(k.key)
    ensures KeypairFromBytes(KeypairToBytes(k)) == Ok(Public(k)) && Public(k) == Keypair(k.key, [], k.pk)
  {
    assert KeypairToBytes(k)[1..] == k.pk;
  }

  // ---------------------------------------------------------------- remote public

  function RemoteToBytes(r: RemotePublic): (b: seq<byte>)
    ensures |b| == PEER_LENGTH + 2 + 1 + |r.keypair.pk| + |r.dh|
  {
    var keypair := KeypairToBytes(r.keypair);
    PeerToBytes(r.peer) + ToBe(|keypair|, 2) + keypair + r.dh
  }

  function RemoteFromBytes(b: seq<byte>): (r: Result<RemotePublic>)
    ensures r.Ok? ==> |r.value.keypair.pk| == PkLen(r.value.keypair.key)
    ensures r.Ok? ==> |b| == PEER_LENGTH + 2 + 1 + |r.value.keypair.pk| + |r.value.dh|
  {
    if |b| < PEER_LENGTH + 2 then Err
    else
      var peer := PeerFromBytes(b[..PEER_LENGTH]);
      var len := FromBe(b[PEER_LENGTH..PEER_LENGTH + 2]);
      var rest := b[PEER_LENGTH + 2..];
      if peer.Err? || |rest| < len then Err
      else
        var keypair := KeypairFromBytes(rest[..len]);
        if keypair.Err? then Err else Ok(RemotePublic(keypair.value, peer.value, rest[len..]))
  }

  function NormalRemote(r: RemotePublic): RemotePublic
  {
    RemotePublic(Public(r.keypair), NormalPeer(r.peer), r.dh)
  }

  lemma RemoteRoundTrip(r: RemotePublic)
    requires |r.keypair.pk| == PkLen(r.keypair.key)
    ensures RemoteFromBytes(RemoteToBytes(r)) == Ok(NormalRemote(r))
    ensures NormalRemote(r) == RemotePublic(Keypair(r.keypair.key, [], r.keypair.pk), NormalPeer(r.peer), r.dh)
  {
    var b, k := RemoteToBytes(r), KeypairToBytes(r.keypair);
    assert b == PeerToBytes(r.peer) + ToBe(|k|, 2) + (k + r.dh);
    Parts(PeerToBytes(r.peer), ToBe(|k|, 2), k + r.dh);
    Parts(k, r.dh, []);
    assert k + r.dh + [] == k + r.dh;
    Widths();
    BeRoundTrip(|k|, 2);
    assert b[PEER_LENGTH + 2..] == k + r.dh;
    PeerRoundTrip(r.peer);
    KeypairRoundTrip(r.keypair);
  }

  // ---------------------------------------------------------------- peer lists

  function PeersToBytes(ps: seq<Peer>): (b: seq<byte>)
    ensures |b| == PEER_LENGTH * |ps|
  {
    if ps == [] then [] else PeersToBytes(ps[..|ps| - 1]) + PeerToBytes(ps[|ps| - 1])
  }

  // The first `n` peers of a run of 52-byte records.
  function PeersFromBytes(b: seq<byte>, n: nat): (r: Result<seq<Peer>>)
    requires n * PEER_LENGTH <= |b|
    ensures r.Ok? ==> |r.value| == n
  {
    if n == 0 then Ok([])
    else
      var init := PeersFromBytes(b, n - 1);
      var last := PeerFromBytes(b[(n - 1) * PEER_LENGTH..n * PEER_LENGTH]);
      if init.Err? || last.Err? then Err else Ok(init.value + [last.value])
  }

  function DhtToBytes(ps: seq<Peer>): seq<byte>
  {
    ToLe(|ps|, 4) + PeersToBytes(ps)
  }

  function DhtFromBytes(b: seq<byte>): (r: Result<seq<Peer>>)
    ensures r.Ok? ==> |r.value| < 0x1_0000_0000
  {
    if |b| < 4 then Err
    else
      var len := FromLe(b[..4]);
      var raw := b[4..];
      LeBounded(b[..4]);
      Widths();
      if |raw| < len * PEER_LENGTH then Err else PeersFromBytes(raw, len)
  }

  function NormalPeers(ps: seq<Peer>): (r: seq<Peer>)
    ensures |r| == |ps|
  {
    if ps == [] then [] else NormalPeers(ps[..|ps| - 1]) + [NormalPeer(ps[|ps| - 1])]
  }

  lemma SliceOfPrefix(a: seq<byte>, b: seq<byte>, i: nat, j: nat)
    requires i <= j <= |a|
    ensures (a + b)[i..j] == a[i..j]
  {
  }

  lemma {:induction false} PeersPrefix(a: seq<byte>, b: seq<byte>, n: nat)
    requires n * PEER_LENGTH <= |a|
    ensures PeersFromBytes(a + b, n) == PeersFromBytes(a, n)
  {
    if n == 0 {
    } else {
      PeersPrefix(a, b, n - 1);
      SliceOfPrefix(a, b, (n - 1) * PEER_LENGTH, n * PEER_LENGTH);
    }
  }

  // One more record at the end of a run of records.
  lemma PeersSnoc(head: seq<byte>, last: seq<byte>, n: nat)
    requires |head| == n * PEER_LENGTH && |last| == PEER_LENGTH
    ensures |head + last| == (n + 1) * PEER_LENGTH
    ensures var init, p := PeersFromBytes(head, n), PeerFromBytes(last);
            PeersFromBytes(head + last, n + 1) == if init.Err? || p.Err? then Err else Ok(init.value + [p.value])
  {
    PeersPrefix(head, last, n);
    assert (head + last)[n * PEER_LENGTH..(n + 1) * PEER_LENGTH] == last;
  }

  lemma {:induction false} PeersRoundTrip(ps: seq<Peer>)
    ensures PeersFromBytes(PeersToBytes(ps), |ps|) == Ok(NormalPeers(ps))
  {
    if ps == [] {
    } else {
      var n := |ps| - 1;
      PeersRoundTrip(ps[..n]);
      PeerRoundTrip(ps[n]);
      PeersSnoc(PeersToBytes(ps[..n]), PeerToBytes(ps[n]), n);
    }
  }

  lemma {:induction false} NormalPeersAt(ps: seq<Peer>, i: nat)
    requires i < |ps|
    ensures NormalPeers(ps)[i] == NormalPeer(ps[i])
  {
    if i == |ps| - 1 {
    } else {
      NormalPeersAt(ps[..|ps| - 1], i);
    }
  }

  lemma DhtRoundTrip(ps: seq<Peer>)
    requires |ps| < 0x1_0000_0000
    ensures DhtFromBytes(DhtToBytes(ps)) == Ok(NormalPeers(ps))
    ensures |NormalPeers(ps)| == |ps| && forall i :: 0 <= i < |ps| ==> NormalPeers(ps)[i] == NormalPeer(ps[i])
  {
    forall i | 0 <= i < |ps| ensures NormalPeers(ps)[i] == NormalPeer(ps[i]) {
      NormalPeersAt(ps, i);
    }
    var b := DhtToBytes(ps);
    assert b[..4] == ToLe(|ps|, 4) && b[4..] == PeersToBytes(ps);
    Widths();
    LeRoundTrip(|ps|, 4);
    PeersRoundTrip(ps);
  }

  // `DHT::to_bytes` and `DHT::from_bytes` as loops.
  method ComputeDhtToBytes(ps: seq<Peer>) returns (bytes: seq<byte>)
    ensures bytes == DhtToBytes(ps)
  {
    bytes := ToLe(|ps|, 4);
    for i := 0 to |ps|
      invariant bytes == ToLe(|ps|, 4) + PeersToBytes(ps[..i])
    {
      assert ps[..i + 1][..i] == ps[..i];
      bytes := bytes + PeerToBytes(ps[i]);
    }
    assert ps[..|ps|] == ps;
  }

  method ComputeDhtFromBytes(bytes: seq<byte>) returns (r: Result<seq<Peer>>)
    ensures r == DhtFromBytes(bytes)
  {
    if |bytes| < 4 {
      return Err;
    }
    var len := FromLe(bytes[..4]);
    var raw := bytes[4..];
    if |raw| < len * PEER_LENGTH {
      return Err;
    }
    var peers := [];
    for i := 0 to len
      invariant PeersFromBytes(raw, i) == Ok(peers)
    {
      var p := PeerFromBytes(raw[i * PEER_LENGTH..(i + 1) * PEER_LENGTH]);
      if p.Err? {
        FirstBadPeer(raw, i, len);
        return Err;
      }
      peers := peers + [p.value];
    }
    r := Ok(peers);
  }

  lemma {:induction false} FirstBadPeer(raw: seq<byte>, i: nat, n: nat)
    requires i < n && n * PEER_LENGTH <= |raw|
    requires PeerFromBytes(raw[i * PEER_LENGTH..(i + 1) * PEER_LENGTH]).Err?
    ensures PeersFromBytes(raw, n).Err?
  {
    if i + 1 == n {
    } else {
      FirstBadPeer(raw, i, n - 1);
    }
  }

  // ---------------------------------------------------------------- endpoint messages

  function HoleToByte(h: Hole): byte
  {
    match h
    case Help => 0
    case StunOne => 1
    case StunTwo => 2
  }

  function HoleFromByte(b: byte): Result<Hole>
  {
    if b == 0 then Ok(Help) else if b == 1 then Ok(StunOne) else if b == 2 then Ok(StunTwo) else Err
  }

  function Tag(m: EndpointMessage): byte
  {
    match m
    case Close => 0
    case Handshake(_) => 1
    case DHT(_) => 2
    case HoleMsg(_) => 3
    case HoleConnect => 4
    case Data(_) => 5
    case RelayHandshake(_, _) => 6
    case RelayData(_, _, _) => 7
  }

  function Payload(m: EndpointMessage): seq<byte>
  {
    match m
    case Close => []
    case Handshake(r) => ToBe(|RemoteToBytes(r)|, 4) + RemoteToBytes(r)
    case DHT(ps) => DhtToBytes(ps)
    case HoleMsg(h) => [HoleToByte(h)]
    case HoleConnect => []
    case Data(d) => d
    case RelayHandshake(r, to) => ToBe(|RemoteToBytes(r)|, 4) + RemoteToBytes(r) + to
    case RelayData(from, to, d) => from + to + d
  }

  function Encode(m: EndpointMessage): (b: seq<byte>)
    ensures 1 <= |b|
  {
    [Tag(m)] + Payload(m)
  }

  // Total: no byte string makes the decoder read out of range.
  function Decode(b: seq<byte>): Result<EndpointMessage>
  {
    if |b| < 1 then Err
    else DecodeBody(b[0], b[1..])
  }

  function DecodeBody(t: byte, b: seq<byte>): Result<EndpointMessage>
  {
    if t == 0 then Ok(Close)
    else if t == 1 then
      DecodeHandshake(b)
    else if t == 2 then
      var r := DhtFromBytes(b);
      if r.Err? then Err else Ok(DHT(r.value))
    else if t == 3 then
      if |b| != 1 then Err
      else
        var h := HoleFromByte(b[0]);
        if h.Err? then Err else Ok(HoleMsg(h.value))
    else if t == 4 then Ok(HoleConnect)
    else if t == 5 then Ok(Data(b))
    else if t == 6 then
      DecodeRelayHandshake(b)
    else if t == 7 then
      if |b| < PEER_ID_LENGTH * 2 then Err
      else Ok(RelayData(b[..PEER_ID_LENGTH], b[PEER_ID_LENGTH..PEER_ID_LENGTH * 2], b[PEER_ID_LENGTH * 2..]))
    else Err
  }

  // A record behind its 32-bit length, and what follows it.
  function TakeSized(b: seq<byte>): Result<(seq<byte>, seq<byte>)>
  {
    if |b| < 4 then Err
    else
      var len, rest := FromBe(b[..4]), b[4..];
      if |rest| < len then Err else Ok((rest[..len], rest[len..]))
  }

  function DecodeHandshake(b: seq<byte>): Result<EndpointMessage>
  {
    var x := TakeSized(b);
    if x.Err? then Err
    else
      var r := RemoteFromBytes(x.value.0);
      if r.Err? then Err else Ok(Handshake(r.value))
  }

  function DecodeRelayHandshake(b: seq<byte>): Result<EndpointMessage>
  {
    var x := TakeSized(b);
    if x.Err? || |x.value.1| < PEER_ID_LENGTH then Err
    else
      var r := RemoteFromBytes(x.value.0);
      if r.Err? then Err else Ok(RelayHandshake(r.value, x.value.1[..PEER_ID_LENGTH]))
  }

  lemma SizedParts(head: seq<byte>, body: seq<byte>, tail: seq<byte>)
    requires |head| == 4 && FromBe(head) == |body|
    ensures TakeSized(head + body + tail) == Ok((body, tail))
  {
    var b := head + body + tail;
    assert b[..4] == head && b[4..] == body + tail;
    assert (body + tail)[..|body|] == body && (body + tail)[|body|..] == tail;
  }

  lemma SizedRoundTrip(body: seq<byte>, tail: seq<byte>)
    requires |body| < 0x1_0000_0000
    ensures TakeSized(ToBe(|body|, 4) + body + tail) == Ok((body, tail))
  {
    Widths();
    BeRoundTrip(|body|, 4);
    SizedParts(ToBe(|body|, 4), body, tail);
  }

  // What is taken is always shorter than a 32-bit length can say.
  lemma SizedBounded(b: seq<byte>)
    ensures TakeSized(b).Ok? ==> |TakeSized(b).value.0| < 0x1_0000_0000
  {
    if |b| >= 4 {
      BeBounded(b[..4]);
      Widths();
    }
  }

  // ---------------------------------------------------------------- the round trip

  // What a message becomes when it crosses the wire: secret keys are dropped, sockets
  // are normalised.
  function Normal(m: EndpointMessage): EndpointMessage
  {
    match m
    case Handshake(r) => Handshake(NormalRemote(r))
    case DHT(ps) => DHT(NormalPeers(ps))
    case RelayHandshake(r, to) => RelayHandshake(NormalRemote(r), to)
    case _ => m
  }

  predicate FitsRemote(r: RemotePublic)
  {
    |r.keypair.pk| == PkLen(r.keypair.key) && |RemoteToBytes(r)| < 0x1_0000_0000
  }

  // The public key has the length its type says, and lengths fit their 32-bit fields.
  predicate WellFormed(m: EndpointMessage)
  {
    match m
    case Handshake(r) => FitsRemote(r)
    case DHT(ps) => |ps| < 0x1_0000_0000
    case RelayHandshake(r, _) => FitsRemote(r)
    case _ => true
  }

  lemma {:induction false} NormalPeersTwice(ps: seq<Peer>)
    ensures NormalPeers(NormalPeers(ps)) == NormalPeers(ps)
  {
    if ps == [] {
    } else {
      var n := |ps| - 1;
      NormalPeersTwice(ps[..n]);
      PeerRoundTrip(ps[n]);
      assert NormalPeers(ps)[..n] == NormalPeers(ps[..n]);
    }
  }

  // Normalising is done once and for all, and keeps a message well-formed.
  lemma NormalTwice(m: EndpointMessage)
    ensures Normal(Normal(m)) == Normal(m)
    ensures WellFormed(Normal(m)) <==> WellFormed(m)
  {
    match m
    case Handshake(r) => PeerRoundTrip(r.peer);
    case DHT(ps) => NormalPeersTwice(ps);
    case RelayHandshake(r, _) => PeerRoundTrip(r.peer);
    case _ =>
  }

  lemma DecodeTagged(m: EndpointMessage)
    ensures Decode(Encode(m)) == DecodeBody(Tag(m), Payload(m))
  {
    assert ([Tag(m)] + Payload(m))[1..] == Payload(m);
  }

  lemma HandshakeRoundTrip(r: RemotePublic)
    requires FitsRemote(r)
    ensures DecodeHandshake(Payload(Handshake(r))) == Ok(Handshake(NormalRemote(r)))
  {
    var body := RemoteToBytes(r);
    assert ToBe(|body|, 4) + body + [] == ToBe(|body|, 4) + body;
    SizedRoundTrip(body, []);
    RemoteRoundTrip(r);
  }

  lemma RelayHandshakeRoundTrip(r: RemotePublic, to: PeerId)
    requires FitsRemote(r)
    ensures DecodeRelayHandshake(Payload(RelayHandshake(r, to))) == Ok(RelayHandshake(NormalRemote(r), to))
  {
    SizedRoundTrip(RemoteToBytes(r), to);
    RemoteRoundTrip(r);
    assert to[..PEER_ID_LENGTH] == to;
  }

  lemma HandshakeExact(r: RemotePublic)
    ensures DecodeHandshake(Payload(Handshake(r))) == Ok(Handshake(NormalRemote(r))) <==> FitsRemote(r)
  {
    if FitsRemote(r) {
      HandshakeRoundTrip(r);
    } else {
      SizedBounded(Payload(Handshake(r)));
    }
  }

  lemma RelayHandshakeExact(r: RemotePublic, to: PeerId)
    ensures DecodeRelayHandshake(Payload(RelayHandshake(r, to))) == Ok(RelayHandshake(NormalRemote(r), to)) <==> FitsRemote(r)
  {
    if FitsRemote(r) {
      RelayHandshakeRoundTrip(r, to);
    } else {
      SizedBounded(Payload(RelayHandshake(r, to)));
    }
  }

  lemma RelayDataRoundTrip(from: PeerId, to: PeerId, d: seq<byte>)
    ensures DecodeBody(7, from + to + d) == Ok(RelayData(from, to, d))
  {
    Parts(from, to, d);
  }

  lemma DhtExact(ps: seq<Peer>)
    ensures DhtFromBytes(DhtToBytes(ps)) == Ok(NormalPeers(ps)) <==> |ps| < 0x1_0000_0000
  {
    if |ps| < 0x1_0000_0000 {
      DhtRoundTrip(ps);
    }
  }

  // A well-formed message, and no other, decodes from its own bytes to itself up to
  // the normalisation.
  lemma RoundTrip(m: EndpointMessage)
    ensures Decode(Encode(m)) == Ok(Normal(m)) <==> WellFormed(m)
  {
    DecodeTagged(m);
    match m
    case Handshake(r) =>
      HandshakeExact(r);
    case DHT(ps) =>
      DhtExact(ps);
    case RelayHandshake(r, to) =>
      RelayHandshakeExact(r, to);
    case RelayData(from, to, d) =>
      RelayDataRoundTrip(from, to, d);
    case _ =>
  }

  // ---------------------------------------------------------------- layout

  // The record of peer `i` in a list.
  lemma {:induction false} PeersLayout(ps: seq<Peer>, i: nat)
    requires i < |ps|
    ensures PeersToBytes(ps)[52 * i..52 * i + 52] == PeerToBytes(ps[i])
  {
    var init, last := ps[..|ps| - 1], ps[|ps| - 1];
    if i == |ps| - 1 {
      TailOf(PeersToBytes(init), PeerToBytes(last));
    } else {
      PeersLayout(init, i);
      SliceOfPrefix(PeersToBytes(init), PeerToBytes(last), 52 * i, 52 * i + 52);
    }
  }

  lemma TailOf(a: seq<byte>, b: seq<byte>)
    ensures (a + b)[|a|..|a| + |b|] == b
  {
  }

  // A remote public: the peer, the 16-bit length of the keypair, the keypair, the rest.
  lemma RemoteLayout(r: RemotePublic)
    ensures var b, n := RemoteToBytes(r), |r.keypair.pk|;
            && b[..52] == PeerToBytes(r.peer)
            && b[52..54] == ToBe(n + 1, 2)
            && b[54] == (match r.keypair.key case NoKey => 0 case Ed25519 => 1 case Lattice => 2)
            && b[55..55 + n] == r.keypair.pk && b[55 + n..] == r.dh
  {
    var b, n := RemoteToBytes(r), |r.keypair.pk|;
    var tag := [KeyToByte(r.keypair.key)];
    FiveParts(PeerToBytes(r.peer), ToBe(n + 1, 2), tag, r.keypair.pk, r.dh);
  }

  lemma FiveParts(a: seq<byte>, b: seq<byte>, c: seq<byte>, d: seq<byte>, e: seq<byte>)
    requires |c| == 1
    ensures var q, i := a + b + (c + d) + e, |a| + |b|;
            && q[..|a|] == a && q[|a|..i] == b && q[i] == c[0] && q[i + 1..i + 1 + |d|] == d && q[i + 1 + |d|..] == e
  {
  }

  // The bytes of every message: its tag, and where its fields lie.
  lemma Layout(m: EndpointMessage)
    ensures var b := Encode(m);
            match m
            case Close => b == [0]
            case Handshake(r) => b[0] == 1 && b[1..5] == ToBe(|RemoteToBytes(r)|, 4) && b[5..] == RemoteToBytes(r)
            case DHT(ps) => b[0] == 2 && b[1..5] == ToLe(|ps|, 4) && b[5..] == PeersToBytes(ps)
            case HoleMsg(h) => b == [3, match h case Help => 0 case StunOne => 1 case StunTwo => 2]
            case HoleConnect => b == [4]
            case Data(d) => b == [5] + d
            case RelayHandshake(r, to) =>
              b[0] == 6 && b[1..5] == ToBe(|RemoteToBytes(r)|, 4) && b[5..] == RemoteToBytes(r) + to
            case RelayData(from, to, d) => b == [7] + (from + to) + d
  {
    match m
    case Handshake(r) => TagFirst(1, ToBe(|RemoteToBytes(r)|, 4), RemoteToBytes(r));
    case DHT(ps) => TagFirst(2, ToLe(|ps|, 4), PeersToBytes(ps));
    case RelayHandshake(r, to) =>
      TagFirst(6, ToBe(|RemoteToBytes(r)|, 4), RemoteToBytes(r) + to);
      Regrouped(ToBe(|RemoteToBytes(r)|, 4), RemoteToBytes(r), to);
    case RelayData(from, to, d) => Regrouped([7], from + to, d);
    case _ =>
  }

  lemma TagFirst(t: byte, a: seq<byte>, rest: seq<byte>)
    ensures var b := [t] + (a + rest); b[0] == t && b[1..1 + |a|] == a && b[1 + |a|..] == rest
  {
  }

  lemma Regrouped(a: seq<byte>, b: seq<byte>, c: seq<byte>)
    ensures a + b + c == a + (b + c)
  {
  }

  // ---------------------------------------------------------------- what decodes

  lemma {:induction false} DecodedPeersNormal(b: seq<byte>, n: nat)
    requires n * PEER_LENGTH <= |b| && PeersFromBytes(b, n).Ok?
    ensures NormalPeers(PeersFromBytes(b, n).value) == PeersFromBytes(b, n).value
  {
    if n == 0 {
    } else {
      DecodedPeersNormal(b, n - 1);
      DecodedPeerNormal(b[(n - 1) * PEER_LENGTH..n * PEER_LENGTH]);
      var ps := PeersFromBytes(b, n).value;
      assert ps[..|ps| - 1] == PeersFromBytes(b, n - 1).value;
    }
  }

  lemma DecodedRemoteNormal(b: seq<byte>)
    requires RemoteFromBytes(b).Ok? && |b| < 0x1_0000_0000
    ensures var r := RemoteFromBytes(b).value; NormalRemote(r) == r && FitsRemote(r)
  {
    DecodedPeerNormal(b[..PEER_LENGTH]);
  }

  // Whatever bytes decode, decode to a message of the kind their first byte names, one that
  // is well-formed and that the wire would not change any more; and where nothing is
  // normalised the bytes are the message's own.
  lemma DecodedIsNormal(b: seq<byte>)
    requires Decode(b).Ok?
    ensures var m := Decode(b).value;
            && b != [] && b[0] == Encode(m)[0]
            && Normal(m) == m && WellFormed(m) && Decode(Encode(m)) == Ok(m)
            && (m.Data? || m.RelayData? || m.HoleMsg? ==> b == Encode(m))
  {
    var m := Decode(b).value;
    DecodedKind(b);
    DecodedFits(b);
    RoundTrip(m);
  }

  lemma DecodedKind(b: seq<byte>)
    requires Decode(b).Ok?
    ensures var m := Decode(b).value;
            && b != [] && b[0] == Encode(m)[0]
            && (m.Data? || m.RelayData? || m.HoleMsg? ==> b == Encode(m))
  {
    var m, rest := Decode(b).value, b[1..];
    assert b == [b[0]] + rest;
    if m.RelayData? {
      assert rest == rest[..32] + rest[32..64] + rest[64..];
    }
  }

  lemma DecodedFits(b: seq<byte>)
    requires Decode(b).Ok?
    ensures var m := Decode(b).value; Normal(m) == m && WellFormed(m)
  {
    var m, rest := Decode(b).value, b[1..];
    if m.Handshake? || m.RelayHandshake? {
      SizedBounded(rest);
      DecodedRemoteNormal(TakeSized(rest).value.0);
    } else if m.DHT? {
      DecodedPeersNormal(rest[4..], FromLe(rest[..4]));
    }
  }

  // ---------------------------------------------------------------- the source's own steps

  // `EndpointMessage::to_bytes`: a tag byte, then the fields appended one by one.
  method ToBytes(m: EndpointMessage) returns (bytes: seq<byte>)
    ensures bytes == Encode(m)
  {
    match m
    case Close =>
      bytes := [0];
    case Handshake(r) =>
      bytes := [1];
      var peerBytes := RemoteToBytes(r);
      bytes := bytes + ToBe(|peerBytes|, 4);
      bytes := bytes + peerBytes;
      assert bytes == [1] + (ToBe(|peerBytes|, 4) + peerBytes);
    case DHT(ps) =>
      bytes := [2];
      var list := ComputeDhtToBytes(ps);
      bytes := bytes + list;
    case HoleMsg(h) =>
      bytes := [3];
      bytes := bytes + [HoleToByte(h)];
    case HoleConnect =>
      bytes := [4];
    case Data(d) =>
      bytes := [5];
      bytes := bytes + d;
    case RelayHandshake(r, to) =>
      bytes := [6];
      var peerBytes := RemoteToBytes(r);
      bytes := bytes + ToBe(|peerBytes|, 4);
      bytes := bytes + peerBytes;
      bytes := bytes + to;
      assert bytes == [6] + (ToBe(|peerBytes|, 4) + peerBytes + to);
    case RelayData(from, to, d) =>
      bytes := [7];
      bytes := bytes + from;
      bytes := bytes + to;
      bytes := bytes + d;
      assert bytes == [7] + (from + to + d);
  }

  // `EndpointMessage::from_bytes`: the fields drained off the front one by one.
  method FromBytes(input: seq<byte>) returns (r: Result<EndpointMessage>)
    ensures r == Decode(input)
  {
    var bytes := input;
    if |bytes| < 1 {
      return Err;
    }
    var t := bytes[0];
    bytes := bytes[1..];
    if t == 0 {
      return Ok(Close);
    } else if t == 1 {
      if |bytes| < 4 {
        return Err;
      }
      var peerLen := FromBe(bytes[..4]);
      bytes := bytes[4..];
      if |bytes| < peerLen {
        return Err;
      }
      var peer := RemoteFromBytes(bytes[..peerLen]);
      return if peer.Err? then Err else Ok(Handshake(peer.value));
    } else if t == 2 {
      var dht := ComputeDhtFromBytes(bytes);
      return if dht.Err? then Err else Ok(DHT(dht.value));
    } else if t == 3 {
      if |bytes| != 1 {
        return Err;
      }
      var hole := HoleFromByte(bytes[0]);
      return if hole.Err? then Err else Ok(HoleMsg(hole.value));
    } else if t == 4 {
      return Ok(HoleConnect);
    } else if t == 5 {
      return Ok(Data(bytes));
    } else if t == 6 {
      if |bytes| < 4 {
        return Err;
      }
      var peerLen := FromBe(bytes[..4]);
      bytes := bytes[4..];
      if |bytes| < peerLen + PEER_ID_LENGTH {
        return Err;
      }
      var peer := RemoteFromBytes(bytes[..peerLen]);
      if peer.Err? {
        return Err;
      }
      bytes := bytes[peerLen..];
      var to: PeerId := bytes[..PEER_ID_LENGTH];
      return Ok(RelayHandshake(peer.value, to));
    } else if t == 7 {
      if |bytes| < PEER_ID_LENGTH * 2 {
        return Err;
      }
      return Ok(RelayData(bytes[..PEER_ID_LENGTH], bytes[PEER_ID_LENGTH..PEER_ID_LENGTH * 2], bytes[PEER_ID_LENGTH * 2..]));
    }
    r := Err;
  }
}
