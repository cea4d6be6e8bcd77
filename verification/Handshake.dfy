/**
 The handshake as it travels: in `Handshake` messages over a direct connection, or in
 `RelayHandshake` messages over a chain of relays (src/session.rs:795-861).
 */
module Handshake {
  import opened Peers
  import opened Wire
  import opened Relay
  import opened Keys

  // What an end sends of itself: `generate_remote` and `complete_remote`.
  function Introduce(k: Keypair, p: Peer, s: Session): RemotePublic
  {
    RemotePublic(Public(k), p, OutBytes(s))
  }

  // An end completes on what it received.
  function CompleteOn(c: Crypto, s: Session, r: RemotePublic): Session
  {
    Completed(c, s, r.keypair.pk, r.dh)
  }

  lemma IntroductionFits(c: Crypto, k: Keypair, p: Peer, s: Session)
    requires c.Laws() && c.Matching(k) && |s.pk| == DH_PK_LEN && |s.sign| == SIGN_LEN && |s.nonce| == NONCE_LEN
    ensures FitsRemote(Introduce(k, p, s))
  {
  }

  // Over a direct connection: both messages survive the wire, and the ends agree.
  lemma AgreeOverWire(c: Crypto, ka: Keypair, pa: Peer, a: Session, kb: Keypair, pb: Peer, b: Session)
    requires c.Laws() && c.Matching(ka) && c.Matching(kb) && Half(c, ka, a) && Half(c, kb, b)
    ensures var there := Decode(Encode(Handshake(Introduce(ka, pa, a))));
            && there.Ok? && there.value.Handshake?
            && var b' := CompleteOn(c, b, there.value.remote);
               var back := Decode(Encode(Handshake(Introduce(kb, pb, b'))));
               && back.Ok? && back.value.Handshake?
               && Agree(c, CompleteOn(c, a, back.value.remote), b')
  {
    HandshakeAgrees(c, ka, a, kb, b);
    IntroductionFits(c, ka, pa, a);
    RoundTrip(Handshake(Introduce(ka, pa, a)));
    var b' := Completed(c, b, ka.pk, OutBytes(a));
    IntroductionFits(c, kb, pb, b');
    RoundTrip(Handshake(Introduce(kb, pb, b')));
  }

  // Over any chain of relays there, and any chain back, that let the messages through.
  lemma AgreeOverRelays(c: Crypto, ka: Keypair, pa: Peer, a: Session, kb: Keypair, pb: Peer, b: Session,
                        there: seq<Hop>, back: seq<Hop>)
    requires c.Laws() && c.Matching(ka) && c.Matching(kb) && Half(c, ka, a) && Half(c, kb, b)
    ensures var asked := Travel(RelayHandshake(Introduce(ka, pa, a), pb.id), there);
            asked.Some? ==>
              && asked.value.RelayHandshake?
              && var b' := CompleteOn(c, b, asked.value.from);
                 var answered := Travel(RelayHandshake(Introduce(kb, pb, b'), pa.id), back);
                 answered.Some? ==> answered.value.RelayHandshake? && Agree(c, CompleteOn(c, a, answered.value.from), b')
  {
    HandshakeAgrees(c, ka, a, kb, b);
    IntroductionFits(c, ka, pa, a);
    TravelKeeps(RelayHandshake(Introduce(ka, pa, a), pb.id), there);
    var b' := Completed(c, b, ka.pk, OutBytes(a));
    IntroductionFits(c, kb, pb, b');
    TravelKeeps(RelayHandshake(Introduce(kb, pb, b'), pa.id), back);
  }
}
