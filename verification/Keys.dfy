/**
 Session keys and the handshake that agrees on them (src/keys.rs, src/global.rs:54-84,
 src/server.rs:179-200). The algorithms are parameters; what is used of them is stated
 in `Crypto.Laws`.
 */
module Keys {
  import opened Wrappers
  import opened Bytes
  import opened Wire

  const DH_PK_LEN: nat := 32
  const SIGN_LEN: nat := 64
  const NONCE_LEN: nat := 12

  datatype Crypto = Crypto(
    public: seq<byte> -> seq<byte>,                                  // X25519 public key of a secret
    dh: (seq<byte>, seq<byte>) -> seq<byte>,                         // X25519
    sign: (Keypair, seq<byte>) -> seq<byte>,                         // Ed25519
    verify: (seq<byte>, seq<byte>, seq<byte>) -> bool,               // Ed25519: public key, message, signature
    hash: seq<byte> -> seq<byte>,                                    // blake3
    seal: (seq<byte>, seq<byte>, seq<byte>) -> seq<byte>,            // AES-256-GCM: key, nonce, message
    open: (seq<byte>, seq<byte>, seq<byte>) -> Option<seq<byte>>)
  {
    // Both ends of a Diffie-Hellman exchange compute one value (section 6.1 of RFC
    // 7748), and what was sealed opens under the same key and nonce.
    ghost predicate Laws()
    {
      && (forall a, b :: dh(a, public(b)) == dh(b, public(a)))
      && (forall a :: |public(a)| == DH_PK_LEN)
      && (forall k, m :: |sign(k, m)| == SIGN_LEN)
      && (forall key, nonce, m :: open(key, nonce, seal(key, nonce, m)) == Some(m))
    }

    // The two halves of a signing key belong together.
    ghost predicate Matching(k: Keypair)
    {
      k.key.Ed25519? && |k.pk| == PkLen(k.key) && forall m :: verify(k.pk, m, sign(k, m))
    }
  }

  // The fields of `SessionKey`; `cipher` is the key the cipher was made from.
  datatype Session = Session(key: KeyType, sk: seq<byte>, pk: seq<byte>, sign: seq<byte>,
                             isOk: bool, cipher: seq<byte>, nonce: seq<byte>)

  function SignLen(k: KeyType): nat
  {
    if k.Ed25519? then SIGN_LEN else 0
  }

  function DhPkLen(k: KeyType): nat
  {
    if k.Ed25519? then DH_PK_LEN else 0
  }

  // `KeyType::session_key`, with the random secret and nonce as inputs.
  function Generate(c: Crypto, self: Keypair, secret: seq<byte>, nonce: seq<byte>): Result<Session>
  {
    if self.key.Ed25519? then
      var pk := c.public(secret);
      Ok(Session(self.key, secret, pk, c.sign(self, pk), false, seq(32, _ => 0), nonce))
    else Err
  }

  function OutBytes(s: Session): seq<byte>
  {
    s.pk + s.sign + s.nonce
  }

  // `KeyType::verify`: only Ed25519 keys verify anything.
  function Verify(c: Crypto, k: KeyType, pk: seq<byte>, msg: seq<byte>, sign: seq<byte>): bool
  {
    k.Ed25519? && c.verify(pk, msg, sign)
  }

  // Whether `complete` accepts the other end's bytes.
  function Accepts(c: Crypto, s: Session, remotePk: seq<byte>, remoteDh: seq<byte>): bool
  {
    && PkLen(s.key) == |remotePk|
    && DhPkLen(s.key) + SignLen(s.key) + NONCE_LEN == |remoteDh|
    && Verify(c, s.key, remotePk, remoteDh[..DhPkLen(s.key)], remoteDh[DhPkLen(s.key)..DhPkLen(s.key) + SignLen(s.key)])
  }

  // The session after `complete`: on acceptance the shared key, and the other end's nonce.
  function Completed(c: Crypto, s: Session, remotePk: seq<byte>, remoteDh: seq<byte>): Session
  {
    if !Accepts(c, s, remotePk, remoteDh) then s
    else
      s.(cipher := c.hash(c.dh(s.sk, remoteDh[..DhPkLen(s.key)])),
         nonce := remoteDh[DhPkLen(s.key) + SignLen(s.key)..],
         isOk := true)
  }

  // Exactly these bytes are accepted: of an Ed25519 session, a 32-byte key, and 32 bytes of
  // Diffie-Hellman key, the 64 bytes of its signature under that key, and 12 of nonce.
  lemma AcceptsExactly(c: Crypto, s: Session, pk: seq<byte>, dh: seq<byte>)
    ensures Accepts(c, s, pk, dh) <==> s.key.Ed25519? && |pk| == 32 && |dh| == 108 && c.verify(pk, dh[..32], dh[32..96])
  {
  }

  // Anything else changes nothing, and what is accepted sets the key to the hash of the
  // Diffie-Hellman value and the nonce to the last 12 bytes, and nothing more.
  lemma CompletedExactly(c: Crypto, s: Session, pk: seq<byte>, dh: seq<byte>)
    ensures Completed(c, s, pk, dh) ==
            if s.key.Ed25519? && |pk| == 32 && |dh| == 108 && c.verify(pk, dh[..32], dh[32..96])
            then s.(isOk := true, cipher := c.hash(c.dh(s.sk, dh[..32])), nonce := dh[96..])
            else s
  {
    AcceptsExactly(c, s, pk, dh);
  }

  // The key object of a session, completed in place.
  class SessionKey {
    const key: KeyType
    const sk: seq<byte>
    const pk: seq<byte>
    const sign: seq<byte>
    var isOk: bool
    var cipher: seq<byte>
    var nonce: seq<byte>

    ghost function View(): Session
      reads this
    {
      Session(key, sk, pk, sign, isOk, cipher, nonce)
    }

    constructor (s: Session)
      ensures View() == s
    {
      key, sk, pk, sign := s.key, s.sk, s.pk, s.sign;
      isOk, cipher, nonce := s.isOk, s.cipher, s.nonce;
    }

    method Complete(c: Crypto, remotePk: seq<byte>, remoteDh: seq<byte>) returns (ok: bool)
      modifies this
      ensures ok <==> key.Ed25519? && |remotePk| == 32 && |remoteDh| == 108 && c.verify(remotePk, remoteDh[..32], remoteDh[32..96])
      ensures ok ==> View() == old(View()).(isOk := true, cipher := c.hash(c.dh(sk, remoteDh[..32])), nonce := remoteDh[96..])
      ensures !ok ==> View() == old(View())
      ensures View() == Completed(c, old(View()), remotePk, remoteDh)
    {
      AcceptsExactly(c, View(), remotePk, remoteDh);
      var dhLen := if key.Ed25519? then 32 else 0;
      var signLen := if key.Ed25519? then 64 else 0;
      if PkLen(key) != |remotePk| || dhLen + signLen + 12 != |remoteDh| {
        return false;
      }
      var tmpPk, tmpSignNonce := remoteDh[..dhLen], remoteDh[dhLen..];
      var tmpSign, tmpNonce := tmpSignNonce[..signLen], tmpSignNonce[signLen..];
      assert tmpSign == remoteDh[dhLen..dhLen + signLen] && tmpNonce == remoteDh[dhLen + signLen..];
      if Verify(c, key, remotePk, tmpPk, tmpSign) {
        cipher := c.hash(c.dh(sk, tmpPk));
        nonce := tmpNonce;
        isOk := true;
        ok := true;
      } else {
        ok := false;
      }
    }
  }

  // ---------------------------------------------------------------- agreement

  // Two sessions that read each other.
  ghost predicate Agree(c: Crypto, a: Session, b: Session)
  {
    && a.isOk && b.isOk && a.cipher == b.cipher && a.nonce == b.nonce
    && (forall m :: c.open(b.cipher, b.nonce, c.seal(a.cipher, a.nonce, m)) == Some(m))
    && (forall m :: c.open(a.cipher, a.nonce, c.seal(b.cipher, b.nonce, m)) == Some(m))
  }

  // A session that has generated its half and nothing more.
  ghost predicate Half(c: Crypto, k: Keypair, s: Session)
  {
    exists secret, nonce :: |nonce| == NONCE_LEN && Generate(c, k, secret, nonce) == Ok(s)
  }

  // What an end gives out is 108 bytes: its fresh Diffie-Hellman key, the signature that its
  // own keypair makes of it, and its nonce. Only Ed25519 keypairs can begin.
  lemma OutBytesLayout(c: Crypto, k: Keypair, secret: seq<byte>, nonce: seq<byte>)
    requires c.Laws() && |nonce| == NONCE_LEN
    ensures Generate(c, k, secret, nonce).Ok? <==> k.key.Ed25519?
    ensures k.key.Ed25519? ==>
              var s := Generate(c, k, secret, nonce).value;
              var b := OutBytes(s);
              && |b| == 108 && b[..32] == c.public(secret) && b[32..96] == c.sign(k, c.public(secret)) && b[96..] == nonce
              && s.sk == secret && !s.isOk && s.key == k.key
  {
  }

  // A session accepts the bytes of a matching keypair's session, whatever nonce these
  // carry, and takes over that nonce and the shared key.
  lemma CompletesOn(c: Crypto, self: Keypair, s: Session, k: Keypair, other: Session, nonce: seq<byte>)
    requires c.Laws() && self.key.Ed25519? && Half(c, self, s) && c.Matching(k) && Half(c, k, other)
    requires |nonce| == NONCE_LEN
    ensures Accepts(c, s, k.pk, OutBytes(other.(nonce := nonce)))
    ensures var s' := Completed(c, s, k.pk, OutBytes(other.(nonce := nonce)));
            s' == s.(isOk := true, cipher := c.hash(c.dh(s.sk, other.pk)), nonce := nonce)
  {
    var b := OutBytes(other.(nonce := nonce));
    assert b[..32] == other.pk && b[32..96] == other.sign && b[96..] == nonce;
  }

  lemma SharedSecret(c: Crypto, a: Keypair, x: Session, b: Keypair, y: Session)
    requires c.Laws() && Half(c, a, x) && Half(c, b, y)
    ensures c.dh(x.sk, y.pk) == c.dh(y.sk, x.pk)
  {
    assert x.pk == c.public(x.sk) && y.pk == c.public(y.sk);
  }

  // Initiator and responder: the responder completes on the initiator's bytes, and only
  // then gives out its own, which carry the initiator's nonce; the initiator completes
  // on these. Both accept, and they agree.
  lemma HandshakeAgrees(c: Crypto, ka: Keypair, a: Session, kb: Keypair, b: Session)
    requires c.Laws() && c.Matching(ka) && c.Matching(kb) && Half(c, ka, a) && Half(c, kb, b)
    ensures Accepts(c, b, ka.pk, OutBytes(a))
    ensures var b' := Completed(c, b, ka.pk, OutBytes(a));
            && Accepts(c, a, kb.pk, OutBytes(b'))
            && Agree(c, Completed(c, a, kb.pk, OutBytes(b')), b')
            && b'.nonce == a.nonce && b'.cipher == c.hash(c.dh(b.sk, a.pk))
  {
    CompletesOn(c, kb, b, ka, a, a.nonce);
    var b' := Completed(c, b, ka.pk, OutBytes(a.(nonce := a.nonce)));
    assert a.(nonce := a.nonce) == a;
    CompletesOn(c, ka, a, kb, b, a.nonce);
    assert OutBytes(b') == OutBytes(b.(nonce := a.nonce));
    SharedSecret(c, ka, a, kb, b);
  }

  // Two initiators that complete on each other's first bytes share the key but swap
  // their nonces, so they agree exactly when the two random nonces were the same.
  lemma TwoInitiators(c: Crypto, ka: Keypair, a: Session, kb: Keypair, b: Session)
    requires c.Laws() && c.Matching(ka) && c.Matching(kb) && Half(c, ka, a) && Half(c, kb, b)
    ensures var a', b' := Completed(c, a, kb.pk, OutBytes(b)), Completed(c, b, ka.pk, OutBytes(a));
            && a'.isOk && b'.isOk && a'.cipher == b'.cipher
            && a'.nonce == b.nonce && b'.nonce == a.nonce
            && (Agree(c, a', b') <==> a.nonce == b.nonce)
  {
    CompletesOn(c, kb, b, ka, a, a.nonce);
    CompletesOn(c, ka, a, kb, b, b.nonce);
    assert a.(nonce := a.nonce) == a && b.(nonce := b.nonce) == b;
    SharedSecret(c, ka, a, kb, b);
  }
}
