/**
 The two-message handshake: HS1 carries the client's ephemeral key and nonce, HS2 the
 daemon's nonce and a key-confirmation MAC.  Randomness is a parameter.
 */
module Handshake {
  import opened Wrappers
  import opened SymbolicCrypto
  import opened RecordLayer

  /** The relay-visible handshake payload; a MAC that nobody computed is `None`. */
  datatype HandshakeMsg = HandshakeMsg(role: string, ephPub: Octets, nonce: Octets, mac: Option<Mac>)

  datatype Derived = Derived(kC2D: Key, kD2C: Key, prefixC2D: Key, prefixD2C: Key,
                             confirmMac: Mac, transcript: Digest)

  const TRANSCRIPT_PREFIX: string := "openscope-reflect/v1\0"

  function Transcript(rendezvous: string, daemonPub: Octets, clientPub: Octets,
                      nC: Octets, nD: Octets, secret: Octets): Octets {
    StringOctets(TRANSCRIPT_PREFIX) + StringOctets(rendezvous) + daemonPub + clientPub + nC + nD + secret
  }

  function DeriveKeys(z: Shared, rendezvous: string, daemonPub: Octets, clientPub: Octets,
                      nC: Octets, nD: Octets, secret: Octets): Derived {
    var prk := Extract(z, nC + nD);
    var th := Sha256(Transcript(rendezvous, daemonPub, clientPub, nC, nD, secret));
    Derived(Expand(prk, KeyC2D, th), Expand(prk, KeyD2C, th),
            Expand(prk, NonceC2D, th), Expand(prk, NonceD2C, th),
            Hmac(Expand(prk, Confirm, th), "daemon"), th)
  }

  /** The channel end a role gets: it sends in its own direction and receives in the other. */
  function NewEnds(d: Derived, role: Direction): Ends {
    match role
    case DaemonToClient =>
      Ends(d.kD2C, d.kC2D, d.prefixD2C, d.prefixC2D, DaemonToClient, ClientToDaemon, d.transcript)
    case ClientToDaemon =>
      Ends(d.kC2D, d.kD2C, d.prefixC2D, d.prefixD2C, ClientToDaemon, DaemonToClient, d.transcript)
  }

  /** What the client keeps between sending HS1 and receiving HS2. */
  datatype ClientPending = ClientPending(eph: SecretKey, nonce: Octets, daemonPub: Octets,
                                         rendezvous: string, secret: Octets)

  function HandshakeStart(p: ClientPending): HandshakeMsg {
    HandshakeMsg("client", PublicOctets(p.eph), p.nonce, None)
  }

  function Finish(p: ClientPending, hs2: HandshakeMsg): Option<Ends> {
    if hs2.role != "daemon" || |hs2.nonce| == 0 then None
    else
      var peer := ParsePublic(p.daemonPub);
      if peer.None? then None
      else
        var d := DeriveKeys(Dh({p.eph, peer.value}), p.rendezvous, p.daemonPub,
                            PublicOctets(p.eph), p.nonce, hs2.nonce, p.secret);
        if hs2.mac != Some(d.confirmMac) then None
        else Some(NewEnds(d, ClientToDaemon))
  }

  function DaemonHandshake(eph: SecretKey, rendezvous: string, secret: Octets,
                           hs1: HandshakeMsg, nD: Octets): Option<(Ends, HandshakeMsg)> {
    if hs1.role != "client" || |hs1.ephPub| == 0 || |hs1.nonce| == 0 then None
    else
      var peer := ParsePublic(hs1.ephPub);
      if peer.None? then None
      else
        var d := DeriveKeys(Dh({eph, peer.value}), rendezvous, PublicOctets(eph),
                            hs1.ephPub, hs1.nonce, nD, secret);
        Some((NewEnds(d, DaemonToClient), HandshakeMsg("daemon", [], nD, Some(d.confirmMac))))
  }

  /** Where the fields of a transcript lie. */
  lemma TranscriptFields(r: string, d: SecretKey, e: SecretKey, rest: Octets, t: Octets)
    requires t == StringOctets(TRANSCRIPT_PREFIX) + StringOctets(r) + PublicOctets(d) + PublicOctets(e) + rest
    ensures var p := |TRANSCRIPT_PREFIX| + |r|;
            && |t| == p + 2 * KEY_LENGTH + |rest|
            && t[p] == Part(PublicKey(d), 0) && t[p + KEY_LENGTH] == Part(PublicKey(e), 0)
            && t[p + 2 * KEY_LENGTH..] == rest
    ensures forall x :: |TRANSCRIPT_PREFIX| <= x < |TRANSCRIPT_PREFIX| + |r| ==> t[x] == Raw(r[x - |TRANSCRIPT_PREFIX|] as nat)
  {
  }

  /** The rendezvous id is plain text, so a transcript determines where the daemon key starts. */
  lemma TranscriptKeepsFields(r1: string, r2: string, d1: SecretKey, d2: SecretKey,
                              e1: SecretKey, e2: SecretKey, rest1: Octets, rest2: Octets, t: Octets)
    requires t == StringOctets(TRANSCRIPT_PREFIX) + StringOctets(r1) + PublicOctets(d1) + PublicOctets(e1) + rest1
    requires t == StringOctets(TRANSCRIPT_PREFIX) + StringOctets(r2) + PublicOctets(d2) + PublicOctets(e2) + rest2
    ensures r1 == r2 && d1 == d2 && e1 == e2 && rest1 == rest2
  {
    TranscriptFields(r1, d1, e1, rest1, t);
    TranscriptFields(r2, d2, e2, rest2, t);
    SameText(r1, r2, t, |TRANSCRIPT_PREFIX|);
  }

  /** Plain text followed by something else ends in one place only. */
  lemma SameText(r1: string, r2: string, t: Octets, p: nat)
    requires p + |r1| < |t| && p + |r2| < |t| && t[p + |r1|].Part? && t[p + |r2|].Part?
    requires forall x :: p <= x < p + |r1| ==> t[x] == Raw(r1[x - p] as nat)
    requires forall x :: p <= x < p + |r2| ==> t[x] == Raw(r2[x - p] as nat)
    ensures r1 == r2
  {
    assert |r1| == |r2|;
    forall i | 0 <= i < |r1| ensures r1[i] == r2[i] {
      var x := p + i;
      assert t[x] == Raw(r1[x - p] as nat);
    }
  }

  lemma TranscriptDetermines(r1: string, d1: SecretKey, e1: SecretKey, a1: Octets, b1: Octets, s1: Octets,
                             r2: string, d2: SecretKey, e2: SecretKey, a2: Octets, b2: Octets, s2: Octets)
    requires Transcript(r1, PublicOctets(d1), PublicOctets(e1), a1, b1, s1)
          == Transcript(r2, PublicOctets(d2), PublicOctets(e2), a2, b2, s2)
    ensures r1 == r2 && d1 == d2 && e1 == e2 && a1 + b1 + s1 == a2 + b2 + s2
  {
    var h1 := StringOctets(TRANSCRIPT_PREFIX) + StringOctets(r1) + PublicOctets(d1) + PublicOctets(e1);
    var h2 := StringOctets(TRANSCRIPT_PREFIX) + StringOctets(r2) + PublicOctets(d2) + PublicOctets(e2);
    assert h1 + a1 + b1 + s1 == h1 + (a1 + b1 + s1);
    assert h2 + a2 + b2 + s2 == h2 + (a2 + b2 + s2);
    TranscriptKeepsFields(r1, r2, d1, d2, e1, e2, a1 + b1 + s1, a2 + b2 + s2, h1 + (a1 + b1 + s1));
  }

  /**
   Agreement.  Suppose a client's `Finish` accepts some HS2, assembled by the relay as it
   likes, whose MAC is the one a daemon handshake computed.  Then both ran on the same
   rendezvous, the same two ephemeral keys and the same connect secret, and their channel
   ends are mirror images.  The two nonces are agreed one by one exactly when the nonce that
   reached the daemon has the 16 octets the client sent; the daemon only checks that it is
   not empty, and the key schedule binds just the concatenation of the two nonces.
   */
  lemma FinishAgrees(p: ClientPending, hs2: HandshakeMsg,
                     eph: SecretKey, rendezvous: string, secret: Octets, hs1: HandshakeMsg, nD: Octets)
    requires |p.nonce| == 16 && |nD| == 16
    requires Finish(p, hs2).Some?
    requires DaemonHandshake(eph, rendezvous, secret, hs1, nD).Some?
    requires hs2.mac == DaemonHandshake(eph, rendezvous, secret, hs1, nD).value.1.mac
    ensures p.rendezvous == rendezvous && p.secret == secret
    ensures p.daemonPub == PublicOctets(eph) && hs1.ephPub == PublicOctets(p.eph)
    ensures p.nonce + hs2.nonce == hs1.nonce + nD
    ensures p.nonce == hs1.nonce && hs2.nonce == nD <==> |hs1.nonce| == 16
    ensures Mirror(Finish(p, hs2).value, DaemonHandshake(eph, rendezvous, secret, hs1, nD).value.0)
  {
    var dk := ParsePublic(p.daemonPub).value;
    var ek := ParsePublic(hs1.ephPub).value;
    var rest1, rest2 := p.nonce + hs2.nonce + p.secret, hs1.nonce + nD + secret;
    TranscriptDetermines(p.rendezvous, dk, p.eph, p.nonce, hs2.nonce, p.secret,
                         rendezvous, eph, ek, hs1.nonce, nD, secret);
    assert p.nonce + hs2.nonce == hs1.nonce + nD;
    assert p.secret == rest1[|p.nonce + hs2.nonce|..] && secret == rest2[|hs1.nonce + nD|..];
    if |hs1.nonce| == NONCE_LENGTH {
      assert p.nonce == (p.nonce + hs2.nonce)[..NONCE_LENGTH];
      assert hs2.nonce == (p.nonce + hs2.nonce)[NONCE_LENGTH..];
    }
  }

  /** A relay that shortens the nonce in HS1 can leave the two sides with different nonces. */
  lemma ShortenedNonceStillAccepted()
    ensures exists p: ClientPending, hs1: HandshakeMsg, hs2: HandshakeMsg, nD: Octets ::
              && |p.nonce| == 16 && |nD| == 16 && hs1.nonce != p.nonce
              && DaemonHandshake(DaemonKey(0), "r", SecretOctets(0), hs1, nD).Some?
              && hs2.mac == DaemonHandshake(DaemonKey(0), "r", SecretOctets(0), hs1, nD).value.1.mac
              && Finish(p, hs2).Some?
  {
    var zeros := seq(NONCE_LENGTH, i => Raw(0));
    var half := seq(8, i => Raw(0));
    var p := ClientPending(ClientKey(0), zeros, PublicOctets(DaemonKey(0)), "r", SecretOctets(0));
    var hs1 := HandshakeStart(p).(nonce := half);
    var out := DaemonHandshake(DaemonKey(0), "r", SecretOctets(0), hs1, zeros);
    assert ParsePublic(hs1.ephPub) == Some(ClientKey(0));
    var hs2 := HandshakeMsg("daemon", [], half, out.value.1.mac);
    assert ParsePublic(p.daemonPub) == Some(DaemonKey(0));
    assert zeros + half == half + zeros;
    assert Transcript("r", p.daemonPub, hs1.ephPub, zeros, half, p.secret)
        == Transcript("r", p.daemonPub, hs1.ephPub, half, zeros, p.secret);
    assert {ClientKey(0), DaemonKey(0)} == {DaemonKey(0), ClientKey(0)};
    assert hs1.nonce != p.nonce by { assert |hs1.nonce| != |p.nonce|; }
    assert Finish(p, hs2).Some?;
  }

  /** The transcript both ends hash: prefix, rendezvous, daemon key, client key, the two nonces, the secret. */
  function HashInput(rendezvous: string, d: SecretKey, c: SecretKey, nonces: Octets, secret: Octets): Octets {
    StringOctets("openscope-reflect/v1\0") + StringOctets(rendezvous) + PublicOctets(d) + PublicOctets(c) + nonces + secret
  }

  lemma TranscriptIsHashInput(rendezvous: string, d: SecretKey, c: SecretKey, nC: Octets, nD: Octets, secret: Octets)
    ensures Transcript(rendezvous, PublicOctets(d), PublicOctets(c), nC, nD, secret)
            == HashInput(rendezvous, d, c, nC + nD, secret)
  {
    var head := StringOctets(TRANSCRIPT_PREFIX) + StringOctets(rendezvous) + PublicOctets(d) + PublicOctets(c);
    assert head + nC + nD == head + (nC + nD);
  }

  /**
   Which HS2 a client accepts, and the end it then holds: the daemon's role, a nonce that is not
   empty, and the confirmation MAC under a key that both ephemeral keys, both nonces, the
   rendezvous and the connect secret go into.
   */
  lemma FinishExactly(p: ClientPending, hs2: HandshakeMsg, d: SecretKey)
    requires p.daemonPub == PublicOctets(d)
    ensures var prk := Extract(Dh({p.eph, d}), p.nonce + hs2.nonce);
            var th := Sha256(HashInput(p.rendezvous, d, p.eph, p.nonce + hs2.nonce, p.secret));
            && (Finish(p, hs2).Some? <==> hs2.role == "daemon" && hs2.nonce != []
                                          && hs2.mac == Some(Hmac(Expand(prk, Confirm, th), "daemon")))
            && (Finish(p, hs2).Some? ==>
                  Finish(p, hs2).value
                  == Ends(Expand(prk, KeyC2D, th), Expand(prk, KeyD2C, th), Expand(prk, NonceC2D, th), Expand(prk, NonceD2C, th),
                          ClientToDaemon, DaemonToClient, th))
  {
    assert ParsePublic(p.daemonPub) == Some(d);
    TranscriptIsHashInput(p.rendezvous, d, p.eph, p.nonce, hs2.nonce, p.secret);
  }

  /** A client whose invite carries no valid daemon key accepts nothing. */
  lemma FinishNeedsDaemonKey(p: ClientPending, hs2: HandshakeMsg)
    requires forall d :: p.daemonPub != PublicOctets(d)
    ensures Finish(p, hs2).None?
  {
  }

  /** Which HS1 a daemon answers, with the end it then holds and the HS2 it sends. */
  lemma DaemonHandshakeExactly(eph: SecretKey, rendezvous: string, secret: Octets, hs1: HandshakeMsg, nD: Octets)
    ensures var out := DaemonHandshake(eph, rendezvous, secret, hs1, nD);
            && (out.Some? <==> hs1.role == "client" && hs1.nonce != [] && exists c :: hs1.ephPub == PublicOctets(c))
            && forall c :: out.Some? && hs1.ephPub == PublicOctets(c) ==>
                 var prk := Extract(Dh({eph, c}), hs1.nonce + nD);
                 var th := Sha256(HashInput(rendezvous, eph, c, hs1.nonce + nD, secret));
                 out.value == (Ends(Expand(prk, KeyD2C, th), Expand(prk, KeyC2D, th), Expand(prk, NonceD2C, th), Expand(prk, NonceC2D, th),
                                    DaemonToClient, ClientToDaemon, th),
                               HandshakeMsg("daemon", [], nD, Some(Hmac(Expand(prk, Confirm, th), "daemon"))))
  {
    forall c | hs1.ephPub == PublicOctets(c)
      ensures ParsePublic(hs1.ephPub) == Some(c) && |hs1.ephPub| == 32
      ensures Transcript(rendezvous, PublicOctets(eph), PublicOctets(c), hs1.nonce, nD, secret)
              == HashInput(rendezvous, eph, c, hs1.nonce + nD, secret)
    {
      TranscriptIsHashInput(rendezvous, eph, c, hs1.nonce, nD, secret);
    }
  }

  /** With a relay that forwards faithfully, the handshake completes with mirror-image ends. */
  lemma HonestHandshakeCompletes(p: ClientPending, eph: SecretKey, nD: Octets)
    requires |p.nonce| == NONCE_LENGTH && |nD| == NONCE_LENGTH
    requires p.daemonPub == PublicOctets(eph)
    ensures var out := DaemonHandshake(eph, p.rendezvous, p.secret, HandshakeStart(p), nD);
            out.Some? && Finish(p, out.value.1).Some?
            && Mirror(Finish(p, out.value.1).value, out.value.0)
  {
    assert ParsePublic(PublicOctets(p.eph)) == Some(p.eph);
    assert ParsePublic(p.daemonPub) == Some(eph);
    assert {p.eph, eph} == {eph, p.eph};
  }
}
