/**
 Symbolic cryptography for the reflector channel.  X25519, HKDF, HMAC, SHA-256 and
 AES-GCM are free constructors, so they are injective by construction.  Octet strings stay
 real sequences: whether two concatenations can coincide is part of what is proved.
 */
module SymbolicCrypto {
  import opened Wrappers

  /** Every X25519 key pair in the system, named by who generated it and in which instance. */
  datatype SecretKey = DaemonKey(session: nat) | ClientKey(client: nat) | AdversaryKey(n: nat)

  /** Values whose octets cannot be guessed: public keys and 32-byte connect secrets. */
  datatype Source = PublicKey(sk: SecretKey) | ConnectSecret(session: nat)

  /** One octet on the wire: a plain byte, or the `index`-th octet of an unguessable value. */
  datatype Octet = Raw(value: nat) | Part(source: Source, index: nat)

  type Octets = seq<Octet>

  const KEY_LENGTH: nat := 32
  const NONCE_LENGTH: nat := 16
  const SECRET_LENGTH: nat := 32

  function PublicOctets(sk: SecretKey): (r: Octets)
    ensures |r| == 32
    ensures forall i :: 0 <= i < 32 ==> r[i] == Part(PublicKey(sk), i)
  {
    seq(KEY_LENGTH, i requires 0 <= i => Part(PublicKey(sk), i))
  }

  function SecretOctets(session: nat): (r: Octets)
    ensures |r| == 32
    ensures forall i :: 0 <= i < 32 ==> r[i] == Part(ConnectSecret(session), i)
  {
    seq(SECRET_LENGTH, i requires 0 <= i => Part(ConnectSecret(session), i))
  }

  function StringOctets(s: string): (r: Octets)
    ensures |r| == |s|
    ensures forall i :: 0 <= i < |s| ==> r[i] == Raw(s[i] as nat)
  {
    seq(|s|, i requires 0 <= i < |s| => Raw(s[i] as nat))
  }

  /** X25519 public-key parsing: only the 32 octets of some key pair's public half parse. */
  function ParsePublic(b: Octets): (r: Option<SecretKey>)
    ensures forall sk :: r == Some(sk) <==> b == PublicOctets(sk)
  {
    assert forall sk :: b == PublicOctets(sk) ==> |b| == KEY_LENGTH && b[0] == Part(PublicKey(sk), 0);
    if |b| == KEY_LENGTH && b[0].Part? && b[0].source.PublicKey? && b == PublicOctets(b[0].source.sk)
    then Some(b[0].source.sk)
    else None
  }

  /** The Diffie-Hellman shared secret of two key pairs; a set, so the two ends agree. */
  datatype Shared = Dh(ends: set<SecretKey>)

  datatype Digest = Sha256(preimage: Octets)

  datatype Prk = Extract(z: Shared, salt: Octets)

  /** The five labels expanded per handshake: c2d, d2c, nonce-c2d, nonce-d2c and confirm. */
  datatype Purpose = KeyC2D | KeyD2C | NonceC2D | NonceD2C | Confirm

  /** HKDF-Expand under the label followed by the hex transcript hash. */
  datatype Key = Expand(prk: Prk, purpose: Purpose, transcript: Digest)

  datatype Mac = Hmac(key: Key, text: string)

  /** The adversary holds its own key pairs and every connect secret that leaked. */
  predicate KnowsOctets(leaked: set<nat>, b: Octets) {
    forall i | 0 <= i < |b| ::
      b[i].Part? && b[i].source.ConnectSecret? ==> b[i].source.session in leaked
  }

  predicate KnowsShared(z: Shared) {
    exists sk | sk in z.ends :: sk.AdversaryKey?
  }

  /** A derived key is known exactly when its Diffie-Hellman input and its transcript are. */
  predicate KnowsKey(leaked: set<nat>, k: Key) {
    KnowsShared(k.prk.z) && KnowsOctets(leaked, k.transcript.preimage)
  }
}
