/**
 * The cryptographic primitives behind `crypto_wrapper.c`, as a record of functions about
 * which nothing is known but the laws below.
 */
module Crypto {
  import opened Common

  type Digest = b: Bytes | |b| == 32 witness Zeros(32)
  type Signature = b: Bytes | |b| == 64 witness Zeros(64)

  datatype EcdhAlg = P256 | X25519
  datatype SignAlg = ES256 | EdDSA

  datatype Option<+T> = None | Some(value: T)

  datatype Primitives = Primitives(
    hash: Bytes -> Digest,
    hmac: (Bytes, Bytes) -> Digest,
    /** key, nonce, associated data, plaintext, tag length */
    seal: (Bytes, Bytes, Bytes, Bytes, nat) -> Bytes,
    /** key, nonce, associated data, ciphertext with tag, tag length */
    open: (Bytes, Bytes, Bytes, Bytes, nat) -> Option<Bytes>,
    /** secret key, public key; None when the library refuses a key */
    dh: (EcdhAlg, Bytes, Bytes) -> Option<Digest>,
    dhPublic: (EcdhAlg, Bytes) -> Bytes,
    /** secret key, public key, message */
    sign: (SignAlg, Bytes, Bytes, Bytes) -> Signature,
    /** public key, message, signature */
    verify: (SignAlg, Bytes, Bytes, Bytes) -> bool,
    signPublic: (SignAlg, Bytes) -> Bytes)
  {
    /** Decryption inverts encryption under equal key, nonce and associated data. */
    ghost predicate AeadLaw() {
      forall k, n, a, p, t: nat :: open(k, n, a, seal(k, n, a, p, t), t) == Some(p)
    }

    ghost predicate SealLen() {
      forall k, n, a, p, t: nat :: |seal(k, n, a, p, t)| == |p| + t
    }

    ghost predicate DhLaw() {
      forall alg, x, y :: dh(alg, x, dhPublic(alg, y)).Some? && dh(alg, x, dhPublic(alg, y)) == dh(alg, y, dhPublic(alg, x))
    }

    ghost predicate SignLaw() {
      forall alg, sk, m :: verify(alg, signPublic(alg, sk), m, sign(alg, sk, signPublic(alg, sk), m))
    }

    ghost predicate Laws() {
      AeadLaw() && SealLen() && DhLaw() && SignLaw()
    }

    /**
     * `pk` serves as the public key of `sk`.  A compressed point with the wrong sign does too,
     * because the shared secret is an x-coordinate.
     */
    ghost predicate PublicOf(alg: EcdhAlg, sk: Bytes, pk: Bytes) {
      forall x :: dh(alg, x, pk) == dh(alg, sk, dhPublic(alg, x))
    }
  }

  /** Both sides compute the same shared secret. */
  lemma {:induction false} DhAgrees(c: Primitives, alg: EcdhAlg, x: Bytes, gX: Bytes, y: Bytes, gY: Bytes)
    requires c.DhLaw() && c.PublicOf(alg, x, gX) && c.PublicOf(alg, y, gY)
    ensures c.dh(alg, x, gY).Some? && c.dh(alg, x, gY) == c.dh(alg, y, gX)
  {
  }

  /** Public keys of the sizes that the library stores. */
  ghost predicate UsualKeys(c: Primitives) {
    && (forall sk :: |c.dhPublic(P256, sk)| == 33 && |c.dhPublic(X25519, sk)| == 32)
    && (forall alg, sk :: |c.signPublic(alg, sk)| <= 65)
  }

  /** The laws have a model with keys of the usual sizes, so assuming them assumes nothing contradictory. */
  lemma {:induction false} LawsAreConsistent()
    ensures exists c: Primitives :: c.Laws() && UsualKeys(c)
  {
    var c := Primitives(
      m => Zeros(32), (k, m) => Zeros(32),
      (k, n, a, p, t) => p + Zeros(t),
      (k, n, a, c, t) => if |c| < t then None else Some(c[..|c| - t]),
      (alg, sk, pk) => Some(Zeros(32)), (alg, sk) => Zeros(if alg == P256 then 33 else 32),
      (alg, sk, pk, m) => Zeros(64), (alg, pk, m, s) => true, (alg, sk) => []);
    forall k: Bytes, n: Bytes, a: Bytes, p: Bytes, t: nat
      ensures c.open(k, n, a, c.seal(k, n, a, p, t), t) == Some(p)
    {
      assert (p + Zeros(t))[..|p|] == p;
    }
    assert c.Laws() && UsualKeys(c);
  }
}
