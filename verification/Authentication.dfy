/**
 * What a party that finishes has checked about the other one, whatever bytes the network
 * delivered, and what each party sends to prove itself, method by method.
 */
module Authentication {
  import opened Common
  import opened Crypto
  import opened Cbor
  import opened Suites
  import opened KeySchedule
  import opened Transcript
  import opened Identity
  import opened SignatureOrMac
  import opened Ciphertext
  import opened Messages
  import opened Handshake

  // ----- methods -----

  /** Methods 2 and 3. */
  predicate InitiatorUsesDh(methodType: int) {
    methodType == 2 || methodType == 3
  }

  /** Methods 1 and 3. */
  predicate ResponderUsesDh(methodType: int) {
    methodType == 1 || methodType == 3
  }

  lemma {:induction false} AuthTypeIs(methodType: int)
    ensures AuthTypeOf(methodType, AuthType(false, false)) ==
            AuthType(InitiatorUsesDh(methodType), ResponderUsesDh(methodType))
  {
  }

  // ----- trusted keys -----

  /** A key that the party trusts for an ID_CRED, and the credential that it stands for. */
  ghost predicate Trusted(trust: Trust, staticDh: bool, idCred: Bytes, cred: Bytes, key: Bytes) {
    || (exists k :: 0 <= k < |trust.local|
          && trust.local[k].idCred == idCred && trust.local[k].cred == cred
          && if staticDh then NormalisedG(trust.local[k].g) == Ok(key) else trust.local[k].pk == key)
    || (exists cert :: ReadIdCred(idCred, 0).Ok? && ReadIdCred(idCred, 0).value.value == X5chain(cert)
          && cred == EncodeBstr(cert) && trust.certifiedKey(cert) == Some(key))
  }

  lemma {:induction false} RetrievedIsTrusted(staticDh: bool, trust: Trust, idCred: Bytes)
    requires RetrieveCred(staticDh, trust, idCred).Ok?
    ensures var peer := RetrieveCred(staticDh, trust, idCred).value;
      Trusted(trust, staticDh, idCred, peer.cred, if staticDh then peer.g else peer.pk)
  {
    hide ReadIdCred, NormalisedG, EncodeBstr;
    var i := ReadIdCred(idCred, 0).value.value;
    if !i.X5chain? {
      assert trust.local[FirstMatch(trust.local, idCred)].idCred == idCred;
    }
  }

  // ----- keys -----

  /** PRK_2e is the HMAC of G_XY under 32 zeros. */
  ghost predicate IsPrk2e(c: Primitives, alg: EcdhAlg, sk: Bytes, pk: Bytes, prk: Digest) {
    c.dh(alg, sk, pk).Some? && prk == c.hmac(Zeros(32), c.dh(alg, sk, pk).value)
  }

  /** The next PRK: the same without static DH, otherwise the HMAC of the shared secret under it. */
  ghost predicate IsNextPrk(
      c: Primitives, alg: EcdhAlg, staticDh: bool, prk: Digest, sk: Bytes, pk: Bytes, next: Digest)
  {
    if staticDh then c.dh(alg, sk, pk).Some? && next == c.hmac(prk, c.dh(alg, sk, pk).value)
    else next == prk
  }

  lemma {:induction false} DerivedPrkIs(
      c: Primitives, suite: Suite, staticDh: bool, prk: Digest, pk: Bytes, sk: Bytes)
    requires PrkDerive(c, suite, staticDh, prk, pk, sk).Ok?
    ensures IsNextPrk(c, suite.ecdh, staticDh, prk, sk, pk, PrkDerive(c, suite, staticDh, prk, pk, sk).value)
  {
    assert |prk| == 32;
  }

  lemma {:induction false} Prk2eIs(c: Primitives, alg: EcdhAlg, sk: Bytes, pk: Bytes)
    requires SharedSecret(c, alg, sk, pk).Ok?
    ensures IsPrk2e(c, alg, sk, pk, Prk2e(c, SharedSecret(c, alg, sk, pk).value))
  {
  }

  /** "MAC_2" and "MAC_3" */
  lemma {:induction false} MacNames()
    ensures Ascii("MAC_2") == [0x4D, 0x41, 0x43, 0x5F, 0x32] && Ascii("MAC_3") == [0x4D, 0x41, 0x43, 0x5F, 0x33]
  {
  }

  // ----- the initiator -----

  /** What the initiator found in message 2 and among what it trusts. */
  datatype Evidence = Evidence(th: Digest, prk2e: Digest, prk: Digest, split: Split, cred: Bytes, key: Bytes)

  /**
   * The plaintext of message 2 names a trusted credential, and Signature_or_MAC_2 proves
   * possession of its key for this TH_2.
   */
  ghost predicate ResponderProved(
      c: Primitives, i: Initiator, trust: Trust, suite: Suite, staticDh: bool, msg1: Bytes, m: Parsed2, ead2Capacity: nat,
      e: Evidence)
  {
    && Th2(c, msg1, m.gY, m.cR) == Ok(e.th)
    && IsPrk2e(c, suite.ecdh, i.x, m.gY, e.prk2e)
    && DecryptSplit(c, Ciphertext2, suite, ead2Capacity, e.prk2e, e.th, m.ciphertext2) == Ok(e.split)
    && Trusted(trust, staticDh, e.split.idCred, e.cred, e.key)
    && IsNextPrk(c, suite.ecdh, staticDh, e.prk2e, i.x, e.key, e.prk)
    && Proves(c, suite, staticDh, e.key, Claim(e.prk, e.th, e.split.idCred, e.cred, e.split.ead, "MAC_2"),
              e.split.signatureOrMac)
  }

  lemma {:induction false} Process2Proves(
      c: Primitives, i: Initiator, trust: Trust, suite: Suite, staticDh: bool, msg1: Bytes, msg2: Bytes, ead2Capacity: nat)
    returns (e: Evidence)
    requires Process2(c, i, trust, suite, staticDh, msg1, msg2, ead2Capacity).Ok?
    ensures ParseMessage2(msg2, PkLen(suite.ecdh)).Ok?
    ensures ResponderProved(
        c, i, trust, suite, staticDh, msg1, ParseMessage2(msg2, PkLen(suite.ecdh)).value, ead2Capacity, e)
    ensures var v := Process2(c, i, trust, suite, staticDh, msg1, msg2, ead2Capacity).value;
      && v.prk3e2m == e.prk && v.ead2 == e.split.ead
      && v.gY == ParseMessage2(msg2, PkLen(suite.ecdh)).value.gY
      && NextTh(c, e.th, ParseMessage2(msg2, PkLen(suite.ecdh)).value.ciphertext2) == Ok(v.th3)
  {
    hide ParseMessage2, Th2, DecryptSplit, RetrieveCred, PrkDerive, Verify, NextTh, Prk2e, SharedSecret;
    hide Trusted, IsPrk2e, IsNextPrk, Proves;
    var m := ParseMessage2(msg2, PkLen(suite.ecdh)).value;
    var th2 := Th2(c, msg1, m.gY, m.cR).value;
    var prk2e := Prk2e(c, SharedSecret(c, suite.ecdh, i.x, m.gY).value);
    var split := DecryptSplit(c, Ciphertext2, suite, ead2Capacity, prk2e, th2, m.ciphertext2).value;
    var peer := RetrieveCred(staticDh, trust, split.idCred).value;
    var prk := PrkDerive(c, suite, staticDh, prk2e, peer.g, i.x).value;
    Prk2eIs(c, suite.ecdh, i.x, m.gY);
    RetrievedIsTrusted(staticDh, trust, split.idCred);
    DerivedPrkIs(c, suite, staticDh, prk2e, peer.g, i.x);
    VerifiedProves(
      c, suite, staticDh, peer.pk, Claim2(prk, th2, split.idCred, peer.cred, split.ead), split.signatureOrMac);
    e := Evidence(th2, prk2e, prk, split, peer.cred, if staticDh then peer.g else peer.pk);
    SameForAnyKey(c, suite, staticDh, prk2e, i.x, peer, prk);
    ProvesWith(c, suite, staticDh, peer, Claim2(prk, th2, split.idCred, peer.cred, split.ead), split.signatureOrMac);
  }

  /** Without static DH the public key for the key derivation does not matter. */
  lemma {:induction false} SameForAnyKey(
      c: Primitives, suite: Suite, staticDh: bool, prk: Digest, sk: Bytes, peer: Peer, next: Digest)
    requires IsNextPrk(c, suite.ecdh, staticDh, prk, sk, peer.g, next)
    ensures IsNextPrk(c, suite.ecdh, staticDh, prk, sk, if staticDh then peer.g else peer.pk, next)
  {
  }

  /** With static DH the signature key does not matter. */
  lemma {:induction false} ProvesWith(
      c: Primitives, suite: Suite, staticDh: bool, peer: Peer, m: Claim, received: Bytes)
    requires Proves(c, suite, staticDh, peer.pk, m, received)
    ensures Proves(c, suite, staticDh, if staticDh then peer.g else peer.pk, m, received)
  {
    hide IsMac, IsSignedText;
  }

  /**
   * An initiator that sends message 3 has authenticated the responder.  Whatever it received:
   * with methods 1 and 3 Signature_or_MAC_2 is a prefix of the MAC over ID_CRED_R, CRED_R and
   * EAD_2 under a PRK_3e2m that depends on a trusted static DH key, and with the others the
   * crypto library accepts it as a signature under a trusted key.
   */
  lemma {:induction false} InitiatorAuthenticates(
      c: Primitives, i: Initiator, trust: Trust, msg1: Bytes, msg2: Bytes, ead2Capacity: nat)
    returns (e: Evidence)
    requires Msg3Gen(c, i, trust, msg1, msg2, ead2Capacity).Ok?
    ensures var f := Msg3Gen(c, i, trust, msg1, msg2, ead2Capacity).value;
      && i.suitesI != [] && GetSuite(i.suitesI[|i.suitesI| - 1]) == Ok(f.suite)
      && ParseMessage2(msg2, PkLen(f.suite.ecdh)).Ok?
      && ResponderProved(
           c, i, trust, f.suite, ResponderUsesDh(i.methodType), msg1,
           ParseMessage2(msg2, PkLen(f.suite.ecdh)).value, ead2Capacity, e)
      && f.ead2 == e.split.ead
  {
    hide Process2, Finalise, ParseMessage2, ResponderProved, AuthTypeOf;
    AuthTypeIs(i.methodType);
    var suite := GetSuite(i.suitesI[|i.suitesI| - 1]).value;
    var v := Process2(c, i, trust, suite, ResponderUsesDh(i.methodType), msg1, msg2, ead2Capacity).value;
    FinaliseKeeps(c, i, suite, InitiatorUsesDh(i.methodType), v);
    e := Process2Proves(c, i, trust, suite, ResponderUsesDh(i.methodType), msg1, msg2, ead2Capacity);
  }

  lemma {:induction false} FinaliseKeeps(c: Primitives, i: Initiator, suite: Suite, initiatorStatic: bool, v: Verified2)
    requires Finalise(c, i, suite, initiatorStatic, v).Ok?
    ensures Finalise(c, i, suite, initiatorStatic, v).value.ead2 == v.ead2
  {
    hide PrkDerive, Generate, CiphertextGen, EncodeByteString, NextTh;
  }

  /** If the crypto library accepts no signature under any trusted key, no message 3 is sent. */
  lemma {:induction false} NoSignatureNoMessage3(
      c: Primitives, i: Initiator, trust: Trust, msg1: Bytes, msg2: Bytes, ead2Capacity: nat)
    requires !ResponderUsesDh(i.methodType)
    requires forall alg, idCred, cred, key, text, sm ::
               Trusted(trust, false, idCred, cred, key) ==> !c.verify(alg, key, text, sm)
    ensures Msg3Gen(c, i, trust, msg1, msg2, ead2Capacity).Fail?
  {
    hide Msg3Gen, Trusted, IsSignedText, ParseMessage2;
    if Msg3Gen(c, i, trust, msg1, msg2, ead2Capacity).Ok? {
      var e := InitiatorAuthenticates(c, i, trust, msg1, msg2, ead2Capacity);
    }
  }

  // ----- the responder -----

  /** The same for message 3 and the responder, whose ciphertext is protected by the AEAD as well. */
  ghost predicate InitiatorProved(
      c: Primitives, r: Responder, s: Reply, trust: Trust, ct3: Bytes, ead3Capacity: nat, e: Evidence)
  {
    && e.th == s.th3 && e.prk2e == s.prk3e2m
    && DecryptSplit(c, Ciphertext3, s.suite, ead3Capacity, e.prk2e, e.th, ct3) == Ok(e.split)
    && (exists plaintext :: Deciphers(c, Ciphertext3, s.suite, e.prk2e, e.th, ct3, plaintext))
    && Trusted(trust, s.initiatorStatic, e.split.idCred, e.cred, e.key)
    && IsNextPrk(c, s.suite.ecdh, s.initiatorStatic, e.prk2e, r.y, e.key, e.prk)
    && Proves(c, s.suite, s.initiatorStatic, e.key,
              Claim(e.prk, e.th, e.split.idCred, e.cred, e.split.ead, "MAC_3"), e.split.signatureOrMac)
  }

  /** A responder that accepts message 3 has authenticated the initiator, whatever it received. */
  lemma {:induction false} ResponderAuthenticates(
      c: Primitives, r: Responder, s: Reply, trust: Trust, msg3: Bytes, ead3Capacity: nat)
    returns (e: Evidence)
    requires Msg3Process(c, r, s, trust, msg3, ead3Capacity).Ok?
    ensures DecodeByteString(msg3, CIPHERTEXT_SIZE).Ok?
    ensures InitiatorProved(c, r, s, trust, DecodeByteString(msg3, CIPHERTEXT_SIZE).value, ead3Capacity, e)
    ensures var d := Msg3Process(c, r, s, trust, msg3, ead3Capacity).value;
      d.prk4x3m == e.prk && d.ead3 == e.split.ead
  {
    hide DecodeByteString, DecryptSplit, RetrieveCred, PrkDerive, Verify, NextTh, Trusted, IsNextPrk, Proves, Deciphers;
    var ct3 := DecodeByteString(msg3, CIPHERTEXT_SIZE).value;
    var staticDh := s.initiatorStatic;
    var split := DecryptSplit(c, Ciphertext3, s.suite, ead3Capacity, s.prk3e2m, s.th3, ct3).value;
    var peer := RetrieveCred(staticDh, trust, split.idCred).value;
    var prk := PrkDerive(c, s.suite, staticDh, s.prk3e2m, peer.g, r.y).value;
    SplitWasDeciphered(c, Ciphertext3, s.suite, ead3Capacity, s.prk3e2m, s.th3, ct3);
    RetrievedIsTrusted(staticDh, trust, split.idCred);
    DerivedPrkIs(c, s.suite, staticDh, s.prk3e2m, peer.g, r.y);
    VerifiedProves(
      c, s.suite, staticDh, peer.pk, Claim3(prk, s.th3, split.idCred, peer.cred, split.ead), split.signatureOrMac);
    e := Evidence(s.th3, s.prk3e2m, prk, split, peer.cred, if staticDh then peer.g else peer.pk);
    SameForAnyKey(c, s.suite, staticDh, s.prk3e2m, r.y, peer, prk);
    ProvesWith(
      c, s.suite, staticDh, peer, Claim3(prk, s.th3, split.idCred, peer.cred, split.ead), split.signatureOrMac);
  }

  /** If the crypto library accepts no signature under any trusted key, message 3 is refused. */
  lemma {:induction false} NoSignatureNoSession(
      c: Primitives, r: Responder, s: Reply, trust: Trust, msg3: Bytes, ead3Capacity: nat)
    requires !s.initiatorStatic
    requires forall alg, idCred, cred, key, text, sm ::
               Trusted(trust, false, idCred, cred, key) ==> !c.verify(alg, key, text, sm)
    ensures Msg3Process(c, r, s, trust, msg3, ead3Capacity).Fail?
  {
    hide Msg3Process, Trusted, IsSignedText, DecodeByteString;
    if Msg3Process(c, r, s, trust, msg3, ead3Capacity).Ok? {
      var e := ResponderAuthenticates(c, r, s, trust, msg3, ead3Capacity);
    }
  }

  /** EAD_4 only comes out of a message 4 that the AEAD opens under K_4 and IV_4. */
  lemma {:induction false} Message4WasOpened(
      c: Primitives, suite: Suite, prk4x3m: Digest, th4: Digest, msg4: Bytes, ead4Capacity: nat)
    requires Msg4Process(c, suite, prk4x3m, th4, msg4, ead4Capacity).Ok?
    ensures DecodeByteString(msg4, CIPHERTEXT_SIZE).Ok?
    ensures exists plaintext ::
      Deciphers(c, Ciphertext4, suite, prk4x3m, th4, DecodeByteString(msg4, CIPHERTEXT_SIZE).value, plaintext)
  {
    hide DecodeByteString, DecryptSplit, Deciphers;
    SplitWasDeciphered(
      c, Ciphertext4, suite, ead4Capacity, prk4x3m, th4, DecodeByteString(msg4, CIPHERTEXT_SIZE).value);
  }
}
