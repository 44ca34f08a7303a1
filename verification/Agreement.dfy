/** A run of EDHOC with every message delivered as sent ends with both parties in agreement. */
module Agreement {
  import opened Common
  import opened Crypto
  import opened Cbor
  import opened Suites
  import opened KeySchedule
  import opened Transcript
  import opened Identity
  import opened SignatureOrMac
  import opened Ciphertext
  import opened Messages
  import opened Handshake

  // ----- the run -----

  /** The sizes of the callers' EAD buffers. */
  datatype Capacities = Capacities(ead1: nat, ead2: nat, ead3: nat, ead4: nat)

  /** What both parties hold at the end. */
  datatype Outcome = Outcome(
    suiteI: Suite, suiteR: Suite, prkI: Digest, prkR: Digest, th4I: Digest, th4R: Digest,
    ead1: Bytes, ead2: Bytes, ead3: Bytes, ead4: Bytes)

  /** Both runs, message by message; an initiator that expects message 4 would wait for it. */
  function RunBoth(
      c: Primitives, i: Initiator, trustI: Trust, r: Responder, trustR: Trust, caps: Capacities): Result<Outcome>
    requires i.msg4 == r.msg4
  {
    var msg1 :- Msg1Gen(i);
    var reply :- Msg2Gen(c, r, msg1, caps.ead1);
    var f :- Msg3Gen(c, i, trustI, msg1, reply.msg2, caps.ead2);
    var d :- Msg3Process(c, r, reply, trustR, f.msg3, caps.ead3);
    var outcome := Outcome(f.suite, reply.suite, f.prk4x3m, d.prk4x3m, f.th4, d.th4, reply.ead1, f.ead2, d.ead3, []);
    if !r.msg4 then Ok(outcome)
    else
      var msg4 :- Msg4Gen(c, r, reply.suite, d.prk4x3m, d.th4);
      var ead4 :- Msg4Process(c, f.suite, f.prk4x3m, f.th4, msg4, caps.ead4);
      Ok(outcome.(ead4 := ead4))
  }

  /** `edhoc_initiator_run` and `edhoc_responder_run` on two runtime contexts, with a network that only delivers. */
  method RunContexts(c: Primitives, i: Initiator, trustI: Trust, r: Responder, trustR: Trust, caps: Capacities)
    returns (o: Result<Outcome>)
    requires i.msg4 == r.msg4
    ensures o == RunBoth(c, i, trustI, r, trustR, caps)
  {
    hide Msg1Gen, Msg2Gen, Msg3Gen, Msg3Process, Msg4Gen, Msg4Process;
    var initiator := new RuntimeContext();
    var responder := new RuntimeContext();
    var _ :- initiator.GenerateMsg1(i);
    responder.msg1 := initiator.msg1;
    var ead1 :- responder.GenerateMsg2(c, r, caps.ead1);
    ghost var reply := Msg2Gen(c, r, responder.msg1, caps.ead1).value;
    SuiteIsSmall(c, r, responder.msg1, caps.ead1);
    initiator.msg2 := responder.msg2;
    var f :- initiator.GenerateMsg3(c, i, trustI, caps.ead2);
    responder.msg3 := initiator.msg3;
    var d :- responder.ProcessMsg3(c, r, trustR, caps.ead3, reply);
    var ead4: Bytes := [];
    if r.msg4 {
      var _ :- responder.GenerateMsg4(c, r, d.prk4x3m, d.th4);
      initiator.msg4 := responder.msg4;
      ead4 :- initiator.ProcessMsg4(c, f.prk4x3m, f.th4, caps.ead4);
    }
    return Ok(Outcome(
      initiator.suite, responder.suite, f.prk4x3m, d.prk4x3m, f.th4, d.th4, ead1, f.ead3, d.ead3, ead4));
  }

  lemma {:induction false} SuiteIsSmall(c: Primitives, r: Responder, msg1: Bytes, ead1Capacity: nat)
    requires Msg2Gen(c, r, msg1, ead1Capacity).Ok?
    ensures Msg2Gen(c, r, msg1, ead1Capacity).value.suite.macLen <= 16
  {
    hide ParseMessage1, Respond;
  }

  // ----- compatible parties -----

  /** The key that a party finds for its peer is the one the peer uses. */
  ghost predicate KeyMatches(
      c: Primitives, suite: Suite, staticDh: bool, sk: Bytes, pk: Bytes, dhSk: Bytes, peer: Peer)
  {
    if staticDh then c.PublicOf(suite.ecdh, dhSk, peer.g)
    else peer.pk == pk && pk == c.signPublic(suite.sign, sk)
  }

  /** One party's credential: in its canonical form, within the buffers, and known to the other party. */
  ghost predicate Known(
      c: Primitives, suite: Suite, staticDh: bool, trust: Trust, id: IdCred, idCred: Bytes, cred: Bytes,
      sk: Bytes, pk: Bytes, dhSk: Bytes)
  {
    && idCred == EncodeIdCred(id) && Affordable(idCred, cred)
    && RetrieveCred(staticDh, trust, idCred).Ok?
    && RetrieveCred(staticDh, trust, idCred).value.cred == cred
    && KeyMatches(c, suite, staticDh, sk, pk, dhSk, RetrieveCred(staticDh, trust, idCred).value)
  }

  /** A credential in the other party's local array is known to it, whatever stands behind it in the array. */
  lemma {:induction false} LocalCredentialIsKnown(
      c: Primitives, suite: Suite, staticDh: bool, trust: Trust, k: nat, id: IdCred, sk: Bytes, pk: Bytes, dhSk: Bytes)
    requires k < |trust.local| && !id.X5chain?
    requires trust.local[k].idCred == EncodeIdCred(id) && Affordable(EncodeIdCred(id), trust.local[k].cred)
    requires forall j :: 0 <= j < k ==> trust.local[j].idCred != EncodeIdCred(id)
    requires var g := NormalisedG(trust.local[k].g);
      if staticDh then g.Ok? && c.PublicOf(suite.ecdh, dhSk, g.value)
      else trust.local[k].pk == pk && pk == c.signPublic(suite.sign, sk) && |pk| <= KEY_SIZE
    ensures Known(c, suite, staticDh, trust, id, trust.local[k].idCred, trust.local[k].cred, sk, pk, dhSk)
  {
    hide EncodeIdCred, ReadIdCred, NormalisedG, At;
    AtWhole(EncodeIdCred(id));
    IdCredIsShort(id);
    ReadIdCredAt(EncodeIdCred(id), 0, id);
  }

  /** A certificate that the other party verifies is known to it, with the key it was verified for. */
  lemma {:induction false} CertifiedCredentialIsKnown(
      c: Primitives, suite: Suite, staticDh: bool, trust: Trust, cert: Bytes, key: Bytes, sk: Bytes, pk: Bytes, dhSk: Bytes)
    requires Affordable(EncodeIdCred(X5chain(cert)), EncodeBstr(cert))
    requires trust.certifiedKey(cert) == Some(key) && |key| <= 65
    requires if staticDh then c.PublicOf(suite.ecdh, dhSk, key) else key == pk && pk == c.signPublic(suite.sign, sk)
    ensures Known(c, suite, staticDh, trust, X5chain(cert), EncodeIdCred(X5chain(cert)), EncodeBstr(cert), sk, pk, dhSk)
  {
    hide EncodeIdCred, ReadIdCred, EncodeBstr, At;
    var id := X5chain(cert);
    AtWhole(EncodeIdCred(id));
    IdCredIsShort(id);
    ReadIdCredAt(EncodeIdCred(id), 0, id);
    CertifiedOutcome(staticDh, trust, cert);
  }

  /** The ephemeral keys and the identifiers that go into message 2 fit suite and buffers. */
  ghost predicate GoodKeys(c: Primitives, i: Initiator, r: Responder, suite: Suite) {
    && c.PublicOf(suite.ecdh, i.x, i.gX) && |i.gX| <= G_SIZE
    && c.PublicOf(suite.ecdh, r.y, r.gY) && |r.gY| == PkLen(suite.ecdh)
    && (r.cR.BstrId? ==> |r.cR.bytes| <= C_R_SIZE)
  }

  /** Method, suite and message 1 are acceptable to the responder. */
  predicate Negotiable(i: Initiator, r: Responder, ead1Capacity: nat) {
    && i.methodType in METHODS
    && 1 <= |i.suitesI| <= SUITES_I_SIZE
    && i.suitesI[|i.suitesI| - 1] in r.suitesR && GetSuite(i.suitesI[|i.suitesI| - 1]).Ok?
    && Msg1Gen(i).Ok? && |i.ead1| <= ead1Capacity
  }

  function SelectedSuite(i: Initiator): Suite
    requires i.suitesI != [] && GetSuite(i.suitesI[|i.suitesI| - 1]).Ok?
  {
    GetSuite(i.suitesI[|i.suitesI| - 1]).value
  }

  function Auth(i: Initiator): AuthType {
    AuthTypeOf(i.methodType, AuthType(false, false))
  }

  // ----- message 2 -----

  /** With a credential within the buffers, ciphertexts 2 and 3 can be made and hashed. */
  lemma {:induction false} CiphertextFits(
      c: Primitives, which: Which, suite: Suite, id: IdCred, sm: Bytes, prk: Digest, th: Digest)
    requires c.Laws() && !which.Ciphertext4? && suite.tagLen <= 16
    requires |EncodeIdCred(id)| <= 562 && |sm| <= SIGNATURE_LEN
    ensures var ct := CiphertextGen(c, which, suite, EncodeIdCred(id), sm, [], prk, th);
      && ct.Ok?
      && |ct.value| <= (if which.Ciphertext2? then 628 else 644)
      && NextTh(c, th, ct.value).Ok?
  {
    hide EncodeIdCred, EncodeInt, Conveyed, KeyGen, Encipher;
    ConveyedFits(id);
    var plaintext := Plaintext(which, EncodeIdCred(id), sm, []).value;
    KeysAvailable(c, which, prk, th, KeyLen(which, |plaintext|));
    DecipherEnciphered(c, which, suite, KeyGen(c, which, prk, th, KeyLen(which, |plaintext|)).value, th, plaintext);
  }

  lemma {:induction false} ConveyedFits(id: IdCred)
    requires |EncodeIdCred(id)| <= ID_CRED_SIZE
    ensures Conveyed(EncodeIdCred(id)).Ok? && |Conveyed(EncodeIdCred(id)).value| <= |EncodeIdCred(id)|
  {
    hide Head, EncodeInt, Conveyed;
    IdCredIsShort(id);
    ConveyedIs(id);
  }

  lemma {:induction false} Message2Fits(gY: Bytes, cR: ConnectionId, ct2: Bytes)
    requires |gY| <= G_SIZE && |ct2| <= 628 && (cR.BstrId? ==> |cR.bytes| <= C_R_SIZE)
    ensures EncodeMessage2(gY, cR, ct2).Ok?
  {
    hide Head;
  }

  lemma {:induction false} Th2Available(c: Primitives, msg1: Bytes, gY: Bytes, cR: ConnectionId)
    requires |gY| <= G_SIZE && (cR.BstrId? ==> |cR.bytes| <= C_R_SIZE)
    ensures Th2(c, msg1, gY, cR).Ok?
  {
    hide Head;
  }

  /** The intermediate values of message 2, as the responder computes them. */
  datatype Secrets2 = Secrets2(th2: Digest, prk2e: Digest, prk3e2m: Digest, sm2: Bytes, ct2: Bytes)

  ghost predicate RespondsWith(
      c: Primitives, r: Responder, msg1: Bytes, m: Parsed1, suite: Suite, auth: AuthType, s: Secrets2)
  {
    && Th2(c, msg1, r.gY, r.cR) == Ok(s.th2)
    && SharedSecret(c, suite.ecdh, r.y, m.gX).Ok?
    && s.prk2e == Prk2e(c, SharedSecret(c, suite.ecdh, r.y, m.gX).value)
    && PrkDerive(c, suite, auth.responderStatic, s.prk2e, m.gX, r.r) == Ok(s.prk3e2m)
    && Generate(c, suite, auth.responderStatic, r.sk, r.pk, Claim2(s.prk3e2m, s.th2, r.idCred, r.cred, [])) == Ok(s.sm2)
    && CiphertextGen(c, Ciphertext2, suite, r.idCred, s.sm2, [], s.prk2e, s.th2) == Ok(s.ct2)
    && |s.ct2| <= 628 && EncodeMessage2(r.gY, r.cR, s.ct2).Ok? && NextTh(c, s.th2, s.ct2).Ok?
    && Respond(c, r, msg1, m, suite, auth) ==
       Ok(Reply(EncodeMessage2(r.gY, r.cR, s.ct2).value, suite, auth.initiatorStatic, s.prk3e2m,
                NextTh(c, s.th2, s.ct2).value, m.ead1))
  }

  lemma {:induction false} RespondSucceeds(
      c: Primitives, i: Initiator, trustI: Trust, r: Responder, idR: IdCred, msg1: Bytes, m: Parsed1, suite: Suite, auth: AuthType)
    returns (s: Secrets2)
    requires c.Laws() && GoodKeys(c, i, r, suite) && suite.macLen <= 16 && suite.tagLen <= 16
    requires Known(c, suite, auth.responderStatic, trustI, idR, r.idCred, r.cred, r.sk, r.pk, r.r)
    requires m.gX == i.gX && r.ead2 == []
    ensures RespondsWith(c, r, msg1, m, suite, auth, s)
  {
    hide Th2, PrkDerive, Generate, CiphertextGen, EncodeMessage2, NextTh, RetrieveCred, EncodeIdCred;
    var staticDh, peer := auth.responderStatic, RetrieveCred(auth.responderStatic, trustI, r.idCred).value;
    Th2Available(c, msg1, r.gY, r.cR);
    var th2 := Th2(c, msg1, r.gY, r.cR).value;
    DhAgrees(c, suite.ecdh, i.x, i.gX, r.y, r.gY);
    var prk2e := Prk2e(c, SharedSecret(c, suite.ecdh, r.y, m.gX).value);
    PrkAgrees(c, suite, staticDh, prk2e, i.x, i.gX, r.r, peer.g);
    var prk3e2m := PrkDerive(c, suite, staticDh, prk2e, m.gX, r.r).value;
    var claim := Claim2(prk3e2m, th2, r.idCred, r.cred, []);
    GenerateAvailable(c, suite, staticDh, r.sk, r.pk, claim);
    var sm2 := Generate(c, suite, staticDh, r.sk, r.pk, claim).value;
    CiphertextFits(c, Ciphertext2, suite, idR, sm2, prk2e, th2);
    var ct2 := CiphertextGen(c, Ciphertext2, suite, r.idCred, sm2, [], prk2e, th2).value;
    Message2Fits(r.gY, r.cR, ct2);
    s := Secrets2(th2, prk2e, prk3e2m, sm2, ct2);
  }

  /** The initiator arrives at the responder's PRK_3e2m and TH_3, and accepts its signature or MAC. */
  lemma {:induction false} Process2Succeeds(
      c: Primitives, i: Initiator, trustI: Trust, r: Responder, idR: IdCred, msg1: Bytes, m: Parsed1, suite: Suite, auth: AuthType,
      s: Secrets2, ead2Capacity: nat)
    requires c.Laws() && GoodKeys(c, i, r, suite) && m.gX == i.gX
    requires Known(c, suite, auth.responderStatic, trustI, idR, r.idCred, r.cred, r.sk, r.pk, r.r)
    requires RespondsWith(c, r, msg1, m, suite, auth, s)
    ensures Process2(c, i, trustI, suite, auth.responderStatic, msg1, EncodeMessage2(r.gY, r.cR, s.ct2).value, ead2Capacity) ==
            Ok(Verified2(r.gY, s.prk3e2m, NextTh(c, s.th2, s.ct2).value, []))
  {
    hide Th2, PrkDerive, Generate, CiphertextGen, EncodeMessage2, NextTh, RetrieveCred, EncodeIdCred, ParseMessage2;
    hide DecryptSplit, Verify, Respond;
    var staticDh, peer := auth.responderStatic, RetrieveCred(auth.responderStatic, trustI, r.idCred).value;
    Message2RoundTrip(r.gY, r.cR, s.ct2, PkLen(suite.ecdh));
    DhAgrees(c, suite.ecdh, i.x, i.gX, r.y, r.gY);
    CiphertextRoundTrip(c, Ciphertext2, suite, idR, s.sm2, [], ead2Capacity, s.prk2e, s.th2);
    PrkAgrees(c, suite, staticDh, s.prk2e, i.x, i.gX, r.r, peer.g);
    VerifyAccepts(c, suite, staticDh, r.sk, r.pk, Claim2(s.prk3e2m, s.th2, r.idCred, r.cred, []), peer.pk);
  }

  // ----- message 3 -----

  /** Message 3 can be made, and the responder arrives at the initiator's PRK_4x3m and TH_4. */
  lemma {:induction false} Message3Agrees(
      c: Primitives, i: Initiator, r: Responder, trustR: Trust, idI: IdCred, suite: Suite, initiatorStatic: bool,
      v: Verified2, s: Reply, ead3Capacity: nat)
    requires c.Laws() && GoodKeys(c, i, r, suite) && suite.macLen <= 16 && suite.tagLen <= 16 && i.ead3 == []
    requires Known(c, suite, initiatorStatic, trustR, idI, i.idCred, i.cred, i.sk, i.pk, i.i)
    requires v.gY == r.gY && v.prk3e2m == s.prk3e2m && v.th3 == s.th3
    requires s.suite == suite && s.initiatorStatic == initiatorStatic
    ensures var f := Finalise(c, i, suite, initiatorStatic, v);
      && f.Ok? && f.value.suite == suite && f.value.ead2 == v.ead2
      && Msg3Process(c, r, s, trustR, f.value.msg3, ead3Capacity) == Ok(Done(f.value.prk4x3m, f.value.th4, []))
  {
    hide PrkDerive, Generate, CiphertextGen, NextTh, RetrieveCred, EncodeIdCred, EncodeByteString, DecodeByteString;
    hide DecryptSplit, Verify;
    var peer := RetrieveCred(initiatorStatic, trustR, i.idCred).value;
    PrkAgrees(c, suite, initiatorStatic, v.prk3e2m, i.i, peer.g, r.y, r.gY);
    var prk4x3m := PrkDerive(c, suite, initiatorStatic, v.prk3e2m, v.gY, i.i).value;
    var claim := Claim3(prk4x3m, v.th3, i.idCred, i.cred, []);
    GenerateAvailable(c, suite, initiatorStatic, i.sk, i.pk, claim);
    var sm3 := Generate(c, suite, initiatorStatic, i.sk, i.pk, claim).value;
    CiphertextFits(c, Ciphertext3, suite, idI, sm3, v.prk3e2m, v.th3);
    var ct3 := CiphertextGen(c, Ciphertext3, suite, i.idCred, sm3, [], v.prk3e2m, v.th3).value;
    Message3Fits(ct3);
    ByteStringRoundTrip(ct3, MSG_SIZE, CIPHERTEXT_SIZE);
    CiphertextRoundTrip(c, Ciphertext3, suite, idI, sm3, [], ead3Capacity, v.prk3e2m, v.th3);
    VerifyAccepts(c, suite, initiatorStatic, i.sk, i.pk, claim, peer.pk);
  }

  lemma {:induction false} Message3Fits(ct: Bytes)
    requires |ct| <= CIPHERTEXT_SIZE
    ensures EncodeByteString(ct, MSG_SIZE).Ok?
  {
    hide Head;
  }

  // ----- message 4 -----

  /** Message 4 decrypts to EAD_4 when it was sent as one byte string, or not at all. */
  lemma {:induction false} Message4Agrees(
      c: Primitives, r: Responder, suite: Suite, prk4x3m: Digest, th4: Digest, ead4: Bytes, ead4Capacity: nat)
    requires c.Laws() && suite.tagLen <= 16 && r.ead4 == OptionalBstr(ead4)
    requires |r.ead4| + 16 <= PLAINTEXT_SIZE && |ead4| <= ead4Capacity
    ensures Msg4Gen(c, r, suite, prk4x3m, th4).Ok?
    ensures Msg4Process(c, suite, prk4x3m, th4, Msg4Gen(c, r, suite, prk4x3m, th4).value, ead4Capacity) == Ok(ead4)
  {
    hide DecryptSplit, EncodeByteString, DecodeByteString, OptionalBstr, KeyGen, Encipher, EncodeIdCred;
    KeysAvailable(c, Ciphertext4, prk4x3m, th4, AEAD_KEY_LEN);
    DecipherEnciphered(c, Ciphertext4, suite, KeyGen(c, Ciphertext4, prk4x3m, th4, AEAD_KEY_LEN).value, th4, r.ead4);
    var ct4 := CiphertextGen(c, Ciphertext4, suite, [], [], r.ead4, prk4x3m, th4).value;
    Message3Fits(ct4);
    ByteStringRoundTrip(ct4, MSG_SIZE, CIPHERTEXT_SIZE);
    AnyIdCred();
    CiphertextRoundTrip(c, Ciphertext4, suite, Kid(0), [], ead4, ead4Capacity, prk4x3m, th4);
    assert CiphertextGen(c, Ciphertext4, suite, EncodeIdCred(Kid(0)), [], r.ead4, prk4x3m, th4) == Ok(ct4);
  }

  lemma {:induction false} AnyIdCred()
    ensures |EncodeIdCred(Kid(0))| <= ID_CRED_SIZE
  {
    hide Head;
  }

  // ----- agreement -----

  lemma {:induction false} SuiteSizes(number: byte)
    requires GetSuite(number).Ok?
    ensures GetSuite(number).value.macLen <= 16 && GetSuite(number).value.tagLen <= 16
  {
  }

  /** The responder parses message 1 and agrees on suite and method. */
  lemma {:induction false} Message1Agrees(c: Primitives, i: Initiator, r: Responder, ead1Capacity: nat)
    requires Negotiable(i, r, ead1Capacity) && |i.gX| <= G_SIZE
    ensures Msg2Gen(c, r, Msg1Gen(i).value, ead1Capacity) ==
            Respond(c, r, Msg1Gen(i).value, Parsed1(i.methodType, i.suitesI, i.gX, i.ead1), SelectedSuite(i), Auth(i))
  {
    hide EncodeMessage1, ParseMessage1, Respond, GetSuite;
    Message1RoundTrip(Message1(i.methodType, i.suitesI, i.gX, i.cI, i.ead1), ead1Capacity);
  }

  /** Agreement up to message 3. */
  lemma {:induction false} ThreeMessagesAgree(
      c: Primitives, i: Initiator, trustI: Trust, idI: IdCred, r: Responder, trustR: Trust, idR: IdCred, caps: Capacities)
    requires c.Laws() && Negotiable(i, r, caps.ead1) && GoodKeys(c, i, r, SelectedSuite(i))
    requires r.ead2 == [] && i.ead3 == []
    requires Known(c, SelectedSuite(i), Auth(i).responderStatic, trustI, idR, r.idCred, r.cred, r.sk, r.pk, r.r)
    requires Known(c, SelectedSuite(i), Auth(i).initiatorStatic, trustR, idI, i.idCred, i.cred, i.sk, i.pk, i.i)
    ensures var msg1, suite := Msg1Gen(i).value, SelectedSuite(i);
      var reply := Msg2Gen(c, r, msg1, caps.ead1);
      && reply.Ok? && reply.value.suite == suite && reply.value.ead1 == i.ead1
      && var f := Msg3Gen(c, i, trustI, msg1, reply.value.msg2, caps.ead2);
      && f.Ok? && f.value.suite == suite && f.value.ead2 == []
      && Msg3Process(c, r, reply.value, trustR, f.value.msg3, caps.ead3) == Ok(Done(f.value.prk4x3m, f.value.th4, []))
  {
    hide Msg1Gen, Msg2Gen, Respond, Process2, Finalise, Msg3Process, EncodeMessage2, NextTh, Known, GoodKeys;
    assert |i.gX| <= G_SIZE by {
      GxFits(c, i, r, SelectedSuite(i));
    }
    var suite, auth, msg1 := SelectedSuite(i), Auth(i), Msg1Gen(i).value;
    var m := Parsed1(i.methodType, i.suitesI, i.gX, i.ead1);
    SuiteSizes(i.suitesI[|i.suitesI| - 1]);
    Message1Agrees(c, i, r, caps.ead1);
    var s := RespondSucceeds(c, i, trustI, r, idR, msg1, m, suite, auth);
    Process2Succeeds(c, i, trustI, r, idR, msg1, m, suite, auth, s, caps.ead2);
    var reply := Msg2Gen(c, r, msg1, caps.ead1).value;
    var v := Verified2(r.gY, s.prk3e2m, NextTh(c, s.th2, s.ct2).value, []);
    Message3Agrees(c, i, r, trustR, idI, suite, auth.initiatorStatic, v, reply, caps.ead3);
  }

  lemma {:induction false} GxFits(c: Primitives, i: Initiator, r: Responder, suite: Suite)
    requires GoodKeys(c, i, r, suite)
    ensures |i.gX| <= G_SIZE
  {
  }

  /**
   * EDHOC agreement, for every method and suite, all keys and all credentials within the
   * buffers: both parties return ok with the suite that the initiator selected, equal PRK_4x3m
   * and equal TH_4, EAD_1 arrives, and message 4 decrypts to the EAD_4 that was sent.
   */
  lemma {:induction false} EdhocAgreement(
      c: Primitives, i: Initiator, trustI: Trust, idI: IdCred, r: Responder, trustR: Trust, idR: IdCred, ead4: Bytes,
      caps: Capacities)
    requires c.Laws() && i.msg4 == r.msg4
    requires Negotiable(i, r, caps.ead1) && GoodKeys(c, i, r, SelectedSuite(i))
    requires r.ead2 == [] && i.ead3 == []
    requires Known(c, SelectedSuite(i), Auth(i).responderStatic, trustI, idR, r.idCred, r.cred, r.sk, r.pk, r.r)
    requires Known(c, SelectedSuite(i), Auth(i).initiatorStatic, trustR, idI, i.idCred, i.cred, i.sk, i.pk, i.i)
    requires r.ead4 == OptionalBstr(ead4) && |r.ead4| + 16 <= PLAINTEXT_SIZE && |ead4| <= caps.ead4
    ensures var o := RunBoth(c, i, trustI, r, trustR, caps);
      && o.Ok?
      && o.value.suiteI == o.value.suiteR == SelectedSuite(i)
      && o.value.prkI == o.value.prkR && o.value.th4I == o.value.th4R
      && o.value.ead1 == i.ead1 && o.value.ead2 == [] && o.value.ead3 == []
      && o.value.ead4 == (if r.msg4 then ead4 else [])
  {
    hide Msg2Gen, Msg3Gen, Msg3Process, Msg4Gen, Msg4Process, Known, GoodKeys, OptionalBstr;
    ThreeMessagesAgree(c, i, trustI, idI, r, trustR, idR, caps);
    SuiteSizes(i.suitesI[|i.suitesI| - 1]);
    var msg1 := Msg1Gen(i).value;
    var reply := Msg2Gen(c, r, msg1, caps.ead1).value;
    var f := Msg3Gen(c, i, trustI, msg1, reply.msg2, caps.ead2).value;
    Message4Agrees(c, r, SelectedSuite(i), f.prk4x3m, f.th4, ead4, caps.ead4);
  }
}
