/** What both parties send, by method number, and their agreement when each owns just the keys of its method. */
module Methods {
  import opened Common
  import opened Crypto
  import opened Cbor
  import opened Suites
  import opened KeySchedule
  import opened Transcript
  import opened Identity
  import opened SignatureOrMac
  import opened Ciphertext
  import opened Messages
  import opened Handshake
  import opened Authentication
  import opened Agreement

  // ----- what is sent -----

  /** 64 bytes of signature; with static DH a MAC of 8 or 16 bytes. */
  function FieldLen(suiteNumber: int, staticDh: bool): nat {
    if !staticDh then 64 else if suiteNumber == 0 || suiteNumber == 2 then 8 else 16
  }

  lemma {:induction false} GenuineLen(
      c: Primitives, suite: Suite, staticDh: bool, sk: Bytes, pk: Bytes, m: Claim, sent: Bytes)
    requires GetSuite(suite.number) == Ok(suite) && Genuine(c, suite, staticDh, sk, pk, m, sent)
    ensures |sent| == FieldLen(suite.number, staticDh)
  {
    hide IsMac, IsSignedText, GetSuite;
    SuiteTable(suite.number);
  }

  /** The values behind a message: TH, signature or MAC, plaintext and ciphertext. */
  datatype Sent = Sent(th: Digest, signatureOrMac: Bytes, plaintext: Bytes, ciphertext: Bytes)

  /** Signature or MAC over a claim, enciphered with the identifier and EAD. */
  ghost predicate Carries(
      c: Primitives, which: Which, suite: Suite, staticDh: bool, sk: Bytes, pk: Bytes, prk: Digest, m: Claim, t: Sent)
  {
    && m.th == t.th
    && Genuine(c, suite, staticDh, sk, pk, m, t.signatureOrMac)
    && PlaintextOf(m.idCred, t.signatureOrMac, m.ead) == Ok(t.plaintext)
    && Enciphers(c, which, suite, prk, t.th, t.plaintext, t.ciphertext)
  }

  lemma {:induction false} GeneratedCarries(
      c: Primitives, which: Which, suite: Suite, staticDh: bool, sk: Bytes, pk: Bytes, prk: Digest, m: Claim)
    returns (t: Sent)
    requires !which.Ciphertext4? && Generate(c, suite, staticDh, sk, pk, m).Ok?
    requires CiphertextGen(
        c, which, suite, m.idCred, Generate(c, suite, staticDh, sk, pk, m).value, m.ead, prk, m.th).Ok?
    ensures Carries(c, which, suite, staticDh, sk, pk, prk, m, t)
    ensures t.signatureOrMac == Generate(c, suite, staticDh, sk, pk, m).value
    ensures CiphertextGen(c, which, suite, m.idCred, t.signatureOrMac, m.ead, prk, m.th) == Ok(t.ciphertext)
  {
    hide Generate, CiphertextGen, Genuine, Enciphers, PlaintextOf;
    var sm := Generate(c, suite, staticDh, sk, pk, m).value;
    GeneratedIsGenuine(c, suite, staticDh, sk, pk, m);
    CiphertextIs(c, which, suite, m.idCred, sm, m.ead, prk, m.th);
    t := Sent(m.th, sm, Plaintext(which, m.idCred, sm, m.ead).value,
              CiphertextGen(c, which, suite, m.idCred, sm, m.ead, prk, m.th).value);
  }

  /** Message 1 from its parts: one suite as an integer, several as an array, EAD_1 only when there is one. */
  lemma {:induction false} Message1Is(i: Initiator)
    requires Msg1Gen(i).Ok?
    ensures var suites := if |i.suitesI| == 1 then EncodeInt(i.suitesI[0]) else [0x80 + |i.suitesI|] + EncodeInts(i.suitesI);
      Msg1Gen(i).value ==
      EncodeInt(i.methodType) + suites + EncodeBstr(i.gX) + EncodeId(i.cI) + if i.ead1 == [] then [] else EncodeBstr(i.ead1)
  {
    hide EncodeInt, EncodeInts, EncodeBstr, EncodeId, Head;
    if |i.suitesI| <= 23 {
      HeadBytes(List, |i.suitesI|);
    }
  }

  /** Message 2 from its parts; only with static DH does PRK_3e2m depend on the responder's authentication key. */
  ghost predicate Message2Is(
      c: Primitives, r: Responder, msg1: Bytes, gX: Bytes, staticDh: bool, s: Reply, prk2e: Digest, t: Sent)
  {
    && Th2(c, msg1, r.gY, r.cR) == Ok(t.th)
    && IsPrk2e(c, s.suite.ecdh, r.y, gX, prk2e)
    && IsNextPrk(c, s.suite.ecdh, staticDh, prk2e, r.r, gX, s.prk3e2m)
    && Carries(c, Ciphertext2, s.suite, staticDh, r.sk, r.pk, prk2e,
               Claim(s.prk3e2m, t.th, r.idCred, r.cred, r.ead2, "MAC_2"), t)
    && s.msg2 == EncodeBstr(r.gY + t.ciphertext) + EncodeId(r.cR)
    && NextTh(c, t.th, t.ciphertext) == Ok(s.th3)
  }

  lemma {:induction false} RespondSends(
      c: Primitives, r: Responder, msg1: Bytes, m: Parsed1, suite: Suite, auth: AuthType)
    returns (prk2e: Digest, t: Sent)
    requires Respond(c, r, msg1, m, suite, auth).Ok? && GetSuite(suite.number) == Ok(suite)
    ensures Message2Is(c, r, msg1, m.gX, auth.responderStatic, Respond(c, r, msg1, m, suite, auth).value, prk2e, t)
    ensures |t.signatureOrMac| == FieldLen(suite.number, auth.responderStatic)
  {
    hide Th2, SharedSecret, PrkDerive, Generate, CiphertextGen, NextTh, EncodeBstr, EncodeId, Prk2e;
    hide IsPrk2e, IsNextPrk, Carries, Genuine, GetSuite;
    var th2 := Th2(c, msg1, r.gY, r.cR).value;
    prk2e := Prk2e(c, SharedSecret(c, suite.ecdh, r.y, m.gX).value);
    var prk := PrkDerive(c, suite, auth.responderStatic, prk2e, m.gX, r.r).value;
    Prk2eIs(c, suite.ecdh, r.y, m.gX);
    DerivedPrkIs(c, suite, auth.responderStatic, prk2e, m.gX, r.r);
    t := GeneratedCarries(
      c, Ciphertext2, suite, auth.responderStatic, r.sk, r.pk, prk2e, Claim2(prk, th2, r.idCred, r.cred, r.ead2));
    var claim := Claim2(prk, th2, r.idCred, r.cred, r.ead2);
    CarriedTh(c, Ciphertext2, suite, auth.responderStatic, r.sk, r.pk, prk2e, claim, t);
    GenuineLen(c, suite, auth.responderStatic, r.sk, r.pk, claim, t.signatureOrMac);
  }

  lemma {:induction false} CarriedTh(
      c: Primitives, which: Which, suite: Suite, staticDh: bool, sk: Bytes, pk: Bytes, prk: Digest, m: Claim, t: Sent)
    requires Carries(c, which, suite, staticDh, sk, pk, prk, m, t)
    ensures t.th == m.th && Genuine(c, suite, staticDh, sk, pk, m, t.signatureOrMac)
  {
    hide Genuine, Enciphers, PlaintextOf;
  }

  /**
   * A responder that answers has been asked for one of the methods 0 to 3 and one of its own
   * suites.  With methods 0 and 2 it sends a signature of 64 bytes and PRK_3e2m is PRK_2e; with
   * 1 and 3 it sends a MAC, and PRK_3e2m depends on its static DH key.
   */
  lemma {:induction false} Message2ByMethod(c: Primitives, r: Responder, msg1: Bytes, ead1Capacity: nat)
    returns (prk2e: Digest, t: Sent)
    requires Msg2Gen(c, r, msg1, ead1Capacity).Ok?
    ensures ParseMessage1(msg1, ead1Capacity).Ok?
    ensures var m, s := ParseMessage1(msg1, ead1Capacity).value, Msg2Gen(c, r, msg1, ead1Capacity).value;
      var selected := m.suites[|m.suites| - 1];
      && 0 <= m.methodType <= 3 && selected <= 3 && selected in r.suitesR && GetSuite(selected) == Ok(s.suite)
      && s.suite.number == selected && s.ead1 == m.ead1
      && s.initiatorStatic == (m.methodType == 2 || m.methodType == 3)
      && var staticDh := m.methodType == 1 || m.methodType == 3;
      && Message2Is(c, r, msg1, m.gX, staticDh, s, prk2e, t)
      && |t.signatureOrMac| == FieldLen(selected, staticDh)
  {
    hide ParseMessage1, Respond, GetSuite, Accept, Message2Is, Msg2Gen;
    AcceptedIs(c, r, msg1, ead1Capacity);
    var m := ParseMessage1(msg1, ead1Capacity).value;
    prk2e, t := RespondSends(
      c, r, msg1, m, Msg2Gen(c, r, msg1, ead1Capacity).value.suite,
      AuthType(InitiatorUsesDh(m.methodType), ResponderUsesDh(m.methodType)));
  }

  lemma {:induction false} AcceptedIs(c: Primitives, r: Responder, msg1: Bytes, ead1Capacity: nat)
    requires Msg2Gen(c, r, msg1, ead1Capacity).Ok?
    ensures ParseMessage1(msg1, ead1Capacity).Ok?
    ensures var m, s := ParseMessage1(msg1, ead1Capacity).value, Msg2Gen(c, r, msg1, ead1Capacity).value;
      var selected := m.suites[|m.suites| - 1];
      var auth := AuthType(InitiatorUsesDh(m.methodType), ResponderUsesDh(m.methodType));
      && 0 <= m.methodType <= 3 && selected <= 3 && selected in r.suitesR && GetSuite(selected) == Ok(s.suite)
      && s.suite.number == selected && s.initiatorStatic == InitiatorUsesDh(m.methodType) && s.ead1 == m.ead1
      && Respond(c, r, msg1, m, s.suite, auth) == Ok(s)
  {
    hide ParseMessage1, Respond, GetSuite, AuthTypeOf;
    var m := ParseMessage1(msg1, ead1Capacity).value;
    AuthTypeIs(m.methodType);
    SuiteTable(m.suites[|m.suites| - 1]);
  }

  /** Message 3 from its parts. */
  ghost predicate Message3Is(
      c: Primitives, i: Initiator, suite: Suite, staticDh: bool, gY: Bytes, prk: Digest, th3: Digest, f: Finish, t: Sent)
  {
    && t.th == th3
    && IsNextPrk(c, suite.ecdh, staticDh, prk, i.i, gY, f.prk4x3m)
    && Carries(c, Ciphertext3, suite, staticDh, i.sk, i.pk, prk,
               Claim(f.prk4x3m, th3, i.idCred, i.cred, i.ead3, "MAC_3"), t)
    && f.msg3 == EncodeBstr(t.ciphertext)
    && NextTh(c, th3, t.ciphertext) == Ok(f.th4)
  }

  lemma {:induction false} FinaliseSends(c: Primitives, i: Initiator, suite: Suite, staticDh: bool, v: Verified2)
    returns (t: Sent)
    requires Finalise(c, i, suite, staticDh, v).Ok?
    ensures Message3Is(c, i, suite, staticDh, v.gY, v.prk3e2m, v.th3, Finalise(c, i, suite, staticDh, v).value, t)
  {
    hide PrkDerive, Generate, CiphertextGen, NextTh, EncodeBstr, IsNextPrk, Carries;
    var prk := PrkDerive(c, suite, staticDh, v.prk3e2m, v.gY, i.i).value;
    DerivedPrkIs(c, suite, staticDh, v.prk3e2m, v.gY, i.i);
    var claim := Claim3(prk, v.th3, i.idCred, i.cred, i.ead3);
    t := GeneratedCarries(c, Ciphertext3, suite, staticDh, i.sk, i.pk, v.prk3e2m, claim);
    CarriedTh(c, Ciphertext3, suite, staticDh, i.sk, i.pk, v.prk3e2m, claim, t);
  }

  /**
   * An initiator that sends message 3 sends, with methods 0 and 1, a signature of 64 bytes and
   * keeps PRK_3e2m; with 2 and 3 a MAC, and PRK_4x3m depends on its static DH key.
   */
  lemma {:induction false} Message3ByMethod(
      c: Primitives, i: Initiator, trust: Trust, msg1: Bytes, msg2: Bytes, ead2Capacity: nat)
    returns (e: Evidence, th3: Digest, t: Sent)
    requires Msg3Gen(c, i, trust, msg1, msg2, ead2Capacity).Ok?
    ensures var f := Msg3Gen(c, i, trust, msg1, msg2, ead2Capacity).value;
      && i.suitesI != [] && f.suite.number == i.suitesI[|i.suitesI| - 1] <= 3
      && ParseMessage2(msg2, PkLen(f.suite.ecdh)).Ok?
      && var m := ParseMessage2(msg2, PkLen(f.suite.ecdh)).value;
      && ResponderProved(
           c, i, trust, f.suite, i.methodType == 1 || i.methodType == 3, msg1, m, ead2Capacity, e)
      && NextTh(c, e.th, m.ciphertext2) == Ok(th3)
      && var staticDh := i.methodType == 2 || i.methodType == 3;
      && Message3Is(c, i, f.suite, staticDh, m.gY, e.prk, th3, f, t)
      && |t.signatureOrMac| == FieldLen(f.suite.number, staticDh)
  {
    hide Process2, Finalise, ParseMessage2, ResponderProved, AuthTypeOf, GetSuite, NextTh, Carries, IsNextPrk;
    AuthTypeIs(i.methodType);
    SuiteTable(i.suitesI[|i.suitesI| - 1]);
    var suite := GetSuite(i.suitesI[|i.suitesI| - 1]).value;
    var v := Process2(c, i, trust, suite, ResponderUsesDh(i.methodType), msg1, msg2, ead2Capacity).value;
    e := Process2Proves(c, i, trust, suite, ResponderUsesDh(i.methodType), msg1, msg2, ead2Capacity);
    th3 := v.th3;
    t := FinaliseSends(c, i, suite, InitiatorUsesDh(i.methodType), v);
    var f := Finalise(c, i, suite, InitiatorUsesDh(i.methodType), v).value;
    var claim := Claim(f.prk4x3m, th3, i.idCred, i.cred, i.ead3, "MAC_3");
    CarriedTh(c, Ciphertext3, suite, InitiatorUsesDh(i.methodType), i.sk, i.pk, e.prk, claim, t);
    GenuineLen(c, suite, InitiatorUsesDh(i.methodType), i.sk, i.pk, claim, t.signatureOrMac);
    FinaliseSuite(c, i, suite, v);
  }

  lemma {:induction false} FinaliseSuite(c: Primitives, i: Initiator, suite: Suite, v: Verified2)
    requires Finalise(c, i, suite, InitiatorUsesDh(i.methodType), v).Ok?
    ensures Finalise(c, i, suite, InitiatorUsesDh(i.methodType), v).value.suite == suite
  {
    hide Finalise;
  }

  // ----- parties with just the keys of their method -----

  /** The one key that a party authenticates with. */
  datatype AuthKey = SignatureKey(sk: Bytes) | StaticKey(sk: Bytes)

  /** A party: ephemeral key, authentication key, identifier, credential and connection identifier. */
  datatype Party = Party(ephemeral: Bytes, auth: AuthKey, id: IdCred, cred: Bytes, conn: ConnectionId)

  /** The method for these two keys. */
  function MethodFor(i: AuthKey, r: AuthKey): int32 {
    match (i, r)
    case (SignatureKey(_), SignatureKey(_)) => 0
    case (SignatureKey(_), StaticKey(_)) => 1
    case (StaticKey(_), SignatureKey(_)) => 2
    case (StaticKey(_), StaticKey(_)) => 3
  }

  lemma {:induction false} MethodForIs(i: AuthKey, r: AuthKey)
    ensures var m := MethodFor(i, r);
      InitiatorUsesDh(m) == i.StaticKey? && ResponderUsesDh(m) == r.StaticKey? && m in METHODS
  {
  }

  function DhSecret(k: AuthKey): Bytes { if k.StaticKey? then k.sk else [] }
  function SignatureSecret(k: AuthKey): Bytes { if k.SignatureKey? then k.sk else [] }

  function DhPublicOf(c: Primitives, suite: Suite, k: AuthKey): Bytes {
    if k.StaticKey? then c.dhPublic(suite.ecdh, k.sk) else []
  }

  function SignaturePublicOf(c: Primitives, suite: Suite, k: AuthKey): Bytes {
    if k.SignatureKey? then c.signPublic(suite.sign, k.sk) else []
  }

  function InitiatorOf(c: Primitives, suite: Suite, p: Party, methodType: int32, msg4: bool): Initiator {
    Initiator(msg4, p.conn, methodType, [suite.number], [], [], EncodeIdCred(p.id), p.cred,
              c.dhPublic(suite.ecdh, p.ephemeral), p.ephemeral, DhSecret(p.auth), SignatureSecret(p.auth),
              SignaturePublicOf(c, suite, p.auth))
  }

  function ResponderOf(c: Primitives, suite: Suite, p: Party, msg4: bool): Responder {
    Responder(msg4, p.conn, [suite.number], c.dhPublic(suite.ecdh, p.ephemeral), p.ephemeral, DhSecret(p.auth), [], [],
              EncodeIdCred(p.id), p.cred, SignatureSecret(p.auth), SignaturePublicOf(c, suite, p.auth))
  }

  /** What one provisions about a party: its credential with the public key of the one kind. */
  function TrustIn(c: Primitives, suite: Suite, p: Party): Trust {
    Trust([Credential(EncodeIdCred(p.id), p.cred, SignaturePublicOf(c, suite, p.auth), DhPublicOf(c, suite, p.auth))],
          _ => None)
  }

  /** A local credential whose parts fit the buffers of both sides. */
  predicate FitsBuffers(p: Party) {
    && !p.id.X5chain? && Affordable(EncodeIdCred(p.id), p.cred)
    && (p.conn.BstrId? ==> |p.conn.bytes| <= C_R_SIZE)
  }

  /** Public keys have the sizes of the suite, identifier and credential fit the buffers. */
  predicate Provisioned(c: Primitives, suite: Suite, p: Party) {
    && |c.dhPublic(suite.ecdh, p.ephemeral)| == PkLen(suite.ecdh)
    && (if p.auth.StaticKey? then |DhPublicOf(c, suite, p.auth)| == PkLen(suite.ecdh)
        else |SignaturePublicOf(c, suite, p.auth)| <= KEY_SIZE)
    && FitsBuffers(p)
  }

  /** There are primitives that obey the laws and give public keys of these sizes, for every suite and all keys. */
  lemma {:induction false} SizedKeysExist()
    ensures exists c: Primitives :: c.Laws() &&
              forall number: byte, p :: GetSuite(number).Ok? && FitsBuffers(p) ==> Provisioned(c, GetSuite(number).value, p)
  {
    hide FitsBuffers;
    LawsAreConsistent();
    var c: Primitives :| c.Laws() && UsualKeys(c);
    forall number: byte, p | GetSuite(number).Ok? && FitsBuffers(p)
      ensures Provisioned(c, GetSuite(number).value, p)
    {
    }
  }

  lemma {:induction false} ProvisionedIsKnown(c: Primitives, suite: Suite, p: Party)
    requires c.Laws() && Provisioned(c, suite, p)
    ensures Known(c, suite, p.auth.StaticKey?, TrustIn(c, suite, p), p.id, EncodeIdCred(p.id), p.cred,
                  SignatureSecret(p.auth), SignaturePublicOf(c, suite, p.auth), DhSecret(p.auth))
  {
    hide Known, EncodeIdCred;
    LocalCredentialIsKnown(
      c, suite, p.auth.StaticKey?, TrustIn(c, suite, p), 0, p.id, SignatureSecret(p.auth),
      SignaturePublicOf(c, suite, p.auth), DhSecret(p.auth));
  }

  lemma {:induction false} SimpleMessage1Fits(i: Initiator)
    requires |i.suitesI| == 1 && |i.gX| <= G_SIZE && (i.cI.BstrId? ==> |i.cI.bytes| <= C_R_SIZE) && i.ead1 == []
    ensures Msg1Gen(i).Ok?
  {
    hide Head;
  }

  /**
   * Agreement method by method, for every suite, all keys and all kid or x5t credentials within
   * the buffers: two parties that own and provision just the signature or static DH keys that
   * methods 0, 1, 2 and 3 ask for end with the same suite, PRK_4x3m and TH_4.
   */
  lemma {:induction false} ProvisionedPartiesAgree(c: Primitives, number: byte, pI: Party, pR: Party, msg4: bool)
    requires c.Laws() && GetSuite(number).Ok?
    requires Provisioned(c, GetSuite(number).value, pI) && Provisioned(c, GetSuite(number).value, pR)
    ensures var suite := GetSuite(number).value;
      var i := InitiatorOf(c, suite, pI, MethodFor(pI.auth, pR.auth), msg4);
      var o := RunBoth(
        c, i, TrustIn(c, suite, pR), ResponderOf(c, suite, pR, msg4), TrustIn(c, suite, pI), Capacities(0, 0, 0, 0));
      && o.Ok? && o.value.suiteI == o.value.suiteR == suite
      && o.value.prkI == o.value.prkR && o.value.th4I == o.value.th4R
  {
    hide Known, EncodeIdCred, RunBoth, Msg1Gen, TrustIn, AuthTypeOf, GetSuite;
    var suite, methodType := GetSuite(number).value, MethodFor(pI.auth, pR.auth);
    SuiteTable(number);
    AuthTypeIs(methodType);
    MethodForIs(pI.auth, pR.auth);
    var i, r := InitiatorOf(c, suite, pI, methodType, msg4), ResponderOf(c, suite, pR, msg4);
    SimpleMessage1Fits(i);
    ProvisionedIsKnown(c, suite, pR);
    ProvisionedIsKnown(c, suite, pI);
    EdhocAgreement(c, i, TrustIn(c, suite, pR), pI.id, r, TrustIn(c, suite, pI), pR.id, [], Capacities(0, 0, 0, 0));
  }
}
