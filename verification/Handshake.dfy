/** The EDHOC initiator and responder, step by step. */
module Handshake {
  import opened Common
  import opened Crypto
  import opened Cbor
  import opened Hkdf
  import opened Suites
  import opened KeySchedule
  import opened Transcript
  import opened Identity
  import opened SignatureOrMac
  import opened Ciphertext
  import opened Messages

  /** `struct edhoc_initiator_context` */
  datatype Initiator = Initiator(
    msg4: bool, cI: ConnectionId, methodType: int32, suitesI: seq<byte>, ead1: Bytes, ead3: Bytes,
    idCred: Bytes, cred: Bytes, gX: Bytes, x: Bytes, i: Bytes, sk: Bytes, pk: Bytes)

  /** `struct edhoc_responder_context` */
  datatype Responder = Responder(
    msg4: bool, cR: ConnectionId, suitesR: SuiteList, gY: Bytes, y: Bytes, r: Bytes, ead2: Bytes, ead4: Bytes,
    idCred: Bytes, cred: Bytes, sk: Bytes, pk: Bytes)

  const METHODS := {0, 1, 2, 3}

  function Prk2e(c: Primitives, gXY: Digest): Digest {
    Extract(c, [], gXY)
  }

  // ----- message 1 -----

  /** `msg1_gen` */
  function Msg1Gen(i: Initiator): Result<Bytes> {
    EncodeMessage1(Message1(i.methodType, i.suitesI, i.gX, i.cI, i.ead1))
  }

  // ----- message 2 -----

  /** What the responder holds after sending message 2. */
  datatype Reply = Reply(msg2: Bytes, suite: Suite, initiatorStatic: bool, prk3e2m: Digest, th3: Digest, ead1: Bytes)

  /** The agreed parameters: an unknown method leaves a flag of the responder unset. */
  function Accept(r: Responder, m: Parsed1): Result<(Suite, AuthType)>
    requires m.suites != []
  {
    var selected := m.suites[|m.suites| - 1];
    if selected !in r.suitesR then Fail(ErrorMessageSent)
    else
      var suite :- GetSuite(selected);
      if m.methodType !in METHODS then Fail(Undefined)
      else Ok((suite, AuthTypeOf(m.methodType, AuthType(false, false))))
  }

  function Claim2(prk3e2m: Digest, th2: Digest, idCred: Bytes, cred: Bytes, ead2: Bytes): Claim {
    Claim(prk3e2m, th2, idCred, cred, ead2, "MAC_2")
  }

  function Claim3(prk4x3m: Digest, th3: Digest, idCred: Bytes, cred: Bytes, ead3: Bytes): Claim {
    Claim(prk4x3m, th3, idCred, cred, ead3, "MAC_3")
  }

  /** `msg2_gen` from the point where method and suite are known. */
  function Respond(
      c: Primitives, r: Responder, msg1: Bytes, m: Parsed1, suite: Suite, auth: AuthType): (reply: Result<Reply>)
    ensures reply.Ok? ==> reply.value.suite == suite && reply.value.initiatorStatic == auth.initiatorStatic
    ensures reply.Ok? ==> reply.value.ead1 == m.ead1
  {
    var th2 :- Th2(c, msg1, r.gY, r.cR);
    var gXY :- SharedSecret(c, suite.ecdh, r.y, m.gX);
    var prk2e := Prk2e(c, gXY);
    var prk3e2m :- PrkDerive(c, suite, auth.responderStatic, prk2e, m.gX, r.r);
    var sm2 :- Generate(c, suite, auth.responderStatic, r.sk, r.pk, Claim2(prk3e2m, th2, r.idCred, r.cred, r.ead2));
    var ct2 :- CiphertextGen(c, Ciphertext2, suite, r.idCred, sm2, r.ead2, prk2e, th2);
    var msg2 :- EncodeMessage2(r.gY, r.cR, ct2);
    var th3 :- NextTh(c, th2, ct2);
    Ok(Reply(msg2, suite, auth.initiatorStatic, prk3e2m, th3, m.ead1))
  }

  function Msg2Gen(c: Primitives, r: Responder, msg1: Bytes, ead1Capacity: nat): Result<Reply> {
    var m :- ParseMessage1(msg1, ead1Capacity);
    var accepted :- Accept(r, m);
    Respond(c, r, msg1, m, accepted.0, accepted.1)
  }

  // ----- message 3 -----

  /** What the initiator has verified of message 2. */
  datatype Verified2 = Verified2(gY: Bytes, prk3e2m: Digest, th3: Digest, ead2: Bytes)

  /** The first half of `msg3_gen`: message 2 is parsed, decrypted and authenticated. */
  function Process2(
      c: Primitives, i: Initiator, trust: Trust, suite: Suite, responderStatic: bool, msg1: Bytes, msg2: Bytes, ead2Capacity: nat)
    : Result<Verified2>
  {
    var m :- ParseMessage2(msg2, PkLen(suite.ecdh));
    var gXY :- SharedSecret(c, suite.ecdh, i.x, m.gY);
    var th2 :- Th2(c, msg1, m.gY, m.cR);
    var prk2e := Prk2e(c, gXY);
    var split :- DecryptSplit(c, Ciphertext2, suite, ead2Capacity, prk2e, th2, m.ciphertext2);
    var peer :- RetrieveCred(responderStatic, trust, split.idCred);
    var prk3e2m :- PrkDerive(c, suite, responderStatic, prk2e, peer.g, i.x);
    var claim := Claim2(prk3e2m, th2, split.idCred, peer.cred, split.ead);
    var _ :- Verify(c, suite, responderStatic, peer.pk, claim, split.signatureOrMac);
    var th3 :- NextTh(c, th2, m.ciphertext2);
    Ok(Verified2(m.gY, prk3e2m, th3, split.ead))
  }

  /** What the initiator holds after sending message 3. */
  datatype Finish = Finish(msg3: Bytes, suite: Suite, prk4x3m: Digest, th4: Digest, ead2: Bytes)

  function FinishWith(
      msg3: Result<Bytes>, th4: Result<Digest>, suite: Suite, prk4x3m: Digest, ead2: Bytes): Result<Finish> {
    var m :- msg3;
    var t :- th4;
    Ok(Finish(m, suite, prk4x3m, t, ead2))
  }

  /** The second half of `msg3_gen`. */
  function Finalise(c: Primitives, i: Initiator, suite: Suite, initiatorStatic: bool, v: Verified2): (r: Result<Finish>)
    ensures r.Ok? ==> r.value.suite == suite
  {
    var prk4x3m :- PrkDerive(c, suite, initiatorStatic, v.prk3e2m, v.gY, i.i);
    var sm3 :- Generate(c, suite, initiatorStatic, i.sk, i.pk, Claim3(prk4x3m, v.th3, i.idCred, i.cred, i.ead3));
    var ct3 :- CiphertextGen(c, Ciphertext3, suite, i.idCred, sm3, i.ead3, v.prk3e2m, v.th3);
    if CIPHERTEXT_SIZE < |ct3| + ENCODING_OVERHEAD then Fail(BufferToSmall)
    else FinishWith(EncodeByteString(ct3, MSG_SIZE), NextTh(c, v.th3, ct3), suite, prk4x3m, v.ead2)
  }

  function Msg3Gen(
      c: Primitives, i: Initiator, trust: Trust, msg1: Bytes, msg2: Bytes, ead2Capacity: nat): Result<Finish> {
    if i.suitesI == [] then Fail(Undefined)
    else
      var suite :- GetSuite(i.suitesI[|i.suitesI| - 1]);
      var auth := AuthTypeOf(i.methodType, AuthType(false, false));
      var v :- Process2(c, i, trust, suite, auth.responderStatic, msg1, msg2, ead2Capacity);
      Finalise(c, i, suite, auth.initiatorStatic, v)
  }

  datatype Done = Done(prk4x3m: Digest, th4: Digest, ead3: Bytes)

  /** `msg3_process` */
  function Msg3Process(
      c: Primitives, r: Responder, s: Reply, trust: Trust, msg3: Bytes, ead3Capacity: nat): Result<Done> {
    var ct3 :- DecodeByteString(msg3, CIPHERTEXT_SIZE);
    var split :- DecryptSplit(c, Ciphertext3, s.suite, ead3Capacity, s.prk3e2m, s.th3, ct3);
    var peer :- RetrieveCred(s.initiatorStatic, trust, split.idCred);
    var prk4x3m :- PrkDerive(c, s.suite, s.initiatorStatic, s.prk3e2m, peer.g, r.y);
    var claim := Claim3(prk4x3m, s.th3, split.idCred, peer.cred, split.ead);
    var _ :- Verify(c, s.suite, s.initiatorStatic, peer.pk, claim, split.signatureOrMac);
    var th4 :- NextTh(c, s.th3, ct3);
    Ok(Done(prk4x3m, th4, split.ead))
  }

  // ----- message 4 -----

  /** `msg4_gen` */
  function Msg4Gen(c: Primitives, r: Responder, suite: Suite, prk4x3m: Digest, th4: Digest): Result<Bytes> {
    var ct4 :- CiphertextGen(c, Ciphertext4, suite, [], [], r.ead4, prk4x3m, th4);
    EncodeByteString(ct4, MSG_SIZE)
  }

  /** `msg4_process` */
  function Msg4Process(
      c: Primitives, suite: Suite, prk4x3m: Digest, th4: Digest, msg4: Bytes, ead4Capacity: nat): Result<Bytes> {
    var ct4 :- DecodeByteString(msg4, CIPHERTEXT_SIZE);
    var split :- DecryptSplit(c, Ciphertext4, suite, ead4Capacity, prk4x3m, th4, ct4);
    Ok(split.ead)
  }

  // ----- the runtime context -----

  /** `struct runtime_context`: message buffers and what the responder keeps between messages. */
  class RuntimeContext {
    var msg1: Bytes
    var msg2: Bytes
    var msg3: Bytes
    var msg4: Bytes
    var suite: Suite
    var th3: Digest
    var prk3e2m: Digest
    var staticDhI: bool

    constructor ()
      ensures !staticDhI
    {
      msg1, msg2, msg3, msg4 := [], [], [], [];
      suite := Suite(0, 0, 0, X25519, EdDSA);
      th3, prk3e2m, staticDhI := Zeros(SHA_LEN), Zeros(SHA_LEN), false;
    }

    /** The responder's part, as the specification names it. */
    predicate Holds(s: Reply)
      reads this
    {
      msg2 == s.msg2 && suite == s.suite && staticDhI == s.initiatorStatic && prk3e2m == s.prk3e2m && th3 == s.th3
    }

    method GenerateMsg1(i: Initiator) returns (r: Result<()>)
      modifies this`msg1
      ensures Msg1Gen(i).Fail? ==> r == Fail(Msg1Gen(i).err) && msg1 == old(msg1)
      ensures Msg1Gen(i).Ok? ==> r == Ok(()) && msg1 == Msg1Gen(i).value
    {
      msg1 :- EncodeMessage1(Message1(i.methodType, i.suitesI, i.gX, i.cI, i.ead1));
      return Ok(());
    }

    /** `msg2_gen`; returns EAD_1. */
    method GenerateMsg2(c: Primitives, r: Responder, ead1Capacity: nat) returns (ead1: Result<Bytes>)
      modifies this
      ensures msg1 == old(msg1) && msg3 == old(msg3) && msg4 == old(msg4)
      ensures var reply := Msg2Gen(c, r, old(msg1), ead1Capacity);
        && (reply.Fail? ==> ead1 == Fail(reply.err))
        && (reply.Ok? ==> ead1 == Ok(reply.value.ead1) && Holds(reply.value))
    {
      hide ParseMessage1, Respond;
      var m :- ParseMessage1(msg1, ead1Capacity);
      var selected := m.suites[|m.suites| - 1];
      var supported := SelectedSuiteIsSupported(selected, r.suitesR);
      if !supported {
        return Fail(ErrorMessageSent);
      }
      suite :- GetSuite(selected);
      if m.methodType !in METHODS {
        return Fail(Undefined);
      }
      var auth := AuthTypeOf(m.methodType, AuthType(staticDhI, false));
      staticDhI := auth.initiatorStatic;
      var reply :- BuildMsg2(c, r, msg1, m, suite, auth);
      prk3e2m, msg2, th3 := reply.prk3e2m, reply.msg2, reply.th3;
      return Ok(reply.ead1);
    }

    static method BuildMsg2(c: Primitives, r: Responder, msg1: Bytes, m: Parsed1, suite: Suite, auth: AuthType)
      returns (reply: Result<Reply>)
      requires suite.macLen <= SHA_LEN
      ensures reply == Respond(c, r, msg1, m, suite, auth)
    {
      hide Th2, PrkDerive, Generate, CiphertextGen, EncodeMessage2, NextTh, Extract;
      var th2 :- Th2(c, msg1, r.gY, r.cR);
      var gXY :- SharedSecret(c, suite.ecdh, r.y, m.gX);
      var prk2e := Prk2e(c, gXY);
      var prk3e2m :- PrkDerive(c, suite, auth.responderStatic, prk2e, m.gX, r.r);
      var sm2 :- GenerateSignatureOrMac(
        c, suite, auth.responderStatic, r.sk, r.pk, Claim2(prk3e2m, th2, r.idCred, r.cred, r.ead2));
      var ct2 :- GenerateCiphertext(c, Ciphertext2, suite, r.idCred, sm2, r.ead2, prk2e, th2);
      var msg2 :- EncodeMessage2(r.gY, r.cR, ct2);
      var th3 :- NextTh(c, th2, ct2);
      return Ok(Reply(msg2, suite, auth.initiatorStatic, prk3e2m, th3, m.ead1));
    }

    /** `msg3_gen`; returns PRK_4x3m, TH_4 and EAD_2. */
    method GenerateMsg3(c: Primitives, i: Initiator, trust: Trust, ead2Capacity: nat) returns (r: Result<Done>)
      modifies this`msg3, this`suite
      ensures var f := Msg3Gen(c, i, trust, msg1, msg2, ead2Capacity);
        && (f.Fail? ==> r == Fail(f.err))
        && (f.Ok? ==> r == Ok(Done(f.value.prk4x3m, f.value.th4, f.value.ead2)) && msg3 == f.value.msg3 && suite == f.value.suite)
    {
      hide Process2, Finalise;
      if i.suitesI == [] {
        return Fail(Undefined);
      }
      suite :- GetSuite(i.suitesI[|i.suitesI| - 1]);
      var auth := AuthTypeOf(i.methodType, AuthType(false, false));
      var v :- VerifyMsg2(c, i, trust, suite, auth.responderStatic, msg1, msg2, ead2Capacity);
      var f :- BuildMsg3(c, i, suite, auth.initiatorStatic, v);
      msg3 := f.msg3;
      return Ok(Done(f.prk4x3m, f.th4, f.ead2));
    }

    static method VerifyMsg2(
        c: Primitives, i: Initiator, trust: Trust, suite: Suite, responderStatic: bool, msg1: Bytes, msg2: Bytes,
        ead2Capacity: nat)
      returns (r: Result<Verified2>)
      requires suite.macLen <= SHA_LEN
      ensures r == Process2(c, i, trust, suite, responderStatic, msg1, msg2, ead2Capacity)
    {
      hide ParseMessage2, Th2, PrkDerive, Verify, DecryptSplit, RetrieveCred, NextTh, Extract;
      var m :- ParseMessage2(msg2, PkLen(suite.ecdh));
      var gXY :- SharedSecret(c, suite.ecdh, i.x, m.gY);
      var th2 :- Th2(c, msg1, m.gY, m.cR);
      var prk2e := Prk2e(c, gXY);
      var split :- OpenCiphertext(c, Ciphertext2, suite, ead2Capacity, prk2e, th2, m.ciphertext2);
      var peer :- Retrieve(responderStatic, trust, split.idCred);
      var prk3e2m :- PrkDerive(c, suite, responderStatic, prk2e, peer.g, i.x);
      var _ :- VerifySignatureOrMac(
        c, suite, responderStatic, peer.pk, Claim2(prk3e2m, th2, split.idCred, peer.cred, split.ead), split.signatureOrMac);
      var th3 :- NextTh(c, th2, m.ciphertext2);
      return Ok(Verified2(m.gY, prk3e2m, th3, split.ead));
    }

    static method BuildMsg3(c: Primitives, i: Initiator, suite: Suite, initiatorStatic: bool, v: Verified2)
      returns (r: Result<Finish>)
      requires suite.macLen <= SHA_LEN
      ensures r == Finalise(c, i, suite, initiatorStatic, v)
    {
      hide PrkDerive, Generate, CiphertextGen, EncodeByteString, NextTh;
      var prk4x3m :- PrkDerive(c, suite, initiatorStatic, v.prk3e2m, v.gY, i.i);
      var sm3 :- GenerateSignatureOrMac(
        c, suite, initiatorStatic, i.sk, i.pk, Claim3(prk4x3m, v.th3, i.idCred, i.cred, i.ead3));
      var ct3 :- GenerateCiphertext(c, Ciphertext3, suite, i.idCred, sm3, i.ead3, v.prk3e2m, v.th3);
      var _ :- CheckSize(CIPHERTEXT_SIZE, |ct3| + ENCODING_OVERHEAD);
      var msg3 :- EncodeByteString(ct3, MSG_SIZE);
      var th4 :- NextTh(c, v.th3, ct3);
      return Ok(Finish(msg3, suite, prk4x3m, th4, v.ead2));
    }

    /** `msg3_process` on the responder that sent `s`. */
    method ProcessMsg3(
        c: Primitives, r: Responder, trust: Trust, ead3Capacity: nat, ghost s: Reply) returns (d: Result<Done>)
      requires Holds(s) && suite.macLen <= SHA_LEN
      ensures d == Msg3Process(c, r, s, trust, msg3, ead3Capacity)
    {
      hide DecodeByteString, PrkDerive, Verify, DecryptSplit, RetrieveCred, NextTh;
      var ct3 :- DecodeByteString(msg3, CIPHERTEXT_SIZE);
      var split :- OpenCiphertext(c, Ciphertext3, suite, ead3Capacity, prk3e2m, th3, ct3);
      var peer :- Retrieve(staticDhI, trust, split.idCred);
      var prk4x3m :- PrkDerive(c, suite, staticDhI, prk3e2m, peer.g, r.y);
      var _ :- VerifySignatureOrMac(
        c, suite, staticDhI, peer.pk, Claim3(prk4x3m, th3, split.idCred, peer.cred, split.ead), split.signatureOrMac);
      var th4 :- NextTh(c, th3, ct3);
      return Ok(Done(prk4x3m, th4, split.ead));
    }

    method GenerateMsg4(c: Primitives, r: Responder, prk4x3m: Digest, th4: Digest) returns (o: Result<()>)
      modifies this`msg4
      ensures var m := Msg4Gen(c, r, suite, prk4x3m, th4);
        && (m.Fail? ==> o == Fail(m.err) && msg4 == old(msg4))
        && (m.Ok? ==> o == Ok(()) && msg4 == m.value)
    {
      hide CiphertextGen, EncodeByteString;
      var ct4 :- GenerateCiphertext(c, Ciphertext4, suite, [], [], r.ead4, prk4x3m, th4);
      msg4 :- EncodeByteString(ct4, MSG_SIZE);
      return Ok(());
    }

    method ProcessMsg4(c: Primitives, prk4x3m: Digest, th4: Digest, ead4Capacity: nat) returns (ead4: Result<Bytes>)
      ensures ead4 == Msg4Process(c, suite, prk4x3m, th4, msg4, ead4Capacity)
    {
      hide DecodeByteString, DecryptSplit;
      var ct4 :- DecodeByteString(msg4, CIPHERTEXT_SIZE);
      var split :- OpenCiphertext(c, Ciphertext4, suite, ead4Capacity, prk4x3m, th4, ct4);
      return Ok(split.ead);
    }
  }
}
