/**
 * What equal transcript hashes say about the messages of two parties, whatever the network
 * did with them.
 */
module Matching {
  import opened Common
  import opened Crypto
  import opened Cbor
  import opened Suites
  import opened KeySchedule
  import opened Transcript
  import opened Identity
  import opened SignatureOrMac
  import opened Ciphertext
  import opened Messages
  import opened Handshake

  /** What follows G_Y in message 2. */
  function Ciphertext2In(msg2: Bytes, gYLen: nat): Bytes {
    var both := ReadBstr(msg2, 0);
    if both.Ok? && gYLen <= |both.value.value| then both.value.value[gYLen..] else []
  }

  function Ciphertext3In(msg3: Bytes): Bytes {
    var ct := DecodeByteString(msg3, CIPHERTEXT_SIZE);
    if ct.Ok? then ct.value else []
  }

  /** The transcript of an initiator that sent `msg1` and `msg3` and received `msg2`. */
  function InitiatorView(i: Initiator, suite: Suite, msg1: Bytes, msg2: Bytes, msg3: Bytes): Transcript
    requires ParseMessage2(msg2, PkLen(suite.ecdh)).Ok?
  {
    var m := ParseMessage2(msg2, PkLen(suite.ecdh)).value;
    Transcript(msg1, m.gY, m.cR, m.ciphertext2, Ciphertext3In(msg3))
  }

  /** The transcript of a responder that received `msg1` and `msg3` and sent `msg2`. */
  function ResponderView(r: Responder, msg1: Bytes, msg2: Bytes, msg3: Bytes): Transcript {
    Transcript(msg1, r.gY, r.cR, Ciphertext2In(msg2, |r.gY|), Ciphertext3In(msg3))
  }

  lemma {:induction false} CiphertextInMessage2(gY: Bytes, cR: ConnectionId, ct2: Bytes)
    requires EncodeMessage2(gY, cR, ct2).Ok?
    ensures Ciphertext2In(EncodeMessage2(gY, cR, ct2).value, |gY|) == ct2
  {
    hide EncodeBstr, EncodeId, ReadBstr, At;
    var both, buf := gY + ct2, Message2Bytes(gY, cR, ct2);
    AtWhole(buf);
    AtSplit(buf, 0, EncodeBstr(both), EncodeId(cR));
    ReadBstrAt(buf, 0, both);
    assert both[|gY|..] == ct2;
  }

  lemma {:induction false} CiphertextInMessage3(ct3: Bytes)
    requires EncodeByteString(ct3, MSG_SIZE).Ok? && |ct3| <= CIPHERTEXT_SIZE
    ensures Ciphertext3In(EncodeByteString(ct3, MSG_SIZE).value) == ct3
  {
    hide EncodeByteString, DecodeByteString;
    ByteStringRoundTrip(ct3, MSG_SIZE, CIPHERTEXT_SIZE);
  }

  lemma {:induction false} Process2Hashes(
      c: Primitives, i: Initiator, trust: Trust, suite: Suite, responderStatic: bool, msg1: Bytes, msg2: Bytes, ead2Capacity: nat)
    requires Process2(c, i, trust, suite, responderStatic, msg1, msg2, ead2Capacity).Ok?
    ensures ParseMessage2(msg2, PkLen(suite.ecdh)).Ok?
    ensures forall msg3 :: Th3Of(c, InitiatorView(i, suite, msg1, msg2, msg3)) ==
                           Ok(Process2(c, i, trust, suite, responderStatic, msg1, msg2, ead2Capacity).value.th3)
  {
    hide ParseMessage2, SharedSecret, Th2, DecryptSplit, RetrieveCred, PrkDerive, Verify, NextTh, Prk2e;
  }

  lemma {:induction false} FinaliseHashes(
      c: Primitives, i: Initiator, suite: Suite, initiatorStatic: bool, v: Verified2)
    requires Finalise(c, i, suite, initiatorStatic, v).Ok?
    ensures var f := Finalise(c, i, suite, initiatorStatic, v).value;
      NextTh(c, v.th3, Ciphertext3In(f.msg3)) == Ok(f.th4)
  {
    hide PrkDerive, Generate, CiphertextGen, EncodeByteString, NextTh, Ciphertext3In;
    var prk4x3m := PrkDerive(c, suite, initiatorStatic, v.prk3e2m, v.gY, i.i).value;
    var sm3 := Generate(c, suite, initiatorStatic, i.sk, i.pk, Claim3(prk4x3m, v.th3, i.idCred, i.cred, i.ead3)).value;
    var ct3 := CiphertextGen(c, Ciphertext3, suite, i.idCred, sm3, i.ead3, v.prk3e2m, v.th3).value;
    CiphertextInMessage3(ct3);
  }

  /** The initiator's TH_4 is the hash of its transcript. */
  lemma {:induction false} InitiatorHashes(
      c: Primitives, i: Initiator, trust: Trust, msg1: Bytes, msg2: Bytes, ead2Capacity: nat)
    requires Msg3Gen(c, i, trust, msg1, msg2, ead2Capacity).Ok?
    ensures var f := Msg3Gen(c, i, trust, msg1, msg2, ead2Capacity).value;
      && ParseMessage2(msg2, PkLen(f.suite.ecdh)).Ok?
      && Th4Of(c, InitiatorView(i, f.suite, msg1, msg2, f.msg3)) == Ok(f.th4)
  {
    hide Process2, Finalise, Ciphertext3In, ParseMessage2, Th3Of, NextTh;
    var suite := GetSuite(i.suitesI[|i.suitesI| - 1]).value;
    var auth := AuthTypeOf(i.methodType, AuthType(false, false));
    var v := Process2(c, i, trust, suite, auth.responderStatic, msg1, msg2, ead2Capacity).value;
    Process2Hashes(c, i, trust, suite, auth.responderStatic, msg1, msg2, ead2Capacity);
    FinaliseHashes(c, i, suite, auth.initiatorStatic, v);
  }

  lemma {:induction false} RespondHashes(
      c: Primitives, r: Responder, msg1: Bytes, m: Parsed1, suite: Suite, auth: AuthType)
    requires Respond(c, r, msg1, m, suite, auth).Ok?
    ensures var s := Respond(c, r, msg1, m, suite, auth).value;
      forall msg3 :: Th3Of(c, ResponderView(r, msg1, s.msg2, msg3)) == Ok(s.th3)
  {
    hide SharedSecret, Th2, CiphertextGen, Generate, PrkDerive, NextTh, Prk2e, EncodeMessage2, Ciphertext2In, Ciphertext3In;
    var th2 := Th2(c, msg1, r.gY, r.cR).value;
    var prk2e := Prk2e(c, SharedSecret(c, suite.ecdh, r.y, m.gX).value);
    var prk3e2m := PrkDerive(c, suite, auth.responderStatic, prk2e, m.gX, r.r).value;
    var sm2 := Generate(c, suite, auth.responderStatic, r.sk, r.pk, Claim2(prk3e2m, th2, r.idCred, r.cred, r.ead2)).value;
    CiphertextInMessage2(r.gY, r.cR, CiphertextGen(c, Ciphertext2, suite, r.idCred, sm2, r.ead2, prk2e, th2).value);
  }

  /** The responder's TH_4 is the hash of its transcript. */
  lemma {:induction false} ResponderHashes(
      c: Primitives, r: Responder, trust: Trust, msg1: Bytes, msg3: Bytes, ead1Capacity: nat, ead3Capacity: nat)
    requires Msg2Gen(c, r, msg1, ead1Capacity).Ok?
    requires Msg3Process(c, r, Msg2Gen(c, r, msg1, ead1Capacity).value, trust, msg3, ead3Capacity).Ok?
    ensures var s := Msg2Gen(c, r, msg1, ead1Capacity).value;
      Th4Of(c, ResponderView(r, msg1, s.msg2, msg3)) == Ok(Msg3Process(c, r, s, trust, msg3, ead3Capacity).value.th4)
  {
    hide ParseMessage1, Respond, DecryptSplit, RetrieveCred, PrkDerive, Verify, NextTh, DecodeByteString, Th3Of, Ciphertext2In;
    var m := ParseMessage1(msg1, ead1Capacity).value;
    var accepted := Accept(r, m).value;
    RespondHashes(c, r, msg1, m, accepted.0, accepted.1);
  }

  /**
   * Two parties that finish with the same TH_4 hold the same message_1, G_Y, C_R, CIPHERTEXT_2
   * and CIPHERTEXT_3, whatever messages the network handed them, unless two of the strings they
   * hashed collide.
   */
  lemma {:induction false} EqualTh4EqualMessages(
      c: Primitives, i: Initiator, trustI: Trust, sent1: Bytes, received2: Bytes, ead2Capacity: nat,
      r: Responder, trustR: Trust, received1: Bytes, received3: Bytes, ead1Capacity: nat, ead3Capacity: nat)
    requires Msg3Gen(c, i, trustI, sent1, received2, ead2Capacity).Ok?
    requires Msg2Gen(c, r, received1, ead1Capacity).Ok?
    requires Msg3Process(c, r, Msg2Gen(c, r, received1, ead1Capacity).value, trustR, received3, ead3Capacity).Ok?
    ensures var f := Msg3Gen(c, i, trustI, sent1, received2, ead2Capacity).value;
      var s := Msg2Gen(c, r, received1, ead1Capacity).value;
      var d := Msg3Process(c, r, s, trustR, received3, ead3Capacity).value;
      && ParseMessage2(received2, PkLen(f.suite.ecdh)).Ok?
      && var vi, vr := InitiatorView(i, f.suite, sent1, received2, f.msg3), ResponderView(r, received1, s.msg2, received3);
      && Th4Of(c, vi).Ok? && Th4Of(c, vr).Ok?
      && (CollisionFree(c, HashInputs(c, vi) + HashInputs(c, vr)) ==>
            (f.th4 == d.th4 <==> vi == vr))
  {
    hide Msg3Gen, Msg2Gen, Msg3Process, Th4Of, HashInputs, CollisionFree, InitiatorView, ResponderView, ParseMessage2;
    var f := Msg3Gen(c, i, trustI, sent1, received2, ead2Capacity).value;
    var s := Msg2Gen(c, r, received1, ead1Capacity).value;
    InitiatorHashes(c, i, trustI, sent1, received2, ead2Capacity);
    ResponderHashes(c, r, trustR, received1, received3, ead1Capacity, ead3Capacity);
    var vi, vr := InitiatorView(i, f.suite, sent1, received2, f.msg3), ResponderView(r, received1, s.msg2, received3);
    if CollisionFree(c, HashInputs(c, vi) + HashInputs(c, vr)) {
      TranscriptBinding(c, vi, vr);
    }
  }
}
