/** Signature_or_MAC_2 and Signature_or_MAC_3: generation and verification. */
module SignatureOrMac {
  import opened Common
  import opened Crypto
  import opened Cbor
  import opened CoapOption
  import opened Suites
  import opened KeySchedule

  const CONTEXT_MAC_SIZE := 1200
  const SIGNATURE_STRUCT_SIZE := 1200
  const EXTERNAL_AAD_SIZE := 888

  /** What is authenticated, and under which key. */
  datatype Claim = Claim(prk: Digest, th: Digest, idCred: Bytes, cred: Bytes, ead: Bytes, name: string)

  function MacContext(m: Claim): Bytes {
    m.idCred + m.cred + m.ead
  }

  function MacLen(suite: Suite, staticDh: bool): nat {
    if staticDh then suite.macLen else SHA_LEN
  }

  function Mac(c: Primitives, suite: Suite, staticDh: bool, m: Claim): (r: Result<Bytes>)
    ensures r.Ok? ==> |r.value| == MacLen(suite, staticDh)
  {
    if CONTEXT_MAC_SIZE < |MacContext(m)| then Fail(BufferToSmall)
    else OkmCalc(c, m.prk, m.th, m.name, MacContext(m), MacLen(suite, staticDh))
  }

  /** `mac`: the context is concatenated in a buffer. */
  method MacInto(c: Primitives, m: Claim, out: array<byte>) returns (r: Result<()>)
    requires out.Length <= SHA_LEN
    modifies out
    ensures var context := MacContext(m);
      if CONTEXT_MAC_SIZE < |context| then r == Fail(BufferToSmall) else
      var okm := OkmCalc(c, m.prk, m.th, m.name, context, out.Length);
      && (okm.Fail? ==> r == Fail(okm.err))
      && (okm.Ok? ==> r.Ok? && out[..] == okm.value)
  {
    hide OkmCalc;
    var len := |m.idCred| + |m.cred| + |m.ead|;
    if CONTEXT_MAC_SIZE < len {
      return Fail(BufferToSmall);
    }
    var context := new byte[CONTEXT_MAC_SIZE];
    assert context[..0] == [];
    Append(m.idCred, context, 0);
    Append(m.cred, context, |m.idCred|);
    Append(m.ead, context, |m.idCred| + |m.cred|);
    assert context[..len] == MacContext(m);
    r := OkmInto(c, m.prk, m.th, m.name, context[..len], out);
  }

  /** `signature_struct_gen`: the Sig_structure of section 4.4 of RFC 8152. */
  function SignatureStruct(m: Claim, mac: Bytes): Result<Bytes> {
    var aad := EncodeBstr(m.th) + m.cred + m.ead;
    if EXTERNAL_AAD_SIZE < |aad| then Fail(BufferToSmall)
    else
      var s := Head(List, 4) + EncodeTstr(Ascii("Signature1")) + EncodeBstr(m.idCred) + EncodeBstr(aad) + EncodeBstr(mac);
      if SIGNATURE_STRUCT_SIZE < |s| then Fail(UnexpectedResult) else Ok(s)
  }

  /** All outcomes by size: 1200 bytes of context for the MAC, 888 of external AAD and 1200 for what is signed. */
  lemma {:induction false} MacOutcome(c: Primitives, suite: Suite, staticDh: bool, m: Claim)
    ensures var size := |m.idCred| + |m.cred| + |m.ead|;
      var info := OkmInfo(m.th, m.name, m.idCred + m.cred + m.ead, MacLen(suite, staticDh));
      && (Mac(c, suite, staticDh, m).Ok? <==> |info| <= 1167)
      && (Mac(c, suite, staticDh, m).Fail? ==>
            Mac(c, suite, staticDh, m).err == if size > 1200 then BufferToSmall else UnexpectedResult)
  {
    OkmOutcome(c, m.prk, m.th, m.name, MacContext(m), MacLen(suite, staticDh));
    OkmInfoIsLonger(m.th, m.name, MacContext(m), MacLen(suite, staticDh));
    hide OkmCalc, OkmInfo;
  }

  lemma {:induction false} OkmInfoIsLonger(th: Bytes, name: string, context: Bytes, len: nat)
    ensures |OkmInfo(th, name, context, len)| > |context|
  {
    hide Head;
  }

  lemma {:induction false} SignatureStructOutcome(m: Claim, mac: Bytes)
    ensures var aad := EncodeBstr(m.th) + m.cred + m.ead;
      var size := 12 + |EncodeBstr(m.idCred)| + |EncodeBstr(aad)| + |EncodeBstr(mac)|;
      var s := SignatureStruct(m, mac);
      && (s.Ok? <==> 34 + |m.cred| + |m.ead| <= 888 && size <= 1200)
      && (s.Fail? ==> s.err == if 34 + |m.cred| + |m.ead| > 888 then BufferToSmall else UnexpectedResult)
  {
    hide Head;
  }

  // ----- what is authenticated -----

  /** The members of a Sig_structure, whose external AAD is a transcript hash in front of CRED and EAD. */
  datatype SignedText = SignedText(idCred: Bytes, th: Bytes, credAndEad: Bytes, mac: Bytes)

  /** "Signature1" */
  const SIGNATURE1: Bytes := [0x53, 0x69, 0x67, 0x6E, 0x61, 0x74, 0x75, 0x72, 0x65, 0x31]

  function ReadSignedText(s: Bytes): Result<SignedText> {
    var list :- Expect(s, 0, List);
    var context :- ReadTstr(s, list.next);
    var idCred :- ReadBstr(s, context.next);
    var aad :- ReadBstr(s, idCred.next);
    var mac :- ReadBstr(s, aad.next);
    var th :- ReadBstr(aad.value, 0);
    if list.value == 4 && context.value == SIGNATURE1 && mac.next == |s|
    then Ok(SignedText(idCred.value, th.value, aad.value[th.next..], mac.value))
    else Fail(UnexpectedResult)
  }

  lemma {:induction false} AadReads(th: Digest, rest: Bytes)
    ensures ReadBstr(EncodeBstr(th) + rest, 0) == Ok(Item(th, |EncodeBstr(th)|))
    ensures (EncodeBstr(th) + rest)[|EncodeBstr(th)|..] == rest
  {
    hide EncodeBstr, ReadBstr, At;
    var aad := EncodeBstr(th) + rest;
    AtWhole(aad);
    AtSplit(aad, 0, EncodeBstr(th), rest);
    ReadBstrAt(aad, 0, th);
  }

  lemma {:induction false} SignatureStructIs(m: Claim, mac: Bytes)
    requires SignatureStruct(m, mac).Ok?
    ensures var aad, s := EncodeBstr(m.th) + (m.cred + m.ead), SignatureStruct(m, mac).value;
      && s == Head(List, 4) + EncodeTstr(SIGNATURE1) + EncodeBstr(m.idCred) + EncodeBstr(aad) + EncodeBstr(mac)
      && |s| < LIMIT
  {
    hide EncodeBstr, EncodeTstr, Head;
    assert Ascii("Signature1") == SIGNATURE1;
    assert EncodeBstr(m.th) + m.cred + m.ead == EncodeBstr(m.th) + (m.cred + m.ead);
  }

  lemma {:induction false} SignedTextReads(s: Bytes, idCred: Bytes, aad: Bytes, mac: Bytes)
    requires s == Head(List, 4) + EncodeTstr(SIGNATURE1) + EncodeBstr(idCred) + EncodeBstr(aad) + EncodeBstr(mac)
    requires |s| < LIMIT && ReadBstr(aad, 0).Ok?
    ensures var th := ReadBstr(aad, 0).value;
      ReadSignedText(s) == Ok(SignedText(idCred, th.value, aad[th.next..], mac))
  {
    hide EncodeBstr, EncodeTstr, ReadBstr, ReadTstr, Expect, Head, At;
    var a, b, d, e, f := Head(List, 4), EncodeTstr(SIGNATURE1), EncodeBstr(idCred), EncodeBstr(aad), EncodeBstr(mac);
    AtParts(a, b, d, e, f);
    ExpectAt(s, 0, List, 4);
    ReadTstrAt(s, |a|, SIGNATURE1);
    ReadBstrAt(s, |a| + |b|, idCred);
    ReadBstrAt(s, |a| + |b| + |d|, aad);
    ReadBstrAt(s, |a| + |b| + |d| + |e|, mac);
  }

  /** A Sig_structure is an array of four: "Signature1", ID_CRED, TH with CRED and EAD, and the MAC. */
  lemma {:induction false} SignatureStructReads(m: Claim, mac: Bytes)
    requires SignatureStruct(m, mac).Ok?
    ensures ReadSignedText(SignatureStruct(m, mac).value) == Ok(SignedText(m.idCred, m.th, m.cred + m.ead, mac))
  {
    hide ReadSignedText, SignatureStruct, EncodeBstr, EncodeTstr, ReadBstr, Head;
    SignatureStructIs(m, mac);
    AadReads(m.th, m.cred + m.ead);
    SignedTextReads(SignatureStruct(m, mac).value, m.idCred, EncodeBstr(m.th) + (m.cred + m.ead), mac);
  }

  /** The MAC is drawn from PRK and TH over ID_CRED, CRED and EAD, in this order. */
  ghost predicate IsMac(c: Primitives, m: Claim, mac: Bytes) {
    DrawnFrom(c, m.prk, m.th, Ascii(m.name), m.idCred + m.cred + m.ead, mac)
  }

  lemma {:induction false} MacIs(c: Primitives, suite: Suite, staticDh: bool, m: Claim)
    requires Mac(c, suite, staticDh, m).Ok?
    ensures IsMac(c, m, Mac(c, suite, staticDh, m).value)
  {
    hide OkmCalc, DrawnFrom, Ascii;
    OkmIsDrawn(c, m.prk, m.th, m.name, MacContext(m), MacLen(suite, staticDh));
  }

  /** A Sig_structure over the claim with a MAC of 32 bytes. */
  ghost predicate IsSignedText(c: Primitives, m: Claim, text: Bytes) {
    exists mac :: |mac| == 32 && IsMac(c, m, mac) &&
                  ReadSignedText(text) == Ok(SignedText(m.idCred, m.th, m.cred + m.ead, mac))
  }

  /** `signature_or_mac` with GENERATE. */
  function Generate(c: Primitives, suite: Suite, staticDh: bool, sk: Bytes, pk: Bytes, m: Claim): Result<Bytes> {
    var mac :- Mac(c, suite, staticDh, m);
    if staticDh then Ok(mac)
    else
      var s :- SignatureStruct(m, mac);
      Ok(c.sign(suite.sign, sk, pk, s))
  }

  /** `memcmp` over the received length, of a buffer of which `mac` is written. */
  function SameMac(mac: Bytes, received: Bytes): Result<bool> {
    if |received| <= |mac| then Ok(received == mac[..|received|])
    else if received[..|mac|] != mac then Ok(false)
    else Fail(Undefined)
  }

  /** `signature_or_mac` with VERIFY. */
  function Verify(c: Primitives, suite: Suite, staticDh: bool, pk: Bytes, m: Claim, received: Bytes): Result<()> {
    var mac :- Mac(c, suite, staticDh, m);
    if staticDh then
      var same :- SameMac(mac, received);
      if same then Ok(()) else Fail(MacAuthenticationFailed)
    else
      var s :- SignatureStruct(m, mac);
      if c.verify(suite.sign, pk, s, received) then Ok(()) else Fail(SignatureAuthenticationFailed)
  }

  method GenerateSignatureOrMac(c: Primitives, suite: Suite, staticDh: bool, sk: Bytes, pk: Bytes, m: Claim)
    returns (r: Result<Bytes>)
    requires suite.macLen <= SHA_LEN
    ensures r == Generate(c, suite, staticDh, sk, pk, m)
  {
    hide OkmCalc, SignatureStruct, MacContext;
    var mac := new byte[MacLen(suite, staticDh)];
    var _ :- MacInto(c, m, mac);
    if staticDh {
      return Ok(mac[..]);
    }
    var s :- SignatureStruct(m, mac[..]);
    return Ok(c.sign(suite.sign, sk, pk, s));
  }

  method VerifySignatureOrMac(c: Primitives, suite: Suite, staticDh: bool, pk: Bytes, m: Claim, received: Bytes)
    returns (r: Result<()>)
    requires suite.macLen <= SHA_LEN
    ensures r == Verify(c, suite, staticDh, pk, m, received)
  {
    hide OkmCalc, SignatureStruct, MacContext;
    var mac := new byte[MacLen(suite, staticDh)];
    var _ :- MacInto(c, m, mac);
    if staticDh {
      var same :- SameMac(mac[..], received);
      return if same then Ok(()) else Fail(MacAuthenticationFailed);
    }
    var s :- SignatureStruct(m, mac[..]);
    return if c.verify(suite.sign, pk, s, received) then Ok(()) else Fail(SignatureAuthenticationFailed);
  }

  /**
   * What it takes to be accepted: with static DH, a prefix of the MAC; otherwise a signature
   * that the crypto library accepts under that key, over a Sig_structure with the claim.
   */
  ghost predicate Proves(c: Primitives, suite: Suite, staticDh: bool, pk: Bytes, m: Claim, received: Bytes) {
    if staticDh then
      exists mac :: |mac| == suite.macLen && IsMac(c, m, mac) && |received| <= |mac| && received == mac[..|received|]
    else exists text :: IsSignedText(c, m, text) && c.verify(suite.sign, pk, text, received)
  }

  lemma {:induction false} VerifiedProves(
      c: Primitives, suite: Suite, staticDh: bool, pk: Bytes, m: Claim, received: Bytes)
    requires Verify(c, suite, staticDh, pk, m, received).Ok?
    ensures Proves(c, suite, staticDh, pk, m, received)
  {
    hide Mac, SignatureStruct, IsMac, ReadSignedText;
    MacIs(c, suite, staticDh, m);
    var mac := Mac(c, suite, staticDh, m).value;
    if !staticDh {
      SignatureStructReads(m, mac);
      assert IsSignedText(c, m, SignatureStruct(m, mac).value);
    }
  }

  /** What is sent: the whole MAC, or a signature over a Sig_structure with the claim. */
  ghost predicate Genuine(c: Primitives, suite: Suite, staticDh: bool, sk: Bytes, pk: Bytes, m: Claim, sent: Bytes) {
    if staticDh then |sent| == suite.macLen && IsMac(c, m, sent)
    else exists text :: IsSignedText(c, m, text) && sent == c.sign(suite.sign, sk, pk, text)
  }

  lemma {:induction false} GeneratedIsGenuine(
      c: Primitives, suite: Suite, staticDh: bool, sk: Bytes, pk: Bytes, m: Claim)
    requires Generate(c, suite, staticDh, sk, pk, m).Ok?
    ensures Genuine(c, suite, staticDh, sk, pk, m, Generate(c, suite, staticDh, sk, pk, m).value)
  {
    hide Mac, SignatureStruct, IsMac, ReadSignedText;
    MacIs(c, suite, staticDh, m);
    var mac := Mac(c, suite, staticDh, m).value;
    if !staticDh {
      SignatureStructReads(m, mac);
      assert IsSignedText(c, m, SignatureStruct(m, mac).value);
    }
  }

  /** The other side accepts what was generated over the same claim with the matching key. */
  lemma {:induction false} VerifyAccepts(
      c: Primitives, suite: Suite, staticDh: bool, sk: Bytes, pk: Bytes, m: Claim, verifyPk: Bytes)
    requires c.Laws() && Generate(c, suite, staticDh, sk, pk, m).Ok?
    requires !staticDh ==> verifyPk == pk == c.signPublic(suite.sign, sk)
    ensures Verify(c, suite, staticDh, verifyPk, m, Generate(c, suite, staticDh, sk, pk, m).value) == Ok(())
  {
    hide Mac, SignatureStruct;
  }

  /**
   * With a static DH key the received value is compared only as far as it is long: the prefixes
   * of the MAC pass, the empty one among them, and among values of full length just the MAC.
   */
  lemma {:induction false} MacAcceptedIff(c: Primitives, suite: Suite, pk: Bytes, m: Claim, received: Bytes)
    ensures var mac := Mac(c, suite, true, m);
      Verify(c, suite, true, pk, m, received) == Ok(()) <==>
        mac.Ok? && |received| <= suite.macLen && received == mac.value[..|received|]
    ensures var mac := Mac(c, suite, true, m);
      && (mac.Ok? ==> Verify(c, suite, true, pk, m, []) == Ok(()))
      && (|received| == suite.macLen ==> (Verify(c, suite, true, pk, m, received) == Ok(()) <==> mac == Ok(received)))
      && (mac.Ok? ==>
            var n := if |received| < suite.macLen then |received| else suite.macLen;
            received[..n] != mac.value[..n] ==>
              Verify(c, suite, true, pk, m, received) == Fail(MacAuthenticationFailed))
  {
    hide Mac;
    var mac := Mac(c, suite, true, m);
    if mac.Ok? {
      assert mac.value[..suite.macLen] == mac.value;
    }
  }

  /** Credentials for which every buffer of both parties is large enough. */
  predicate Affordable(idCred: Bytes, cred: Bytes) {
    |idCred| <= 562 && |cred| <= 600 && |idCred| + |cred| <= 1110
  }

  lemma {:induction false} GenerateAvailable(
      c: Primitives, suite: Suite, staticDh: bool, sk: Bytes, pk: Bytes, m: Claim)
    requires Affordable(m.idCred, m.cred) && m.ead == [] && |m.name| == 5 && suite.macLen <= 16
    ensures Generate(c, suite, staticDh, sk, pk, m).Ok?
    ensures |Generate(c, suite, staticDh, sk, pk, m).value| <= SIGNATURE_LEN
  {
    hide OkmCalc, Head;
    OkmAvailable(c, m.prk, m.th, m.name, MacContext(m), MacLen(suite, staticDh));
  }
}
