/** CIPHERTEXT_2, CIPHERTEXT_3 and CIPHERTEXT_4 (section 5 of draft-ietf-lake-edhoc-12). */
module Ciphertext {
  import opened Common
  import opened Crypto
  import opened Cbor
  import opened CoapOption
  import opened Cose
  import opened Suites
  import opened KeySchedule
  import opened Identity

  datatype Which = Ciphertext2 | Ciphertext3 | Ciphertext4

  datatype Keys = Keys(key: Bytes, iv: Bytes)

  /** `key_gen`: a keystream for ciphertext 2, key and IV for the others. */
  function KeyGen(c: Primitives, which: Which, prk: Digest, th: Digest, keyLen: nat): (r: Result<Keys>)
    requires keyLen <= PLAINTEXT_SIZE
    ensures r.Ok? ==> |r.value.key| == keyLen
  {
    match which
    case Ciphertext2 =>
      var key :- OkmCalc(c, prk, th, "KEYSTREAM_2", [], keyLen);
      Ok(Keys(key, []))
    case Ciphertext3 =>
      var key :- OkmCalc(c, prk, th, "K_3", [], keyLen);
      var iv :- OkmCalc(c, prk, th, "IV_3", [], AEAD_IV_LEN);
      Ok(Keys(key, iv))
    case Ciphertext4 =>
      var key :- Exporter(c, prk, th, "EDHOC_K_4", keyLen);
      var iv :- Exporter(c, prk, th, "EDHOC_IV_4", AEAD_IV_LEN);
      Ok(Keys(key, iv))
  }

  function KeyLen(which: Which, textLen: nat): nat {
    if which.Ciphertext2? then textLen else AEAD_KEY_LEN
  }

  function TagLen(which: Which, suite: Suite): byte {
    if which.Ciphertext2? then 0 else suite.tagLen
  }

  /** The plaintext that `ciphertext_gen` assembles. */
  function Plaintext(which: Which, idCred: Bytes, signatureOrMac: Bytes, ead: Bytes): (r: Result<Bytes>)
    ensures r.Ok? ==> |r.value| <= PLAINTEXT_SIZE
  {
    if !which.Ciphertext4? then PlaintextOf(idCred, signatureOrMac, ead)
    else if SGN_OR_MAC_SIZE < |signatureOrMac| + 2 || PLAINTEXT_SIZE < |ead| then Fail(BufferToSmall)
    else Ok(ead)
  }

  function Encipher(c: Primitives, which: Which, suite: Suite, k: Keys, th: Digest, plaintext: Bytes): Bytes
    requires which.Ciphertext2? ==> |k.key| == |plaintext|
  {
    if which.Ciphertext2? then XorBytes(plaintext, k.key)
    else c.seal(k.key, k.iv, EncStructure(th), plaintext, suite.tagLen)
  }

  /** `ciphertext_gen`; the ciphertext buffer has the size of the plaintext buffer. */
  function CiphertextGen(
      c: Primitives, which: Which, suite: Suite, idCred: Bytes, signatureOrMac: Bytes, ead: Bytes, prk: Digest, th: Digest)
    : Result<Bytes>
  {
    var plaintext :- Plaintext(which, idCred, signatureOrMac, ead);
    var k :- KeyGen(c, which, prk, th, KeyLen(which, |plaintext|));
    if PLAINTEXT_SIZE < |plaintext| + TagLen(which, suite) then Fail(Undefined)
    else Ok(Encipher(c, which, suite, k, th, plaintext))
  }

  function Decipher(c: Primitives, which: Which, suite: Suite, k: Keys, th: Digest, ciphertext: Bytes): Result<Bytes>
    requires which.Ciphertext2? ==> |k.key| == |ciphertext|
  {
    if which.Ciphertext2? then Ok(XorBytes(ciphertext, k.key))
    else
      var p := c.open(k.key, k.iv, EncStructure(th), ciphertext, suite.tagLen);
      if p.None? then Fail(UnexpectedResult) else Ok(p.value)
  }

  function SplitOf(which: Which, plaintext: Bytes, eadCapacity: nat): Result<Split> {
    if !which.Ciphertext4? then PlaintextSplit(plaintext, eadCapacity)
    else if plaintext == [] then Ok(Split([], [], []))
    else
      var ead :- ReadBstr(plaintext, 0);
      if eadCapacity < |ead.value| then Fail(BufferToSmall) else Ok(Split([], [], ead.value))
  }

  /** `ciphertext_decrypt_split`; the plaintext length is a 32-bit difference. */
  function DecryptSplit(
      c: Primitives, which: Which, suite: Suite, eadCapacity: nat, prk: Digest, th: Digest, ciphertext: Bytes)
    : Result<Split>
  {
    var keyLen := KeyLen(which, |ciphertext|);
    if PLAINTEXT_SIZE < keyLen then Fail(BufferToSmall) else
    var k :- KeyGen(c, which, prk, th, keyLen);
    var textLen: int := |ciphertext| - TagLen(which, suite);
    if PLAINTEXT_SIZE < U32(textLen) then Fail(BufferToSmall) else
    var plaintext :- Decipher(c, which, suite, k, th, ciphertext);
    SplitOf(which, plaintext, eadCapacity)
  }

  // ----- the imperative form -----

  /** `xor_arrays` */
  method XorArrays(in1: array<byte>, in2: array<byte>, out: array<byte>)
    requires in1.Length == in2.Length <= out.Length && out != in1 && out != in2
    modifies out
    ensures out[..in1.Length] == XorBytes(in1[..], in2[..])
  {
    hide Xor;
    for i := 0 to in1.Length
      invariant forall k :: 0 <= k < i ==> out[k] == Xor(in1[k], in2[k])
    {
      out[i] := Xor(in1[i], in2[i]);
    }
  }

  /** Assembles the plaintext in its buffer, with a running length. */
  method WritePlaintext(which: Which, idCred: Bytes, signatureOrMac: Bytes, ead: Bytes, plaintext: array<byte>)
    returns (r: Result<nat>)
    requires plaintext.Length == PLAINTEXT_SIZE
    modifies plaintext
    ensures var p := Plaintext(which, idCred, signatureOrMac, ead);
      && (p.Fail? ==> r == Fail(p.err))
      && (p.Ok? ==> r == Ok(|p.value|) && plaintext[..|p.value|] == p.value)
  {
    hide Conveyed, EncodeBstr;
    var _ :- CheckSize(SGN_OR_MAC_SIZE, |signatureOrMac| + 2);
    var len := 0;
    assert plaintext[..len] == [];
    if !which.Ciphertext4? {
      var id :- Conveyed(idCred);
      var encoded := EncodeBstr(signatureOrMac);
      var _ :- CheckSize(plaintext.Length, |id|);
      Append(id, plaintext, 0);
      var _ :- CheckSize(plaintext.Length - |id|, |encoded|);
      Append(encoded, plaintext, |id|);
      len := |id| + |encoded|;
      assert plaintext[..len] == id + encoded;
    }
    var _ :- CheckSize(plaintext.Length - len, |ead|);
    Append(ead, plaintext, len);
    return Ok(len + |ead|);
  }

  /** The encryption or decryption by keystream, on buffers. */
  method ApplyKeystream(text: Bytes, key: Bytes) returns (r: Bytes)
    requires |text| == |key| <= PLAINTEXT_SIZE
    ensures r == XorBytes(text, key)
  {
    var a, b, out := new byte[|text|], new byte[|key|], new byte[PLAINTEXT_SIZE];
    CopyInto(a, 0, text);
    CopyInto(b, 0, key);
    assert a[..] == a[0..|text|] && b[..] == b[0..|key|];
    XorArrays(a, b, out);
    r := out[..|text|];
  }

  method GenerateCiphertext(
      c: Primitives, which: Which, suite: Suite, idCred: Bytes, signatureOrMac: Bytes, ead: Bytes, prk: Digest, th: Digest)
    returns (r: Result<Bytes>)
    ensures r == CiphertextGen(c, which, suite, idCred, signatureOrMac, ead, prk, th)
  {
    hide KeyGen, Plaintext, XorBytes, EncStructure;
    var buf := new byte[PLAINTEXT_SIZE];
    var len :- WritePlaintext(which, idCred, signatureOrMac, ead, buf);
    var k :- KeyGen(c, which, prk, th, KeyLen(which, len));
    if PLAINTEXT_SIZE < len + TagLen(which, suite) {
      return Fail(Undefined);
    }
    if which.Ciphertext2? {
      var out := ApplyKeystream(buf[..len], k.key);
      return Ok(out);
    }
    return Ok(c.seal(k.key, k.iv, EncStructure(th), buf[..len], suite.tagLen));
  }

  method OpenCiphertext(
      c: Primitives, which: Which, suite: Suite, eadCapacity: nat, prk: Digest, th: Digest, ciphertext: Bytes)
    returns (r: Result<Split>)
    ensures r == DecryptSplit(c, which, suite, eadCapacity, prk, th, ciphertext)
  {
    hide KeyGen, SplitOf, XorBytes, EncStructure;
    var keyLen := KeyLen(which, |ciphertext|);
    var _ :- CheckSize(PLAINTEXT_SIZE, keyLen);
    var k :- KeyGen(c, which, prk, th, keyLen);
    var textLen: int := |ciphertext| - TagLen(which, suite);
    var _ :- CheckSize(PLAINTEXT_SIZE, U32(textLen));
    if which.Ciphertext2? {
      var plaintext := ApplyKeystream(ciphertext, k.key);
      return SplitOf(which, plaintext, eadCapacity);
    }
    var opening := c.open(k.key, k.iv, EncStructure(th), ciphertext, suite.tagLen);
    if opening.None? {
      return Fail(UnexpectedResult);
    }
    return SplitOf(which, opening.value, eadCapacity);
  }

  // ----- under which keys -----

  /** "KEYSTREAM_2", "K_3", "IV_3", "EDHOC_K_4" and "EDHOC_IV_4" */
  const KEYSTREAM_2: Bytes := [0x4B, 0x45, 0x59, 0x53, 0x54, 0x52, 0x45, 0x41, 0x4D, 0x5F, 0x32]
  const K_3: Bytes := [0x4B, 0x5F, 0x33]
  const IV_3: Bytes := [0x49, 0x56, 0x5F, 0x33]
  const EDHOC_K_4: Bytes := [0x45, 0x44, 0x48, 0x4F, 0x43, 0x5F, 0x4B, 0x5F, 0x34]
  const EDHOC_IV_4: Bytes := [0x45, 0x44, 0x48, 0x4F, 0x43, 0x5F, 0x49, 0x56, 0x5F, 0x34]

  /** A keystream for message 2; key and IV for messages 3 and 4. */
  ghost predicate KeysAre(c: Primitives, which: Which, prk: Digest, th: Digest, k: Keys) {
    match which
    case Ciphertext2 => DrawnFrom(c, prk, th, KEYSTREAM_2, [], k.key)
    case Ciphertext3 =>
      |k.key| == 16 && |k.iv| == 13 && DrawnFrom(c, prk, th, K_3, [], k.key) && DrawnFrom(c, prk, th, IV_3, [], k.iv)
    case Ciphertext4 =>
      && |k.key| == 16 && |k.iv| == 13
      && DrawnFrom(c, prk, th, EDHOC_K_4, [], k.key) && DrawnFrom(c, prk, th, EDHOC_IV_4, [], k.iv)
  }

  lemma {:induction false} LabelBytes()
    ensures Ascii("KEYSTREAM_2") == KEYSTREAM_2 && Ascii("K_3") == K_3 && Ascii("IV_3") == IV_3
    ensures Ascii("EDHOC_K_4") == EDHOC_K_4 && Ascii("EDHOC_IV_4") == EDHOC_IV_4
  {
  }

  lemma {:induction false} GeneratedKeysAre(c: Primitives, which: Which, prk: Digest, th: Digest, keyLen: nat)
    requires keyLen <= PLAINTEXT_SIZE && (which.Ciphertext2? || keyLen == 16)
    requires KeyGen(c, which, prk, th, keyLen).Ok?
    ensures KeysAre(c, which, prk, th, KeyGen(c, which, prk, th, keyLen).value)
  {
    hide OkmCalc, DrawnFrom, Ascii;
    LabelBytes();
    match which
    case Ciphertext2 =>
      OkmIsDrawn(c, prk, th, "KEYSTREAM_2", [], keyLen);
    case Ciphertext3 =>
      OkmIsDrawn(c, prk, th, "K_3", [], keyLen);
      OkmIsDrawn(c, prk, th, "IV_3", [], AEAD_IV_LEN);
    case Ciphertext4 =>
      OkmIsDrawn(c, prk, th, "EDHOC_K_4", [], keyLen);
      OkmIsDrawn(c, prk, th, "EDHOC_IV_4", [], AEAD_IV_LEN);
  }

  /** The plaintext of message 4 is EAD_4, up to 650 bytes. */
  lemma {:induction false} Plaintext4Outcome(ead: Bytes)
    ensures Plaintext(Ciphertext4, [], [], ead) == if |ead| > 650 then Fail(BufferToSmall) else Ok(ead)
  {
  }

  /** A ciphertext is the plaintext under a keystream for message 2, and sealed with TH as external AAD for the others. */
  ghost predicate Enciphers(
      c: Primitives, which: Which, suite: Suite, prk: Digest, th: Digest, plaintext: Bytes, ciphertext: Bytes)
  {
    exists k :: KeysAre(c, which, prk, th, k) &&
                if which.Ciphertext2? then |k.key| == |plaintext| && ciphertext == XorBytes(plaintext, k.key)
                else ciphertext == c.seal(k.key, k.iv, EncStructure(th), plaintext, suite.tagLen)
  }

  lemma {:induction false} CiphertextIs(
      c: Primitives, which: Which, suite: Suite, idCred: Bytes, signatureOrMac: Bytes, ead: Bytes, prk: Digest, th: Digest)
    requires CiphertextGen(c, which, suite, idCred, signatureOrMac, ead, prk, th).Ok?
    ensures Plaintext(which, idCred, signatureOrMac, ead).Ok?
    ensures Enciphers(
        c, which, suite, prk, th, Plaintext(which, idCred, signatureOrMac, ead).value,
        CiphertextGen(c, which, suite, idCred, signatureOrMac, ead, prk, th).value)
  {
    hide Plaintext, KeyGen, KeysAre, EncStructure, XorBytes;
    var plaintext := Plaintext(which, idCred, signatureOrMac, ead).value;
    GeneratedKeysAre(c, which, prk, th, KeyLen(which, |plaintext|));
    assert KeysAre(c, which, prk, th, KeyGen(c, which, prk, th, KeyLen(which, |plaintext|)).value);
  }

  /** What a received ciphertext decrypts to; only messages 3 and 4 are protected by the AEAD. */
  ghost predicate Deciphers(
      c: Primitives, which: Which, suite: Suite, prk: Digest, th: Digest, ciphertext: Bytes, plaintext: Bytes)
  {
    exists k :: KeysAre(c, which, prk, th, k) &&
                if which.Ciphertext2? then |k.key| == |ciphertext| && plaintext == XorBytes(ciphertext, k.key)
                else c.open(k.key, k.iv, EncStructure(th), ciphertext, suite.tagLen) == Some(plaintext)
  }

  lemma {:induction false} SplitWasDeciphered(
      c: Primitives, which: Which, suite: Suite, eadCapacity: nat, prk: Digest, th: Digest, ciphertext: Bytes)
    requires DecryptSplit(c, which, suite, eadCapacity, prk, th, ciphertext).Ok?
    ensures which.Ciphertext2? ==> |ciphertext| <= 650
    ensures !which.Ciphertext2? && |ciphertext| < LIMIT ==> suite.tagLen <= |ciphertext| <= 650 + suite.tagLen
    ensures exists plaintext ::
      && Deciphers(c, which, suite, prk, th, ciphertext, plaintext)
      && DecryptSplit(c, which, suite, eadCapacity, prk, th, ciphertext) == SplitOf(which, plaintext, eadCapacity)
  {
    hide KeyGen, KeysAre, EncStructure, XorBytes, SplitOf;
    var keyLen := KeyLen(which, |ciphertext|);
    var k := KeyGen(c, which, prk, th, keyLen).value;
    GeneratedKeysAre(c, which, prk, th, keyLen);
    var plaintext := Decipher(c, which, suite, k, th, ciphertext).value;
    assert KeysAre(c, which, prk, th, k);
    assert Deciphers(c, which, suite, prk, th, ciphertext, plaintext);
  }

  // ----- one undoes the other -----

  lemma {:induction false} DecipherEnciphered(
      c: Primitives, which: Which, suite: Suite, k: Keys, th: Digest, plaintext: Bytes)
    requires c.Laws() && (which.Ciphertext2? ==> |k.key| == |plaintext|)
    ensures |Encipher(c, which, suite, k, th, plaintext)| == |plaintext| + TagLen(which, suite)
    ensures Decipher(c, which, suite, k, th, Encipher(c, which, suite, k, th, plaintext)) == Ok(plaintext)
  {
    hide EncStructure, XorBytes;
    if which.Ciphertext2? {
      XorBytesInvolutive(plaintext, k.key);
    }
  }

  lemma {:induction false} SplitPlaintext(which: Which, i: IdCred, signatureOrMac: Bytes, ead: Bytes, eadCapacity: nat)
    requires |EncodeIdCred(i)| <= ID_CRED_SIZE && |ead| <= eadCapacity
    requires Plaintext(which, EncodeIdCred(i), signatureOrMac, OptionalBstr(ead)).Ok?
    ensures SplitOf(which, Plaintext(which, EncodeIdCred(i), signatureOrMac, OptionalBstr(ead)).value, eadCapacity) ==
            Ok(if which.Ciphertext4? then Split([], [], ead) else Split(EncodeIdCred(i), signatureOrMac, ead))
  {
    hide PlaintextOf, PlaintextSplit, EncodeIdCred, ReadBstr, EncodeBstr, At;
    if which.Ciphertext4? {
      AtWhole(OptionalBstr(ead));
      OptionalBstrReads(OptionalBstr(ead), 0, ead);
      assert ead != [] ==> EncodeBstr(ead) != [];
    } else {
      PlaintextRoundTrip(i, signatureOrMac, ead, eadCapacity);
    }
  }

  /**
   * With equal PRK and transcript hash the receiver gets back ID_CRED_x, the signature or MAC,
   * and EAD; for ciphertext 4 EAD alone.
   */
  lemma {:induction false} CiphertextRoundTrip(
      c: Primitives, which: Which, suite: Suite, i: IdCred, signatureOrMac: Bytes, ead: Bytes, eadCapacity: nat,
      prk: Digest, th: Digest)
    requires c.Laws() && |EncodeIdCred(i)| <= ID_CRED_SIZE && |ead| <= eadCapacity
    requires CiphertextGen(c, which, suite, EncodeIdCred(i), signatureOrMac, OptionalBstr(ead), prk, th).Ok?
    ensures DecryptSplit(
        c, which, suite, eadCapacity, prk, th,
        CiphertextGen(c, which, suite, EncodeIdCred(i), signatureOrMac, OptionalBstr(ead), prk, th).value) ==
      Ok(if which.Ciphertext4? then Split([], [], ead) else Split(EncodeIdCred(i), signatureOrMac, ead))
  {
    hide Plaintext, EncodeIdCred, OptionalBstr, KeyGen, Encipher, Decipher, SplitOf;
    var plaintext := Plaintext(which, EncodeIdCred(i), signatureOrMac, OptionalBstr(ead)).value;
    var k := KeyGen(c, which, prk, th, KeyLen(which, |plaintext|)).value;
    DecipherEnciphered(c, which, suite, k, th, plaintext);
    SplitPlaintext(which, i, signatureOrMac, ead, eadCapacity);
  }

  lemma {:induction false} KeysAvailable(c: Primitives, which: Which, prk: Digest, th: Digest, keyLen: nat)
    requires keyLen <= PLAINTEXT_SIZE
    ensures KeyGen(c, which, prk, th, keyLen).Ok?
  {
    hide OkmCalc;
    OkmAvailable(c, prk, th, "KEYSTREAM_2", [], keyLen);
    OkmAvailable(c, prk, th, "K_3", [], keyLen);
    OkmAvailable(c, prk, th, "IV_3", [], AEAD_IV_LEN);
    OkmAvailable(c, prk, th, "EDHOC_K_4", [], keyLen);
    OkmAvailable(c, prk, th, "EDHOC_IV_4", [], AEAD_IV_LEN);
  }

  /** A ciphertext can be made exactly when its plaintext can, and text and tag stay within 650 bytes. */
  lemma {:induction false} CiphertextIff(
      c: Primitives, which: Which, suite: Suite, idCred: Bytes, signatureOrMac: Bytes, ead: Bytes, prk: Digest, th: Digest)
    ensures var plaintext := Plaintext(which, idCred, signatureOrMac, ead);
      CiphertextGen(c, which, suite, idCred, signatureOrMac, ead, prk, th).Ok? <==>
        plaintext.Ok? && |plaintext.value| + (if which.Ciphertext2? then 0 else suite.tagLen) <= 650
  {
    hide Plaintext, KeyGen, Encipher;
    var plaintext := Plaintext(which, idCred, signatureOrMac, ead);
    if plaintext.Ok? {
      KeysAvailable(c, which, prk, th, KeyLen(which, |plaintext.value|));
    }
  }
}
