/** The OSCORE associated data, and the COSE encryption of a message with it. */
module Cose {
  import opened Common
  import opened Crypto
  import opened Cbor
  import opened CoapOption
  import opened OptionSplit

  const AUTH_TAG_LEN := 8
  const MAX_AAD_LEN := 30
  const MAX_I_OPTIONS := 30
  const AES_CCM_16_64_128 := 10
  const ENCRYPT0_ENCODING_OVERHEAD := 16

  /** The aad_array of section 5.4 of RFC 8613 for the given encoded class I options. */
  function AadArray(kid: Bytes, piv: Bytes, optionsI: Bytes): Bytes {
    Head(List, 5) + Head(Unsigned, 1) + Head(List, 1) + EncodeInt(AES_CCM_16_64_128)
    + EncodeBstr(kid) + EncodeBstr(piv) + EncodeBstr(optionsI)
  }

  /** The associated data of a message: there are no class I options. */
  function Aad(kid: Bytes, piv: Bytes): Bytes {
    AadArray(kid, piv, [])
  }

  lemma {:induction false} AadLen(kid: Bytes, piv: Bytes)
    requires |kid| < 24 && |piv| < 24
    ensures |Aad(kid, piv)| == 7 + |kid| + |piv|
  {
  }

  /** `create_aad` into a buffer of the given size. */
  function CreateAadResult(kid: Bytes, piv: Bytes, capacity: nat): Result<Bytes> {
    if |Aad(kid, piv)| > capacity then Fail(UnexpectedResult) else Ok(Aad(kid, piv))
  }

  method CreateAad(options: seq<CoapOption>, kid: Bytes, piv: Bytes, capacity: nat) returns (r: Result<Bytes>)
    ensures r == CreateAadResult(kid, piv, capacity)
  {
    hide Aad, AadArray;
    var optionsLen := EncodedOptionLen(options, ClassI);
    if MAX_I_OPTIONS < optionsLen {
      return Fail(BufferToSmall);
    }
    var optionsI: Bytes := Zeros(optionsLen);
    var encoded := AadArray(kid, piv, optionsI);
    AadWithoutOptions(kid, piv, optionsI);
    return if |encoded| > capacity then Fail(UnexpectedResult) else Ok(encoded);
  }

  lemma {:induction false} AadWithoutOptions(kid: Bytes, piv: Bytes, optionsI: Bytes)
    requires |optionsI| == 0
    ensures AadArray(kid, piv, optionsI) == Aad(kid, piv)
  {
    assert optionsI == [];
  }

  function EncStructure(externalAad: Bytes): Bytes {
    Head(List, 3) + EncodeTstr(Ascii("Encrypt0")) + EncodeBstr([]) + EncodeBstr(externalAad)
  }

  /** The constant overhead of the source suffices for every associated data it lets through. */
  lemma {:induction false} EncStructureFits(externalAad: Bytes)
    requires |externalAad| + ENCRYPT0_ENCODING_OVERHEAD <= MAX_AAD_LEN
    ensures |EncStructure(externalAad)| <= |externalAad| + ENCRYPT0_ENCODING_OVERHEAD
  {
  }

  /** The associated data in bytes. */
  lemma {:induction false} AadBytes(kid: Bytes, piv: Bytes)
    requires |kid| <= 23 && |piv| <= 23
    ensures Aad(kid, piv) == [0x85, 0x01, 0x81, 0x0A, 0x40 + |kid|] + kid + [0x40 + |piv|] + piv + [0x40]
  {
    hide Head;
    HeadBytes(List, 5);
    HeadBytes(Unsigned, 1);
    HeadBytes(List, 1);
    HeadBytes(Unsigned, 10);
    HeadBytes(ByteString, |kid|);
    HeadBytes(ByteString, |piv|);
    HeadBytes(ByteString, 0);
  }

  /** The associated data determines KID and PIV. */
  lemma {:induction false} AadInjective(kid1: Bytes, piv1: Bytes, kid2: Bytes, piv2: Bytes)
    requires |kid1| <= 23 && |piv1| <= 23 && |kid2| <= 23 && |piv2| <= 23
    ensures Aad(kid1, piv1) == Aad(kid2, piv2) <==> kid1 == kid2 && piv1 == piv2
  {
    hide Aad;
    AadBytes(kid1, piv1);
    AadBytes(kid2, piv2);
    var a, b := Aad(kid1, piv1), Aad(kid2, piv2);
    if a == b {
      assert a[4] == 0x40 + |kid1| && b[4] == 0x40 + |kid2|;
      var n := 5 + |kid1|;
      assert kid1 == a[5..n] && kid2 == b[5..n];
      assert a[n] == 0x40 + |piv1| && b[n] == 0x40 + |piv2|;
      assert piv1 == a[n + 1..n + 1 + |piv1|] && piv2 == b[n + 1..n + 1 + |piv2|];
    }
  }

  /** The Enc_structure of section 5.3 of RFC 8152 in bytes: the text "Encrypt0", an empty string, the external AAD. */
  lemma {:induction false} EncStructureBytes(externalAad: Bytes)
    requires |externalAad| <= 0xFF
    ensures EncStructure(externalAad) ==
            [0x83, 0x68, 0x45, 0x6E, 0x63, 0x72, 0x79, 0x70, 0x74, 0x30, 0x40]
            + (if |externalAad| <= 23 then [0x40 + |externalAad|] else [0x58, |externalAad|]) + externalAad
  {
    hide Head, Ascii;
    HeadBytes(List, 3);
    HeadBytes(TextString, 8);
    HeadBytes(ByteString, 0);
    HeadBytes(ByteString, |externalAad|);
    Encrypt0Bytes();
  }

  lemma {:induction false} Encrypt0Bytes()
    ensures Ascii("Encrypt0") == [0x45, 0x6E, 0x63, 0x72, 0x79, 0x70, 0x74, 0x30]
  {
  }

  function Encrypt(c: Primitives, plaintext: Bytes, nonce: Bytes, aad: Bytes, key: Bytes): Result<Bytes> {
    if MAX_AAD_LEN < |aad| + ENCRYPT0_ENCODING_OVERHEAD then Fail(BufferToSmall)
    else Ok(c.seal(key, nonce, EncStructure(aad), plaintext, AUTH_TAG_LEN))
  }

  function Decrypt(c: Primitives, ciphertext: Bytes, nonce: Bytes, aad: Bytes, key: Bytes): Result<Bytes> {
    if MAX_AAD_LEN < |aad| + ENCRYPT0_ENCODING_OVERHEAD then Fail(BufferToSmall)
    else
      var plain := c.open(key, nonce, EncStructure(aad), ciphertext, AUTH_TAG_LEN);
      if plain.None? then Fail(UnexpectedResult) else Ok(plain.value)
  }

  /** What one side encrypts the other side decrypts, given equal nonce, associated data and key. */
  lemma {:induction false} DecryptEncrypt(c: Primitives, plaintext: Bytes, nonce: Bytes, aad: Bytes, key: Bytes)
    requires c.Laws() && Encrypt(c, plaintext, nonce, aad, key).Ok?
    ensures Decrypt(c, Encrypt(c, plaintext, nonce, aad, key).value, nonce, aad, key) == Ok(plaintext)
    ensures |Encrypt(c, plaintext, nonce, aad, key).value| == |plaintext| + AUTH_TAG_LEN
  {
    hide EncStructure;
  }
}
