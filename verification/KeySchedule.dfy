/** The EDHOC key schedule: pseudo-random keys and the output keying material drawn from them. */
module KeySchedule {
  import opened Common
  import opened Crypto
  import opened Cbor
  import opened Hkdf
  import opened Suites

  /** The info structure of section 4.2 of draft-ietf-lake-edhoc-12, as a CBOR sequence. */
  function OkmInfo(th: Bytes, name: string, context: Bytes, len: nat): (r: Bytes)
    ensures |r| <= |th| + |name| + |context| + 20
  {
    EncodeBstr(th) + EncodeTstr(Ascii(name)) + EncodeBstr(context) + Head(Unsigned, len)
  }

  function OkmCalc(c: Primitives, prk: Digest, th: Bytes, name: string, context: Bytes, len: nat): (r: Result<Bytes>)
    requires !Wraps(len)
    ensures r.Ok? ==> |r.value| == len
  {
    var info := OkmInfo(th, name, context, len);
    if INFO_DEFAULT_SIZE < |info| then Fail(UnexpectedResult) else Expand(c, prk, info, len)
  }

  /** `okm_calc`, into the output buffer. */
  method OkmInto(c: Primitives, prk: Digest, th: Bytes, name: string, context: Bytes, out: array<byte>)
    returns (r: Result<()>)
    requires out.Length < 0x1_0000_0000
    modifies out
    ensures !Wraps(out.Length) ==>
              var okm := OkmCalc(c, prk, th, name, context, out.Length);
              && (okm.Fail? ==> r == Fail(okm.err))
              && (okm.Ok? ==> r.Ok? && out[..] == okm.value)
    ensures Wraps(out.Length) ==>
              && out[..] == old(out[..])
              && r == if INFO_DEFAULT_SIZE < HASH_LEN + |OkmInfo(th, name, context, out.Length)| + 1
                      then Fail(UnexpectedResult) else Ok(())
  {
    hide OkmInfo, Expand;
    var info := OkmInfo(th, name, context, out.Length);
    if INFO_DEFAULT_SIZE < |info| {
      return Fail(UnexpectedResult);
    }
    r := HkdfExpandMbedtls(c, prk, info, out);
  }

  /** The members of an info structure. */
  datatype OkmText = OkmText(th: Bytes, name: Bytes, context: Bytes, len: nat)

  function ReadOkmInfo(info: Bytes): Result<OkmText> {
    var th :- ReadBstr(info, 0);
    var name :- ReadTstr(info, th.next);
    var context :- ReadBstr(info, name.next);
    var len :- Expect(info, context.next, Unsigned);
    if len.next == |info| then Ok(OkmText(th.value, name.value, context.value, len.value)) else Fail(UnexpectedResult)
  }

  lemma {:induction false} OkmInfoReads(th: Bytes, name: string, context: Bytes, len: nat)
    requires |OkmInfo(th, name, context, len)| < LIMIT && len < LIMIT
    ensures ReadOkmInfo(OkmInfo(th, name, context, len)) == Ok(OkmText(th, Ascii(name), context, len))
  {
    hide At, Head, ReadBstr, ReadTstr, Expect, Ascii;
    var a, b, d, e := EncodeBstr(th), EncodeTstr(Ascii(name)), EncodeBstr(context), Head(Unsigned, len);
    var info := OkmInfo(th, name, context, len);
    hide EncodeBstr, EncodeTstr;
    AtWhole(info);
    AtSplit(info, 0, a + b + d, e);
    AtSplit3(info, 0, a, b, d);
    ReadBstrAt(info, 0, th);
    ReadTstrAt(info, |a|, Ascii(name));
    ReadBstrAt(info, |a| + |b|, context);
    ExpectAt(info, |a| + |b| + |d|, Unsigned, len);
  }

  /**
   * Keying material expanded from an info structure with these members; up to 32 bytes are the
   * first bytes of an HMAC over it and a byte 1.
   */
  ghost predicate DrawnFrom(c: Primitives, prk: Bytes, th: Bytes, name: Bytes, context: Bytes, okm: Bytes) {
    exists info ::
      && ReadOkmInfo(info) == Ok(OkmText(th, name, context, |okm|))
      && okm == Okm(c, prk, info, |okm|)
      && (0 < |okm| <= 32 ==> okm == c.hmac(prk, info + [1])[..|okm|])
  }

  lemma {:induction false} OkmIsDrawn(
      c: Primitives, prk: Digest, th: Bytes, name: string, context: Bytes, len: nat)
    requires !Wraps(len) && OkmCalc(c, prk, th, name, context, len).Ok?
    ensures DrawnFrom(c, prk, th, Ascii(name), context, OkmCalc(c, prk, th, name, context, len).value)
  {
    hide Okm, OkmInfo, Ascii, ReadOkmInfo;
    var info := OkmInfo(th, name, context, len);
    OkmInfoReads(th, name, context, len);
    if 0 < len <= HASH_LEN {
      FirstBlock(c, prk, info, len);
    }
  }

  /** All outcomes of drawing keying material, by the length of the info structure and that of the output. */
  lemma {:induction false} OkmOutcome(c: Primitives, prk: Digest, th: Bytes, name: string, context: Bytes, len: nat)
    requires !Wraps(len)
    ensures var info, okm := OkmInfo(th, name, context, len), OkmCalc(c, prk, th, name, context, len);
      && okm == (if |info| > 1200 then Fail(UnexpectedResult) else if len > 8160 then Fail(HkdfFailed)
                 else if |info| > 1167 then Fail(UnexpectedResult) else Ok(Okm(c, prk, info, len)))
      && (|th| == 32 && |name| <= 23 && |context| <= 23 && len <= 23 ==> |info| == 37 + |name| + |context|)
  {
    hide Okm, Head;
    ExpandOutcome(c, prk, OkmInfo(th, name, context, len), len);
  }

  /** When keying material is available. */
  lemma {:induction false} OkmAvailable(c: Primitives, prk: Digest, th: Bytes, name: string, context: Bytes, len: nat)
    requires len <= 255 * 32 && |th| + |name| + |context| + 20 + HASH_LEN + 1 <= INFO_DEFAULT_SIZE
    ensures OkmCalc(c, prk, th, name, context, len).Ok?
  {
    hide OkmInfo, Okm;
  }

  /** `edhoc_exporter`. */
  function Exporter(c: Primitives, prk4x3m: Digest, th4: Digest, name: string, len: nat): Result<Bytes>
    requires !Wraps(len)
  {
    OkmCalc(c, prk4x3m, th4, name, [], len)
  }

  function SharedSecret(c: Primitives, alg: EcdhAlg, sk: Bytes, pk: Bytes): Result<Digest> {
    var s := c.dh(alg, sk, pk);
    if s.None? then Fail(UnexpectedResult) else Ok(s.value)
  }

  /** `prk_derive`. */
  function PrkDerive(c: Primitives, suite: Suite, staticDh: bool, prk: Digest, pk: Bytes, sk: Bytes): Result<Digest> {
    if staticDh then
      var s :- SharedSecret(c, suite.ecdh, sk, pk);
      Ok(Extract(c, prk, s))
    else Ok(prk)
  }

  /** The holders of two key pairs derive the same key, from each other's public key. */
  lemma {:induction false} PrkAgrees(
      c: Primitives, suite: Suite, staticDh: bool, prk: Digest, x: Bytes, gX: Bytes, y: Bytes, gY: Bytes)
    requires c.Laws()
    requires staticDh ==> c.PublicOf(suite.ecdh, x, gX) && c.PublicOf(suite.ecdh, y, gY)
    ensures PrkDerive(c, suite, staticDh, prk, gY, x).Ok?
    ensures PrkDerive(c, suite, staticDh, prk, gY, x) == PrkDerive(c, suite, staticDh, prk, gX, y)
  {
    if staticDh {
      DhAgrees(c, suite.ecdh, x, gX, y, gY);
    }
  }
}
