/** Credential identifiers, the EDHOC plaintexts that carry them, and the credentials they name. */
module Identity {
  import opened Common
  import opened Crypto
  import opened Cbor

  const ID_CRED_SIZE := 600
  const CRED_SIZE := 600
  const KEY_SIZE := 65
  const SGN_OR_MAC_SIZE := 128
  const PLAINTEXT_SIZE := 650

  const KID_LABEL := 4
  const X5CHAIN_LABEL := 33
  const X5T_LABEL := 34

  // ----- ID_CRED_x -----

  /** A map with a single entry: a key identifier, a certificate, or the hash of one. */
  datatype IdCred = Kid(id: int32) | X5chain(cert: Bytes) | X5t(alg: int32, digest: Bytes)

  function EncodeIdCred(i: IdCred): (r: Bytes)
    ensures |r| > 0
  {
    match i
    case Kid(id) => Head(Map, 1) + Head(Unsigned, KID_LABEL) + EncodeInt(id)
    case X5chain(cert) => Head(Map, 1) + Head(Unsigned, X5CHAIN_LABEL) + EncodeBstr(cert)
    case X5t(alg, digest) => Head(Map, 1) + Head(Unsigned, X5T_LABEL) + Head(List, 2) + EncodeInt(alg) + EncodeBstr(digest)
  }

  /** The three forms in bytes: a map of one entry, labelled 4, 33 or 34. */
  lemma {:induction false} IdCredBytes(i: IdCred)
    ensures EncodeIdCred(i) ==
      match i
      case Kid(id) => [0xA1, 0x04] + EncodeInt(id)
      case X5chain(cert) => [0xA1, 0x18, 0x21] + EncodeBstr(cert)
      case X5t(alg, digest) => [0xA1, 0x18, 0x22, 0x82] + EncodeInt(alg) + EncodeBstr(digest)
  {
    hide Head, EncodeInt, EncodeBstr;
    HeadBytes(Map, 1);
    HeadBytes(Unsigned, 4);
    HeadBytes(Unsigned, 33);
    HeadBytes(Unsigned, 34);
    HeadBytes(List, 2);
  }

  function ReadX5t(buf: Bytes, pos: nat): (r: Result<Item<IdCred>>)
    ensures r.Ok? ==> pos < r.value.next <= |buf|
  {
    var list :- Expect(buf, pos, List);
    if list.value != 2 then Fail(UnexpectedResult)
    else
      var alg :- ReadInt(buf, list.next);
      var digest :- ReadBstr(buf, alg.next);
      Ok(Item(X5t(alg.value, digest.value), digest.next))
  }

  function ReadIdCred(buf: Bytes, pos: nat): (r: Result<Item<IdCred>>)
    ensures r.Ok? ==> pos < r.value.next <= |buf|
  {
    var map_ :- Expect(buf, pos, Map);
    if map_.value != 1 then Fail(UnexpectedResult)
    else
      var entry :- Expect(buf, map_.next, Unsigned);
      if entry.value == KID_LABEL then
        var id :- ReadInt(buf, entry.next);
        Ok(Item(Kid(id.value), id.next))
      else if entry.value == X5CHAIN_LABEL then
        var cert :- ReadBstr(buf, entry.next);
        Ok(Item(X5chain(cert.value), cert.next))
      else if entry.value == X5T_LABEL then ReadX5t(buf, entry.next)
      else Fail(UnexpectedResult)
  }

  predicate ShortIdCred(i: IdCred) {
    match i
    case Kid(_) => true
    case X5chain(cert) => |cert| < LIMIT
    case X5t(_, digest) => |digest| < LIMIT
  }

  lemma {:induction false} ReadIdCredAt(buf: Bytes, pos: nat, i: IdCred)
    requires ShortIdCred(i) && At(buf, pos, EncodeIdCred(i))
    ensures ReadIdCred(buf, pos) == Ok(Item(i, pos + |EncodeIdCred(i)|))
    ensures ReadBstr(buf, pos).Fail? && ReadInt(buf, pos).Fail?
  {
    hide Expect, ReadInt, ReadBstr, Head, EncodeInt, EncodeBstr, At;
    var m := Head(Map, 1);
    var l := Head(Unsigned, if i.Kid? then KID_LABEL else if i.X5chain? then X5CHAIN_LABEL else X5T_LABEL);
    var p := pos + |m| + |l|;
    match i {
      case Kid(id) =>
        AtSplit3(buf, pos, m, l, EncodeInt(id));
        ReadIntAt(buf, p, id);
      case X5chain(cert) =>
        AtSplit3(buf, pos, m, l, EncodeBstr(cert));
        ReadBstrAt(buf, p, cert);
      case X5t(alg, digest) =>
        AtSplit(buf, pos, m + l + Head(List, 2) + EncodeInt(alg), EncodeBstr(digest));
        AtSplit(buf, pos, m + l + Head(List, 2), EncodeInt(alg));
        AtSplit3(buf, pos, m, l, Head(List, 2));
        ExpectAt(buf, p, List, 2);
        ReadIntAt(buf, p + |Head(List, 2)|, alg);
        ReadBstrAt(buf, p + |Head(List, 2)| + |EncodeInt(alg)|, digest);
    }
    ExpectAt(buf, pos, Map, 1);
    ExpectAt(buf, pos + |m|, Unsigned, if i.Kid? then KID_LABEL else if i.X5chain? then X5CHAIN_LABEL else X5T_LABEL);
    NotAString(buf, pos);
  }

  /** A map is neither a string nor an integer. */
  lemma {:induction false} NotAString(buf: Bytes, pos: nat)
    requires Expect(buf, pos, Map).Ok?
    ensures ReadBstr(buf, pos).Fail? && ReadInt(buf, pos).Fail?
  {
    hide ReadHead;
  }

  // ----- plaintexts 2 and 3 -----

  /** `id_cred2kid`: how ID_CRED_x travels; a key identifier without its map. */
  function Conveyed(idCred: Bytes): Result<Bytes> {
    var i :- ReadIdCred(idCred, 0);
    if i.value.Kid? then Ok(EncodeInt(i.value.id)) else Ok(idCred)
  }

  /** The plaintext of `ciphertext_gen`, within its buffer. */
  function PlaintextOf(idCred: Bytes, signatureOrMac: Bytes, ead: Bytes): (r: Result<Bytes>)
    ensures r.Ok? ==> |r.value| <= PLAINTEXT_SIZE
  {
    if SGN_OR_MAC_SIZE < |signatureOrMac| + 2 then Fail(BufferToSmall)
    else
      var id :- Conveyed(idCred);
      var plaintext := id + EncodeBstr(signatureOrMac) + ead;
      if PLAINTEXT_SIZE < |plaintext| then Fail(BufferToSmall) else Ok(plaintext)
  }

  datatype Split = Split(idCred: Bytes, signatureOrMac: Bytes, ead: Bytes)

  /**
   * The first item of a plaintext, and the ID_CRED_x that is rebuilt from it.  A byte string is
   * read as if its bytes were an `int`, and a kid inside a map leaves the output unwritten.
   */
  function RebuildId(plaintext: Bytes): (r: Result<Item<Bytes>>)
    ensures r.Ok? ==> r.value.next <= |plaintext|
  {
    var i := ReadIdCred(plaintext, 0);
    if i.Ok? then
      if i.value.value.Kid? then Fail(Undefined)
      else Ok(Item(EncodeIdCred(i.value.value), i.value.next))
    else if ReadBstr(plaintext, 0).Ok? then Fail(Undefined)
    else
      var id :- ReadInt(plaintext, 0);
      Ok(Item(EncodeIdCred(Kid(id.value)), id.next))
  }

  /** `plaintext_split`; `eadCapacity` is the size of the caller's buffer. */
  function PlaintextSplit(plaintext: Bytes, eadCapacity: nat): Result<Split> {
    var id :- RebuildId(plaintext);
    var sm :- ReadBstr(plaintext, id.next);
    var ead := ReadBstr(plaintext, sm.next);
    if ID_CRED_SIZE < |id.value| then Fail(UnexpectedResult)
    else if SGN_OR_MAC_SIZE < |sm.value| then Fail(BufferToSmall)
    else if ead.Ok? && eadCapacity < |ead.value.value| then Fail(BufferToSmall)
    else Ok(Split(id.value, sm.value, if ead.Ok? then ead.value.value else []))
  }

  lemma {:induction false} ConveyedIs(i: IdCred)
    requires ShortIdCred(i)
    ensures Conveyed(EncodeIdCred(i)) == Ok(ConveyedId(i))
  {
    hide ReadIdCred, EncodeIdCred, At;
    var buf := EncodeIdCred(i);
    AtWhole(buf);
    ReadIdCredAt(buf, 0, i);
  }

  lemma {:induction false} RebuildIdAt(plaintext: Bytes, i: IdCred)
    requires ShortIdCred(i) && At(plaintext, 0, ConveyedId(i))
    ensures RebuildId(plaintext) == Ok(Item(EncodeIdCred(i), |ConveyedId(i)|))
  {
    hide ReadBstr, ReadInt, EncodeIdCred, EncodeInt, At;
    if i.Kid? {
      IntIsNoMap(plaintext, i.id);
      ReadIntAt(plaintext, 0, i.id);
    } else {
      hide ReadIdCred;
      ReadIdCredAt(plaintext, 0, i);
    }
  }

  lemma {:induction false} IntIsNoMap(buf: Bytes, i: int32)
    requires At(buf, 0, EncodeInt(i))
    ensures ReadIdCred(buf, 0).Fail?
  {
    hide At, Head, ReadHead;
    assert IsInt32(i);
    if i >= 0 {
      ReadHeadAt(buf, 0, Unsigned, i);
    } else {
      ReadHeadAt(buf, 0, Negative, -1 - i);
    }
  }

  function ConveyedId(i: IdCred): Bytes {
    if i.Kid? then EncodeInt(i.id) else EncodeIdCred(i)
  }

  lemma {:induction false} PlaintextIs(i: IdCred, signatureOrMac: Bytes, ead: Bytes)
    requires ShortIdCred(i) && PlaintextOf(EncodeIdCred(i), signatureOrMac, ead).Ok?
    ensures PlaintextOf(EncodeIdCred(i), signatureOrMac, ead).value == ConveyedId(i) + EncodeBstr(signatureOrMac) + ead
    ensures |signatureOrMac| + 2 <= SGN_OR_MAC_SIZE
  {
    hide EncodeIdCred, EncodeInt, Conveyed, EncodeBstr;
    ConveyedIs(i);
  }

  /** A plaintext can be made for at most 126 bytes of signature or MAC and 650 bytes in all. */
  lemma {:induction false} PlaintextOutcome(i: IdCred, signatureOrMac: Bytes, ead: Bytes)
    requires ShortIdCred(i)
    ensures var plaintext := ConveyedId(i) + EncodeBstr(signatureOrMac) + ead;
      PlaintextOf(EncodeIdCred(i), signatureOrMac, ead) ==
      if |signatureOrMac| > 126 || |plaintext| > 650 then Fail(BufferToSmall) else Ok(plaintext)
  {
    hide EncodeIdCred, EncodeInt, Conveyed, EncodeBstr, ConveyedId;
    ConveyedIs(i);
  }

  /** Reading the three parts of a plaintext where they stand. */
  lemma {:induction false} PlaintextReads(plaintext: Bytes, i: IdCred, signatureOrMac: Bytes, ead: Bytes)
    requires ShortIdCred(i) && |plaintext| <= PLAINTEXT_SIZE
    requires plaintext == ConveyedId(i) + EncodeBstr(signatureOrMac) + OptionalBstr(ead)
    ensures var next := |ConveyedId(i)| + |EncodeBstr(signatureOrMac)|;
      && RebuildId(plaintext) == Ok(Item(EncodeIdCred(i), |ConveyedId(i)|))
      && ReadBstr(plaintext, |ConveyedId(i)|) == Ok(Item(signatureOrMac, next))
      && if ead == [] then ReadBstr(plaintext, next).Fail? else ReadBstr(plaintext, next) == Ok(Item(ead, |plaintext|))
  {
    hide ReadBstr, EncodeIdCred, EncodeInt, At, RebuildId, Head, OptionalBstr;
    var id, sm := ConveyedId(i), EncodeBstr(signatureOrMac);
    AtWhole(plaintext);
    AtSplit3(plaintext, 0, id, sm, OptionalBstr(ead));
    RebuildIdAt(plaintext, i);
    ReadBstrAt(plaintext, |id|, signatureOrMac);
    OptionalBstrReads(plaintext, |id| + |sm|, ead);
  }

  /**
   * Splitting a plaintext gives back ID_CRED_x, the signature or MAC, and EAD.  The sender
   * appends EAD raw, the receiver reads one byte string, so EAD is sent as one.
   */
  lemma {:induction false} PlaintextRoundTrip(i: IdCred, signatureOrMac: Bytes, ead: Bytes, eadCapacity: nat)
    requires |EncodeIdCred(i)| <= ID_CRED_SIZE && |ead| <= eadCapacity
    requires PlaintextOf(EncodeIdCred(i), signatureOrMac, OptionalBstr(ead)).Ok?
    ensures PlaintextSplit(PlaintextOf(EncodeIdCred(i), signatureOrMac, OptionalBstr(ead)).value, eadCapacity)
            == Ok(Split(EncodeIdCred(i), signatureOrMac, ead))
  {
    hide PlaintextOf, ReadBstr, EncodeIdCred, ConveyedId, EncodeBstr, RebuildId, OptionalBstr, ShortIdCred;
    IdCredIsShort(i);
    PlaintextIs(i, signatureOrMac, OptionalBstr(ead));
    PlaintextReads(PlaintextOf(EncodeIdCred(i), signatureOrMac, OptionalBstr(ead)).value, i, signatureOrMac, ead);
  }

  /** And splitting refuses identifiers above 600 bytes, signatures or MACs above 128 and EAD above the caller's buffer. */
  lemma {:induction false} SplitOutcome(plaintext: Bytes, i: IdCred, signatureOrMac: Bytes, ead: Bytes, eadCapacity: nat)
    requires ShortIdCred(i) && |plaintext| <= PLAINTEXT_SIZE
    requires plaintext == ConveyedId(i) + EncodeBstr(signatureOrMac) + OptionalBstr(ead)
    ensures PlaintextSplit(plaintext, eadCapacity) ==
      if |EncodeIdCred(i)| > 600 then Fail(UnexpectedResult)
      else if |signatureOrMac| > 128 || |ead| > eadCapacity then Fail(BufferToSmall)
      else Ok(Split(EncodeIdCred(i), signatureOrMac, ead))
  {
    hide ReadBstr, EncodeIdCred, ConveyedId, EncodeBstr, RebuildId, OptionalBstr, ShortIdCred;
    PlaintextReads(plaintext, i, signatureOrMac, ead);
  }

  lemma {:induction false} IdCredIsShort(i: IdCred)
    requires |EncodeIdCred(i)| <= ID_CRED_SIZE
    ensures ShortIdCred(i)
  {
    hide Head, EncodeInt;
  }

  // ----- credentials of the other party -----

  /** One entry of the array of credentials an application provides. */
  datatype Credential = Credential(idCred: Bytes, cred: Bytes, pk: Bytes, g: Bytes)

  /**
   * What a party trusts: its local credentials, and the key in a certificate that it accepts.
   */
  datatype Trust = Trust(local: seq<Credential>, certifiedKey: Bytes -> Option<Bytes>)

  /** The credential and, by authentication type, a signature key or a static DH key. */
  datatype Peer = Peer(cred: Bytes, pk: Bytes, g: Bytes)

  /** An uncompressed P-256 point keeps its x-coordinate; its sign is always set to 2. */
  function NormalisedG(g: Bytes): Result<Bytes> {
    if |g| == 65 then Ok([2] + g[1..33])
    else if KEY_SIZE < |g| then Fail(BufferToSmall)
    else Ok(g)
  }

  function PeerOf(staticDh: bool, e: Credential): Result<Peer> {
    if CRED_SIZE < |e.cred| then Fail(BufferToSmall)
    else if staticDh then
      var g :- NormalisedG(e.g);
      Ok(Peer(e.cred, [], g))
    else if KEY_SIZE < |e.pk| then Fail(BufferToSmall)
    else Ok(Peer(e.cred, e.pk, []))
  }

  /** What becomes of a static DH key: an uncompressed point is cut to 33 bytes that begin with 2. */
  lemma {:induction false} NormalisedIs(g: Bytes)
    ensures NormalisedG(g).Ok? <==> |g| <= 65
    ensures |g| < 65 ==> NormalisedG(g) == Ok(g)
    ensures |g| == 65 ==>
              var n := NormalisedG(g).value;
              |n| == 33 && n[0] == 0x02 && forall k :: 1 <= k < 33 ==> n[k] == g[k]
  {
  }

  /** Which entries of the array can be used: credentials of at most 600 bytes and keys of at most 65. */
  lemma {:induction false} PeerOutcome(staticDh: bool, e: Credential)
    ensures var key := if staticDh then e.g else e.pk;
      && (PeerOf(staticDh, e).Ok? <==> |e.cred| <= 600 && |key| <= 65)
      && (PeerOf(staticDh, e).Fail? ==> PeerOf(staticDh, e).err == BufferToSmall)
  {
  }

  /** The position of the first credential with the given identifier, or the number of credentials. */
  function FirstMatch(creds: seq<Credential>, idCred: Bytes): (k: nat)
    ensures k <= |creds|
    ensures k < |creds| ==> creds[k].idCred == idCred
    ensures forall i :: 0 <= i < k ==> creds[i].idCred != idCred
  {
    if creds == [] || creds[0].idCred == idCred then 0 else 1 + FirstMatch(creds[1..], idCred)
  }

  function LocalPeer(staticDh: bool, creds: seq<Credential>, idCred: Bytes): Result<Peer> {
    var k := FirstMatch(creds, idCred);
    if k == |creds| then Fail(CredentialNotFound) else PeerOf(staticDh, creds[k])
  }

  /** `get_local_cred`. */
  method GetLocalCred(staticDh: bool, creds: seq<Credential>, idCred: Bytes) returns (r: Result<Peer>)
    ensures r == LocalPeer(staticDh, creds, idCred)
    ensures r.Ok? ==> exists i :: 0 <= i < |creds| && creds[i].idCred == idCred && r == PeerOf(staticDh, creds[i])
    ensures (forall i :: 0 <= i < |creds| ==> creds[i].idCred != idCred) ==> r == Fail(CredentialNotFound)
  {
    for i := 0 to |creds|
      invariant forall k :: 0 <= k < i ==> creds[k].idCred != idCred
    {
      if creds[i].idCred == idCred {
        return PeerOf(staticDh, creds[i]);
      }
    }
    return Fail(CredentialNotFound);
  }

  function CertifiedPeer(staticDh: bool, trust: Trust, cert: Bytes): Result<Peer> {
    if CRED_SIZE < |EncodeBstr(cert)| then Fail(UnexpectedResult)
    else
      var key := trust.certifiedKey(cert);
      if key.None? then Fail(CertificateAuthenticationFailed)
      else if KEY_SIZE < |key.value| then Fail(BufferToSmall)
      else if staticDh then Ok(Peer(EncodeBstr(cert), [], key.value))
      else Ok(Peer(EncodeBstr(cert), key.value, []))
  }

  /** Which certificates can be used: verified ones of at most 600 encoded bytes with keys of at most 65. */
  lemma {:induction false} CertifiedOutcome(staticDh: bool, trust: Trust, cert: Bytes)
    ensures var key := trust.certifiedKey(cert);
      CertifiedPeer(staticDh, trust, cert) ==
      if |EncodeBstr(cert)| > 600 then Fail(UnexpectedResult)
      else if key.None? then Fail(CertificateAuthenticationFailed)
      else if |key.value| > 65 then Fail(BufferToSmall)
      else Ok(if staticDh then Peer(EncodeBstr(cert), [], key.value) else Peer(EncodeBstr(cert), key.value, []))
  {
  }

  /** `retrieve_cred`: certificates are verified, everything else is looked up. */
  function RetrieveCred(staticDh: bool, trust: Trust, idCred: Bytes): Result<Peer> {
    var i :- ReadIdCred(idCred, 0);
    if i.value.X5chain? then CertifiedPeer(staticDh, trust, i.value.cert)
    else LocalPeer(staticDh, trust.local, idCred)
  }

  method Retrieve(staticDh: bool, trust: Trust, idCred: Bytes) returns (r: Result<Peer>)
    ensures r == RetrieveCred(staticDh, trust, idCred)
  {
    var i :- ReadIdCred(idCred, 0);
    if i.value.X5chain? {
      return CertifiedPeer(staticDh, trust, i.value.cert);
    }
    r := GetLocalCred(staticDh, trust.local, idCred);
  }
}
