/** What the keys of an OSCORE context are derived from, and when it can be initialised. */
module Derivation {
  import opened Common
  import opened Crypto
  import opened Hkdf
  import opened OscoreOption
  import opened Nonce
  import opened SecurityContext
  import Cbor

  // ----- the info structure read back -----

  /** The members of an info structure; no ID context is nil. */
  datatype InfoText = InfoText(id: Bytes, idContext: Option<Bytes>, alg: int, kind: Bytes, len: nat)

  function ReadInfo(info: Bytes): Result<InfoText> {
    var list :- Cbor.Expect(info, 0, Cbor.List);
    var id :- Cbor.ReadBstr(info, list.next);
    var idContext :- ReadIdContext(info, id.next);
    var alg :- Cbor.ReadInt(info, idContext.next);
    var kind :- Cbor.ReadTstr(info, alg.next);
    var len :- Cbor.Expect(info, kind.next, Cbor.Unsigned);
    if list.value == 5 && len.next == |info|
    then Ok(InfoText(id.value, idContext.value, alg.value, kind.value, len.value))
    else Fail(UnexpectedResult)
  }

  function ReadIdContext(info: Bytes, pos: nat): Result<Cbor.Item<Option<Bytes>>> {
    if pos < |info| && info[pos] == 0xF6 then Ok(Cbor.Item(None, pos + 1))
    else
      var b :- Cbor.ReadBstr(info, pos);
      Ok(Cbor.Item(Some(b.value), b.next))
  }

  /** "Key" and "IV" */
  function Kind(t: DeriveType): Bytes {
    if t == Key then [0x4B, 0x65, 0x79] else [0x49, 0x56]
  }

  function TextOf(id: Bytes, idContext: Bytes, t: DeriveType): InfoText {
    InfoText(id, if idContext == [] then None else Some(idContext), 10, Kind(t), if t == Key then 16 else 13)
  }

  function ContextItem(idContext: Bytes): Bytes {
    if idContext == [] then [0xF6] else Cbor.EncodeBstr(idContext)
  }

  lemma {:induction false} ReadIdContextAt(info: Bytes, pos: nat, idContext: Bytes)
    requires |idContext| < Cbor.LIMIT && At(info, pos, ContextItem(idContext))
    ensures ReadIdContext(info, pos) ==
            Ok(Cbor.Item(if idContext == [] then None else Some(idContext), pos + |ContextItem(idContext)|))
  {
    hide At, Cbor.EncodeBstr, Cbor.ReadBstr;
    if idContext == [] {
      AtByte(info, pos, 0xF6);
    } else {
      Cbor.ReadBstrAt(info, pos, idContext);
      BstrIsNotNil(info, pos);
    }
  }

  lemma {:induction false} BstrIsNotNil(info: Bytes, pos: nat)
    requires Cbor.ReadBstr(info, pos).Ok?
    ensures info[pos] != 0xF6
  {
  }

  lemma {:induction false} Places(a: Bytes, b: Bytes, d: Bytes, e: Bytes, f: Bytes, g: Bytes)
    ensures var s := a + b + d + e + f + g;
      && At(s, 0, a) && At(s, |a|, b) && At(s, |a| + |b|, d) && At(s, |a| + |b| + |d|, e)
      && At(s, |a| + |b| + |d| + |e|, f) && At(s, |a| + |b| + |d| + |e| + |f|, g)
      && |s| == |a| + |b| + |d| + |e| + |f| + |g|
  {
    hide At;
    var s := a + b + d + e + f + g;
    AtWhole(s);
    AtSplit(s, 0, a + b + d + e + f, g);
    AtSplit(s, 0, a + b + d + e, f);
    AtSplit(s, 0, a + b + d, e);
    AtSplit3(s, 0, a, b, d);
  }

  /** An info structure is an array of these five members. */
  lemma {:induction false} InfoReads(id: Bytes, idContext: Bytes, t: DeriveType)
    requires |id| < Cbor.LIMIT && |idContext| < Cbor.LIMIT
    ensures ReadInfo(Info(id, idContext, t)) == Ok(TextOf(id, idContext, t))
  {
    hide At, Cbor.Head, Cbor.ReadBstr, Cbor.ReadTstr, Cbor.ReadInt, Cbor.Expect, Cbor.EncodeBstr, Cbor.EncodeTstr;
    hide Cbor.EncodeInt, ContextItem, ReadIdContext;
    var a, b, d := Cbor.Head(Cbor.List, 5), Cbor.EncodeBstr(id), ContextItem(idContext);
    var e, f, g := Cbor.EncodeInt(10), Cbor.EncodeTstr(Kind(t)), Cbor.Head(Cbor.Unsigned, if t == Key then 16 else 13);
    var info := Info(id, idContext, t);
    InfoParts(id, idContext, t);
    hide Info;
    Places(a, b, d, e, f, g);
    Cbor.ExpectAt(info, 0, Cbor.List, 5);
    Cbor.ReadBstrAt(info, |a|, id);
    ReadIdContextAt(info, |a| + |b|, idContext);
    Cbor.ReadIntAt(info, |a| + |b| + |d|, 10);
    Cbor.ReadTstrAt(info, |a| + |b| + |d| + |e|, Kind(t));
    Cbor.ExpectAt(info, |a| + |b| + |d| + |e| + |f|, Cbor.Unsigned, if t == Key then 16 else 13);
  }

  lemma {:induction false} InfoParts(id: Bytes, idContext: Bytes, t: DeriveType)
    ensures Info(id, idContext, t) ==
            Cbor.Head(Cbor.List, 5) + Cbor.EncodeBstr(id) + ContextItem(idContext) + Cbor.EncodeInt(10)
            + Cbor.EncodeTstr(Kind(t)) + Cbor.Head(Cbor.Unsigned, if t == Key then 16 else 13)
  {
    hide Cbor.Head, Cbor.EncodeBstr, Cbor.EncodeInt, Cbor.EncodeTstr;
    assert TypeName(t) == Kind(t);
  }

  /** Different identifiers, ID contexts or types never give the same info structure. */
  lemma {:induction false} InfoInjective(
      id1: Bytes, idContext1: Bytes, t1: DeriveType, id2: Bytes, idContext2: Bytes, t2: DeriveType)
    requires |id1| < Cbor.LIMIT && |idContext1| < Cbor.LIMIT && |id2| < Cbor.LIMIT && |idContext2| < Cbor.LIMIT
    ensures Info(id1, idContext1, t1) == Info(id2, idContext2, t2) <==> id1 == id2 && idContext1 == idContext2 && t1 == t2
  {
    hide Info, ReadInfo;
    InfoReads(id1, idContext1, t1);
    InfoReads(id2, idContext2, t2);
  }

  // ----- the keys -----

  /**
   * The first bytes of an HMAC, keyed with the HMAC of the secret under the salt, of an info
   * structure with this identifier, ID context and type, and a byte 1.
   */
  ghost predicate ComesFrom(
      c: Primitives, secret: Bytes, salt: Bytes, idContext: Bytes, id: Bytes, t: DeriveType, key: Bytes)
  {
    var prk := c.hmac(if salt == [] then Zeros(32) else salt, secret);
    exists info :: ReadInfo(info) == Ok(TextOf(id, idContext, t)) &&
                   key == c.hmac(prk, info + [1])[..if t == Key then 16 else 13]
  }

  lemma {:induction false} DerivedComesFrom(c: Primitives, cc: CommonContext, id: Bytes, t: DeriveType)
    requires Derive(c, cc, id, t).Ok?
    ensures ComesFrom(c, cc.masterSecret, cc.masterSalt, cc.idContext, id, t, Derive(c, cc, id, t).value)
  {
    hide Okm, ReadInfo, Cbor.Head;
    var info := Info(id, cc.idContext, t);
    InfoLen(id, cc.idContext, t);
    hide Info;
    InfoReads(id, cc.idContext, t);
    FirstBlock(c, Extract(c, cc.masterSalt, cc.masterSecret), info, DerivedLen(t));
  }

  /** The IV and both keys of a state come from its secret, salt, ID context and identifiers. */
  ghost predicate KeysComeFrom(c: Primitives, s: State, secret: Bytes, salt: Bytes, senderId: Bytes, recipientId: Bytes) {
    && ComesFrom(c, secret, salt, s.cc.idContext, [], CommonIv, s.cc.commonIv)
    && ComesFrom(c, secret, salt, s.cc.idContext, senderId, Key, s.sc.key)
    && ComesFrom(c, secret, salt, s.cc.idContext, recipientId, Key, s.rc.key)
  }

  lemma {:induction false} ConsistentComesFrom(c: Primitives, s: State)
    requires KeysConsistent(c, s)
    ensures KeysComeFrom(c, s, s.cc.masterSecret, s.cc.masterSalt, s.sc.id, s.rc.id)
  {
    hide Derive, ComesFrom;
    DerivedComesFrom(c, s.cc, [], CommonIv);
    DerivedComesFrom(c, s.cc, s.sc.id, Key);
    DerivedComesFrom(c, s.cc, s.rc.id, Key);
  }

  /** After initialisation: each key comes from the parameters, the ID context among them. */
  lemma {:induction false} InitComesFrom(c: Primitives, p: InitParams)
    requires InitState(c, p).Ok?
    ensures var s := InitState(c, p).value;
      && s.cc.idContext == p.idContext
      && KeysComeFrom(c, s, p.masterSecret, p.masterSalt, p.senderId, p.recipientId)
  {
    hide Derive, KeysConsistent, KeysComeFrom;
    InitConsistent(c, p);
    ConsistentComesFrom(c, InitState(c, p).value);
  }

  // ----- when initialisation succeeds -----

  /** The size of an encoded byte string of n bytes. */
  function BstrLen(n: nat): nat {
    n + if n <= 23 then 1 else if n <= 0xFF then 2 else if n <= 0xFFFF then 3 else 5
  }

  lemma {:induction false} InfoLen(id: Bytes, idContext: Bytes, t: DeriveType)
    ensures |Info(id, idContext, t)| ==
            (if t == Key then 7 else 6) + BstrLen(|id|) + if idContext == [] then 1 else BstrLen(|idContext|)
  {
    hide Cbor.Head;
  }

  lemma {:induction false} DeriveSucceedsIff(c: Primitives, cc: CommonContext, id: Bytes, t: DeriveType)
    ensures Derive(c, cc, id, t).Ok? <==>
            (if t == Key then 7 else 6) + BstrLen(|id|) + (if cc.idContext == [] then 1 else BstrLen(|cc.idContext|)) <= 50
  {
    hide Okm, Info, Extract, BstrLen;
    InfoLen(id, cc.idContext, t);
  }

  /** Initialisation succeeds exactly for the supported algorithms and identifiers within the buffers. */
  lemma {:induction false} InitSucceedsIff(c: Primitives, p: InitParams)
    ensures var idContext := if p.idContext == [] then 1 else BstrLen(|p.idContext|);
      InitState(c, p).Ok? <==>
        && p.aeadAlg == 10 && p.hkdf == 0
        && BstrLen(|p.senderId|) + idContext <= 43 && BstrLen(|p.recipientId|) + idContext <= 43
        && (if p.device == Client then |p.idContext| <= 8 && |p.senderId| <= 7 else |p.recipientId| <= 7)
  {
    hide Derive;
    var cc := CommonContext(p.masterSecret, p.masterSalt, p.idContext, Zeros(NONCE_LEN));
    DeriveSucceedsIff(c, cc, [], CommonIv);
    DeriveSucceedsIff(c, cc, p.recipientId, Key);
    DeriveSucceedsIff(c, cc, p.senderId, Key);
  }
}
