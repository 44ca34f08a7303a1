/** The OSCORE security context: initialisation, key derivation and the per-request update. */
module SecurityContext {
  import opened Common
  import opened Crypto
  import opened Cbor
  import opened Hkdf
  import opened CoapOption
  import opened OscoreOption
  import opened Nonce
  import opened Cose
  import opened ReplayWindow

  const OSCORE_SHA_256 := 0
  const MAX_INFO_LEN := 50

  datatype Device = Server | Client

  datatype InitParams = InitParams(
    device: Device, masterSecret: Bytes, senderId: Bytes, recipientId: Bytes, idContext: Bytes,
    masterSalt: Bytes, aeadAlg: int, hkdf: int)

  datatype CommonContext = CommonContext(masterSecret: Bytes, masterSalt: Bytes, idContext: Bytes, commonIv: Iv)
  datatype SenderContext = SenderContext(id: Bytes, key: Bytes, seqNum: uint64)
  datatype RecipientContext = RecipientContext(id: Bytes, key: Bytes)
  /** What persists between a request and its responses; `|aad|` is also the space left for the next one. */
  datatype ReqRespContext = ReqRespContext(nonce: Iv, aad: Bytes, piv: Piv, kidContext: KidContext, kid: Kid)

  /** The contents of a context object. */
  datatype State = State(
    cc: CommonContext, sc: SenderContext, rc: RecipientContext, rrc: ReqRespContext, window: Window)

  // ----- derivation -----

  datatype DeriveType = Key | CommonIv

  function DerivedLen(t: DeriveType): nat { if t == Key then 16 else 13 }
  function TypeName(t: DeriveType): Bytes { if t == Key then Ascii("Key") else Ascii("IV") }

  /** The info structure of section 3.2.1 of RFC 8613. */
  function Info(id: Bytes, idContext: Bytes, t: DeriveType): Bytes {
    Head(List, 5) + EncodeBstr(id) + (if idContext == [] then [0xF6] else EncodeBstr(idContext))
    + EncodeInt(AES_CCM_16_64_128) + EncodeTstr(TypeName(t)) + Head(Unsigned, DerivedLen(t))
  }

  function Derive(c: Primitives, cc: CommonContext, id: Bytes, t: DeriveType): (r: Result<Bytes>)
    ensures r.Ok? ==> |r.value| == DerivedLen(t)
  {
    var info := Info(id, cc.idContext, t);
    if |info| > MAX_INFO_LEN then Fail(CborEncodingError)
    else Expand(c, Extract(c, cc.masterSalt, cc.masterSecret), info, DerivedLen(t))
  }

  /** Derivation only fails on long identifiers, and a shorter ID context never makes it fail. */
  lemma {:induction false} DeriveShorter(c: Primitives, cc: CommonContext, id: Bytes, t: DeriveType, idContext: Bytes)
    requires Derive(c, cc, id, t).Ok? && |idContext| <= |cc.idContext|
    ensures Derive(c, cc.(idContext := idContext), id, t).Ok?
  {
    hide Okm, Head, Extract;
  }

  /** Derivation succeeds for the identifiers that fit into a context, with an ID context of up to eight bytes. */
  lemma {:induction false} DeriveAvailable(c: Primitives, cc: CommonContext, id: Bytes, t: DeriveType)
    requires |id| <= 7 && |cc.idContext| <= 8
    ensures Derive(c, cc, id, t).Ok?
  {
    hide Okm, Head, Extract;
  }

  /** The keys and the IV are those of the current secret, salt, ID context and identifiers. */
  ghost predicate KeysConsistent(c: Primitives, s: State) {
    && Derive(c, s.cc, [], CommonIv) == Ok(s.cc.commonIv)
    && Derive(c, s.cc, s.sc.id, Key) == Ok(s.sc.key)
    && Derive(c, s.cc, s.rc.id, Key) == Ok(s.rc.key)
  }

  // ----- initialisation -----

  /** The contents after a successful `oscore_context_init`; buffers it does not fill are zero here. */
  function InitState(c: Primitives, p: InitParams): Result<State> {
    if p.aeadAlg != AES_CCM_16_64_128 then Fail(InvalidAlgorithmAead) else
    if p.hkdf != OSCORE_SHA_256 then Fail(InvalidAlgorithmHkdf) else
    var cc := CommonContext(p.masterSecret, p.masterSalt, p.idContext, Zeros(NONCE_LEN));
    var iv :- Derive(c, cc, [], CommonIv);
    var recipientKey :- Derive(c, cc, p.recipientId, Key);
    var senderKey :- Derive(c, cc, p.senderId, Key);
    if p.device == Client && MAX_KID_CONTEXT_LEN < |p.idContext| then Fail(BufferToSmall) else
    var kid := if p.device == Client then p.senderId else p.recipientId;
    if MAX_KID_LEN < |kid| then Fail(BufferToSmall)
    else Ok(State(
      cc.(commonIv := iv),
      SenderContext(p.senderId, senderKey, 0),
      RecipientContext(p.recipientId, recipientKey),
      ReqRespContext(Zeros(NONCE_LEN), Zeros(MAX_AAD_LEN), Zeros(MAX_PIV_LEN),
                     if p.device == Client then p.idContext else Zeros(MAX_KID_CONTEXT_LEN), kid),
      ZeroWindow()))
  }

  lemma {:induction false} DeriveIgnoresIv(c: Primitives, cc: CommonContext, iv: Iv, id: Bytes, t: DeriveType)
    ensures Derive(c, cc.(commonIv := iv), id, t) == Derive(c, cc, id, t)
  {
  }

  lemma {:induction false} InitConsistent(c: Primitives, p: InitParams)
    requires InitState(c, p).Ok?
    ensures KeysConsistent(c, InitState(c, p).value)
  {
    hide Derive;
    var cc := CommonContext(p.masterSecret, p.masterSalt, p.idContext, Zeros(NONCE_LEN));
    var s := InitState(c, p).value;
    DeriveIgnoresIv(c, cc, s.cc.commonIv, [], CommonIv);
    DeriveIgnoresIv(c, cc, s.cc.commonIv, p.recipientId, Key);
    DeriveIgnoresIv(c, cc, s.cc.commonIv, p.senderId, Key);
  }

  // ----- the update for a request -----

  /** Nonce and associated data from the current IV, KID and PIV. */
  function Refresh(s: State): (Result<()>, State) {
    var s1 := s.(rrc := s.rrc.(nonce := MakeNonce(s.rrc.kid, s.rrc.piv, s.cc.commonIv)));
    var aad := CreateAadResult(s.rrc.kid, s.rrc.piv, |s.rrc.aad|);
    if aad.Fail? then (Fail(aad.err), s1) else (Ok(()), s1.(rrc := s1.rrc.(aad := aad.value)))
  }

  /** The ID context has changed: all keys are derived again, in the order of the source. */
  function Rederive(c: Primitives, s: State): (Result<()>, State) {
    var iv := Derive(c, s.cc, [], CommonIv);
    if iv.Fail? then (Fail(iv.err), s) else
    var s1 := s.(cc := s.cc.(commonIv := iv.value));
    var sk := Derive(c, s1.cc, s.sc.id, Key);
    if sk.Fail? then (Fail(sk.err), s1) else
    var s2 := s1.(sc := s.sc.(key := sk.value));
    var rk := Derive(c, s2.cc, s.rc.id, Key);
    if rk.Fail? then (Fail(rk.err), s2) else (Ok(()), s2.(rc := s.rc.(key := rk.value)))
  }

  /** The server takes over the KID context of a request; a failed copy leaves a partial update. */
  function TakeKidContext(c: Primitives, newKidContext: Bytes, s: State): (Result<()>, State) {
    if s.cc.idContext == newKidContext then (Ok(()), s)
    else if MAX_KID_CONTEXT_LEN < |newKidContext| then (Fail(BufferToSmall), s)
    else
      var s1 := s.(rrc := s.rrc.(kidContext := newKidContext));
      if |s.cc.idContext| < |newKidContext| then (Fail(BufferToSmall), s1)
      else Rederive(c, s1.(cc := s1.cc.(idContext := newKidContext)))
  }

  /** `context_update` on a server. */
  function UpdateServer(c: Primitives, newPiv: Piv, newKidContext: Bytes, s: State): (Result<()>, State) {
    var (r, s1) := TakeKidContext(c, newKidContext, s.(rrc := s.rrc.(piv := newPiv)));
    if r.Fail? then (r, s1) else Refresh(s1)
  }

  lemma {:induction false} RederiveConsistent(c: Primitives, s: State, idContext: Bytes)
    requires KeysConsistent(c, s) && |idContext| <= |s.cc.idContext|
    ensures var (r, s1) := Rederive(c, s.(cc := s.cc.(idContext := idContext)));
      && r == Ok(()) && KeysConsistent(c, s1)
      && s1.cc.idContext == idContext
      && s1.rrc == s.rrc && s1.window == s.window && s1.sc.id == s.sc.id && s1.rc.id == s.rc.id
      && s1.cc.masterSecret == s.cc.masterSecret && s1.cc.masterSalt == s.cc.masterSalt && s1.sc.seqNum == s.sc.seqNum
  {
    hide Derive;
    var cc := s.cc.(idContext := idContext);
    DeriveShorter(c, s.cc, [], CommonIv, idContext);
    DeriveShorter(c, s.cc, s.sc.id, Key, idContext);
    DeriveShorter(c, s.cc, s.rc.id, Key, idContext);
    var iv := Derive(c, cc, [], CommonIv).value;
    DeriveIgnoresIv(c, cc, iv, [], CommonIv);
    DeriveIgnoresIv(c, cc, iv, s.sc.id, Key);
    DeriveIgnoresIv(c, cc, iv, s.rc.id, Key);
  }

  /**
   * Every update keeps the keys consistent, including the rejected ones, and none of them
   * fails for a derivation.
   */
  lemma {:induction false} UpdateConsistent(c: Primitives, newPiv: Piv, newKidContext: Bytes, s: State)
    requires KeysConsistent(c, s)
    ensures var (r, s1) := UpdateServer(c, newPiv, newKidContext, s);
      && KeysConsistent(c, s1)
      && (r.Fail? ==> r.err == BufferToSmall || r.err == UnexpectedResult)
  {
    hide Derive, Rederive, MakeNonce, Aad;
    var s0 := s.(rrc := s.rrc.(piv := newPiv));
    if |newKidContext| <= |s.cc.idContext| {
      var kidContext := if |newKidContext| <= MAX_KID_CONTEXT_LEN then newKidContext else [];
      RederiveConsistent(c, s0.(rrc := s0.rrc.(kidContext := kidContext)), newKidContext);
    }
  }

  // ----- the mutable context -----

  class Context {
    var cc: CommonContext
    var sc: SenderContext
    var rc: RecipientContext
    var rrc: ReqRespContext
    const window: array<uint64>

    ghost predicate Valid()
      reads this
    {
      window.Length == REPLAY_WINDOW_LEN
    }

    ghost function Contents(): State
      requires Valid()
      reads this, window
    {
      State(cc, sc, rc, rrc, window[..])
    }

    /** `struct context` before its initialisation. */
    constructor ()
      ensures Valid() && fresh(window)
    {
      window := new uint64[REPLAY_WINDOW_LEN](i => 0);
      cc := CommonContext([], [], [], Zeros(NONCE_LEN));
      sc := SenderContext([], [], 0);
      rc := RecipientContext([], []);
      rrc := ReqRespContext(Zeros(NONCE_LEN), [], [], [], []);
    }

    /** `oscore_context_init`. */
    method Init(c: Primitives, p: InitParams) returns (r: Result<()>)
      requires Valid()
      modifies this, window
      ensures Valid()
      ensures InitState(c, p).Fail? ==> r == Fail(InitState(c, p).err)
      ensures InitState(c, p).Ok? ==> r == Ok(()) && Contents() == InitState(c, p).value
    {
      hide Derive;
      if p.aeadAlg != AES_CCM_16_64_128 {
        return Fail(InvalidAlgorithmAead);
      }
      if p.hkdf != OSCORE_SHA_256 {
        return Fail(InvalidAlgorithmHkdf);
      }
      cc := CommonContext(p.masterSecret, p.masterSalt, p.idContext, Zeros(NONCE_LEN));
      var iv :- Derive(c, cc, [], CommonIv);
      DeriveIgnoresIv(c, cc, iv, p.recipientId, Key);
      DeriveIgnoresIv(c, cc, iv, p.senderId, Key);
      cc := cc.(commonIv := iv);
      forall i | 0 <= i < window.Length {
        window[i] := 0;
      }
      assert window[..] == ZeroWindow();
      var recipientKey :- Derive(c, cc, p.recipientId, Key);
      rc := RecipientContext(p.recipientId, recipientKey);
      var senderKey :- Derive(c, cc, p.senderId, Key);
      sc := SenderContext(p.senderId, senderKey, 0);
      rrc := ReqRespContext(Zeros(NONCE_LEN), Zeros(MAX_AAD_LEN), Zeros(MAX_PIV_LEN), Zeros(MAX_KID_CONTEXT_LEN), []);
      if p.device == Client {
        var _ :- CheckSize(MAX_KID_CONTEXT_LEN, |p.idContext|);
        rrc := rrc.(kidContext := p.idContext);
        var _ :- CheckSize(MAX_KID_LEN, |p.senderId|);
        rrc := rrc.(kid := p.senderId);
      } else {
        var _ :- CheckSize(MAX_KID_LEN, |p.recipientId|);
        rrc := rrc.(kid := p.recipientId);
      }
      return Ok(());
    }

    /** The tail of `context_update`, shared by both kinds of device. */
    method RefreshNonceAndAad(options: seq<CoapOption>) returns (r: Result<()>)
      requires Valid()
      modifies this
      ensures Valid() && (r, Contents()) == Refresh(old(Contents()))
    {
      hide MakeNonce, Aad;
      var nonce := new byte[NONCE_LEN];
      CreateNonce(rrc.kid, rrc.piv, cc.commonIv, nonce);
      rrc := rrc.(nonce := nonce[..]);
      var aad :- CreateAad(options, rrc.kid, rrc.piv, |rrc.aad|);
      rrc := rrc.(aad := aad);
      return Ok(());
    }

    method RederiveKeys(c: Primitives) returns (r: Result<()>)
      requires Valid()
      modifies this
      ensures Valid() && (r, Contents()) == Rederive(c, old(Contents()))
    {
      hide Derive;
      var iv :- Derive(c, cc, [], CommonIv);
      cc := cc.(commonIv := iv);
      var senderKey :- Derive(c, cc, sc.id, Key);
      sc := sc.(key := senderKey);
      var recipientKey :- Derive(c, cc, rc.id, Key);
      rc := rc.(key := recipientKey);
      return Ok(());
    }

    /** `context_update` for a received request. */
    method ContextUpdateServer(c: Primitives, options: seq<CoapOption>, newPiv: Piv, newKidContext: Bytes)
      returns (r: Result<()>)
      requires Valid()
      modifies this
      ensures Valid() && (r, Contents()) == UpdateServer(c, newPiv, newKidContext, old(Contents()))
    {
      hide Derive, Rederive, Refresh;
      rrc := rrc.(piv := newPiv);
      if cc.idContext != newKidContext {
        var _ :- CheckSize(MAX_KID_CONTEXT_LEN, |newKidContext|);
        rrc := rrc.(kidContext := newKidContext);
        var _ :- CheckSize(|cc.idContext|, |newKidContext|);
        cc := cc.(idContext := newKidContext);
        var _ :- RederiveKeys(c);
      }
      r := RefreshNonceAndAad(options);
    }
  }
}
