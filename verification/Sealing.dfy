/** Everything that `coap2oscore` encrypts over runs of arbitrary calls, and which nonces are used twice. */
module Sealing {
  import opened Common
  import opened Crypto
  import opened CoapOption
  import opened CoapBody
  import opened CoapPacket
  import opened OptionSplit
  import opened OptionMerge
  import opened OscoreOption
  import opened Nonce
  import opened Cose
  import opened SecurityContext
  import opened Derivation
  import opened Protect
  import opened Unprotect
  import opened RoundTrip
  import opened Session
  import opened ContextRuns
  import Replay = ReplayWindow

  // ----- what a call encrypts -----

  /** The inputs of one encryption. */
  datatype Sealed = Sealed(key: Bytes, nonce: Iv, aad: Bytes, plaintext: Bytes)

  /** What a call passes to the AEAD, if it gets that far; writing the packet may still fail afterwards. */
  function SealedBy(order: ByteOrder, s: State, call: Call): Option<Sealed> {
    var p := ReadPacket(call.buf);
    if call.Unprotecting? || p.Fail? || IsMessagingLayer(p.value) then None else
    var plaintext := SetupPlaintext(p.value.code, InnerBody(p.value), PredictedLen(p.value.body.options, 0));
    if plaintext.Fail? then None else
    var (value, s1) := if IsRequestCode(p.value.code) then PrepareRequest(order, s) else (Ok([]), s);
    if value.Fail? || MAX_CIPHERTEXT_LEN < |plaintext.value| + AUTH_TAG_LEN
       || MAX_AAD_LEN < |s1.rrc.aad| + ENCRYPT0_ENCODING_OVERHEAD then None
    else Some(Sealed(s1.sc.key, s1.rrc.nonce, s1.rrc.aad, plaintext.value))
  }

  /** The option value that goes with it. */
  function ValueFor(order: ByteOrder, s: State, p: Packet): OptionValue {
    if IsRequestCode(p.code) then NextOptionValue(order, s) else []
  }

  /** Nothing leaves the library encrypted but the ciphertext of what is recorded. */
  lemma {:induction false} OutputIsSealed(c: Primitives, order: ByteOrder, s: State, call: Call)
    requires call.Protecting? && ProtectBytes(c, order, call.buf, call.capacity, s).0.Ok?
    requires !IsMessagingLayer(ReadPacket(call.buf).value)
    ensures var p := ReadPacket(call.buf).value;
      && SealedBy(order, s, call).Some?
      && var x := SealedBy(order, s, call).value;
         ProtectBytes(c, order, call.buf, call.capacity, s).0 ==
         WritePacket(
           OuterPacket(p, ValueFor(order, s, p), c.seal(x.key, x.nonce, EncStructure(x.aad), x.plaintext, AUTH_TAG_LEN)),
           call.capacity)
  {
    hide ReadPacket, SetupPlaintext, PrepareRequest, Select, PredictedLen, WritePacket, WithOscore, NextOptionValue;
    hide EncStructure;
    var p := ReadPacket(call.buf).value;
    if PrepareRequest(order, s).0.Ok? {
      NextValueIs(order, s);
    }
  }

  /** The nonce, the key and the associated data are those of the context that the call leaves. */
  lemma {:induction false} SealedUnder(c: Primitives, order: ByteOrder, s: State, call: Call)
    requires SealedBy(order, s, call).Some?
    ensures var x, s1 := SealedBy(order, s, call).value, After(c, order, s, call);
      && x.key == s1.sc.key && x.nonce == s1.rrc.nonce && x.aad == s1.rrc.aad
      && |s1.rrc.aad| + ENCRYPT0_ENCODING_OVERHEAD <= MAX_AAD_LEN
      && (!Consumes(call) ==> s1 == s)
      && (Consumes(call) ==> PrepareRequest(order, s).0.Ok? && s1 == PrepareRequest(order, s).1)
  {
    hide ReadPacket, SetupPlaintext, PrepareRequest, Seal, Select, PredictedLen;
  }

  // ----- where the nonces come from -----

  /** The PIV that a call makes a nonce from, also when it fails later; none is the empty PIV. */
  function NoncePiv(c: Primitives, order: ByteOrder, s: State, call: Call): Piv {
    match call
    case Protecting(_, _) =>
      var piv := SsnToPiv(s.sc.seqNum, order);
      if Consumes(call) && piv.Ok? then piv.value else []
    case Unprotecting(buf, _) =>
      var p := ReadPacket(buf);
      if p.Fail? || !IsRequestCode(p.value.code) then [] else
      var found := FindOscore(p.value.body.options, NotOscore);
      if found.Ok? && found.value.Oscore? then ReceivedPiv(c, found.value.option, s) else []
  }

  /** The PIV of a received request, once its identifiers are accepted. */
  function ReceivedPiv(c: Primitives, option: Compressed, s: State): Piv {
    if && option.Compressed? && s.rc.id == option.kid
       && TakeKidContext(c, option.kidContext, s.(rrc := s.rrc.(piv := option.piv))).0.Ok?
    then option.piv else []
  }

  /**
   * One encryption in a run: whether it was a request's, the PIV that the current nonce was made
   * from, the ID context, and the sequence number that was consumed last.
   */
  datatype Record = Record(sealed: Sealed, request: bool, piv: Piv, idContext: Bytes, last: uint64)

  /** The PIV of the current nonce, and all encryptions so far. */
  datatype History = History(piv: Piv, records: seq<Record>)

  function Extend(c: Primitives, order: ByteOrder, s: State, call: Call, h: History): History {
    var made, sealed, s1 := NoncePiv(c, order, s, call), SealedBy(order, s, call), After(c, order, s, call);
    var piv, next: int := if made == [] then h.piv else made, s1.sc.seqNum;
    History(piv, h.records +
      if sealed.None? then [] else [Record(sealed.value, Consumes(call), piv, s1.cc.idContext, U64(next - 1))])
  }

  function HistoryOf(c: Primitives, order: ByteOrder, s: State, calls: seq<Call>): History {
    if calls == [] then History([], [])
    else
      var before := calls[..|calls| - 1];
      Extend(c, order, Run(c, order, s, before), calls[|calls| - 1], HistoryOf(c, order, s, before))
  }

  // ----- key and nonce of every encryption -----

  /** What a run never changes; its nonce was made from this PIV, and before the first nonce nothing can be sealed. */
  ghost predicate MadeFrom(c: Primitives, first: State, s: State, piv: Piv) {
    && KeysConsistent(c, s)
    && s.cc.masterSecret == first.cc.masterSecret && s.cc.masterSalt == first.cc.masterSalt
    && s.sc.id == first.sc.id && s.rc.id == first.rc.id && s.rrc.kid == first.rrc.kid
    && (piv == [] ==> |s.rrc.aad| == MAX_AAD_LEN)
    && (piv != [] ==> s.rrc.nonce == MakeNonce(s.rrc.kid, piv, s.cc.commonIv))
  }

  lemma {:induction false} PrepareMakes(c: Primitives, order: ByteOrder, first: State, s: State, piv: Piv)
    requires MadeFrom(c, first, s, piv)
    ensures var made := SsnToPiv(s.sc.seqNum, order);
      MadeFrom(c, first, PrepareRequest(order, s).1, if made.Ok? then made.value else piv)
  {
    hide Derive, MakeNonce, Aad, SsnToPiv, EncodeValue;
  }

  lemma {:induction false} UpdateMakes(c: Primitives, option: Compressed, first: State, s: State, piv: Piv)
    requires MadeFrom(c, first, s, piv)
    ensures var made := ReceivedPiv(c, option, s);
      MadeFrom(c, first, AcceptRequest(c, option, s).1, if made == [] then piv else made)
  {
    hide Derive, MakeNonce, Aad, Rederive;
    if option.Compressed? {
      UpdateConsistent(c, option.piv, option.kidContext, s);
      if |option.kidContext| <= |s.cc.idContext| {
        var kidContext := if |option.kidContext| <= MAX_KID_CONTEXT_LEN then option.kidContext else [];
        RederiveConsistent(
          c, s.(rrc := s.rrc.(piv := option.piv, kidContext := kidContext)), option.kidContext);
      }
    }
  }

  lemma {:induction false} UnprotectMakes(c: Primitives, order: ByteOrder, first: State, s: State, call: Call, piv: Piv)
    requires MadeFrom(c, first, s, piv) && call.Unprotecting?
    ensures var made := NoncePiv(c, order, s, call);
      MadeFrom(c, first, After(c, order, s, call), if made == [] then piv else made)
  {
    hide MadeFrom, ReadPacket, FindOscore, AcceptRequest, ReceivedPiv, OpenPayload, Rebuild, Replay.Updated;
    var p := ReadPacket(call.buf);
    if p.Ok? {
      var found := FindOscore(p.value.body.options, NotOscore);
      if found.Ok? && found.value.Oscore? {
        var made := ReceivedPiv(c, found.value.option, s);
        var s1 := AcceptRequest(c, found.value.option, s).1;
        UpdateMakes(c, found.value.option, first, s, piv);
        WindowIsIrrelevant(c, first, s1, After(c, order, s, call).window, if made == [] then piv else made);
      }
    }
  }

  lemma {:induction false} WindowIsIrrelevant(c: Primitives, first: State, s: State, window: Replay.Window, piv: Piv)
    ensures MadeFrom(c, first, s.(window := window), piv) == MadeFrom(c, first, s, piv)
  {
    hide Derive, MakeNonce;
  }

  lemma {:induction false} CallMakes(c: Primitives, order: ByteOrder, first: State, s: State, call: Call, piv: Piv)
    requires MadeFrom(c, first, s, piv)
    ensures var made := NoncePiv(c, order, s, call);
      MadeFrom(c, first, After(c, order, s, call), if made == [] then piv else made)
  {
    hide MadeFrom, After, Consumes, PrepareRequest;
    if call.Protecting? {
      AfterProtecting(c, order, s, call);
      PrepareMakes(c, order, first, s, piv);
    } else {
      UnprotectMakes(c, order, first, s, call, piv);
    }
  }

  /** Sealed under the key of its ID context, and under the nonce of its PIV and that ID context's IV. */
  predicate Follows(c: Primitives, first: State, r: Record) {
    var cc := first.cc.(idContext := r.idContext);
    var iv := Derive(c, cc, [], CommonIv);
    && r.piv != []
    && Derive(c, cc, first.sc.id, Key) == Ok(r.sealed.key)
    && iv.Ok? && r.sealed.nonce == MakeNonce(first.rrc.kid, r.piv, iv.value)
  }

  lemma {:induction false} StateFollows(c: Primitives, first: State, s: State, piv: Piv, r: Record)
    requires MadeFrom(c, first, s, piv) && |s.rrc.aad| + ENCRYPT0_ENCODING_OVERHEAD <= MAX_AAD_LEN
    requires r.sealed.key == s.sc.key && r.sealed.nonce == s.rrc.nonce && r.piv == piv && r.idContext == s.cc.idContext
    ensures Follows(c, first, r)
  {
    hide Derive, MakeNonce;
    var cc := first.cc.(idContext := s.cc.idContext);
    assert cc.(commonIv := s.cc.commonIv) == s.cc;
    DeriveIgnoresIv(c, cc, s.cc.commonIv, [], CommonIv);
    DeriveIgnoresIv(c, cc, s.cc.commonIv, first.sc.id, Key);
  }

  ghost predicate AllFollow(c: Primitives, first: State, records: seq<Record>) {
    forall i :: 0 <= i < |records| ==> Follows(c, first, records[i])
  }

  lemma {:induction false} ExtendFollows(
      c: Primitives, order: ByteOrder, first: State, s: State, call: Call, h: History)
    requires MadeFrom(c, first, s, h.piv) && AllFollow(c, first, h.records)
    ensures var h1 := Extend(c, order, s, call, h);
      MadeFrom(c, first, After(c, order, s, call), h1.piv) && AllFollow(c, first, h1.records)
  {
    hide MadeFrom, After, Consumes, SealedBy, NoncePiv, Follows;
    CallMakes(c, order, first, s, call, h.piv);
    if SealedBy(order, s, call).Some? {
      var h1 := Extend(c, order, s, call, h);
      SealedUnder(c, order, s, call);
      StateFollows(c, first, After(c, order, s, call), h1.piv, h1.records[|h.records|]);
    }
  }

  /** A context before its first nonce. */
  ghost predicate Unused(c: Primitives, s: State) {
    KeysConsistent(c, s) && |s.rrc.aad| == MAX_AAD_LEN
  }

  lemma {:induction false} InitIsUnused(c: Primitives, p: InitParams)
    requires InitState(c, p).Ok?
    ensures Unused(c, InitState(c, p).value)
  {
    hide Derive, KeysConsistent;
    InitConsistent(c, p);
  }

  lemma {:induction false} UnusedIsMade(c: Primitives, s: State)
    requires Unused(c, s)
    ensures MadeFrom(c, s, s, [])
  {
    hide Derive;
  }

  /**
   * Every encryption in every run, with any calls and any bytes from the network, takes its key
   * from the ID context of that moment, and its nonce from that ID context and the PIV of the
   * last request that was prepared or let in.
   */
  lemma {:induction false} EverySealFollows(c: Primitives, order: ByteOrder, s: State, calls: seq<Call>)
    requires Unused(c, s)
    ensures var h := HistoryOf(c, order, s, calls);
      MadeFrom(c, s, Run(c, order, s, calls), h.piv) && AllFollow(c, s, h.records)
    decreases |calls|
  {
    hide MadeFrom, After, Follows, Extend, Unused;
    if calls == [] {
      UnusedIsMade(c, s);
    } else {
      var before := calls[..|calls| - 1];
      EverySealFollows(c, order, s, before);
      ExtendFollows(c, order, s, Run(c, order, s, before), calls[|calls| - 1], HistoryOf(c, order, s, before));
    }
  }

  /**
   * In every reachable state, whatever was called with whatever bytes, IV and keys come from the
   * secret, salt and identifiers of the initialisation and the ID context of that moment.
   */
  lemma {:induction false} RunKeysComeFrom(c: Primitives, order: ByteOrder, p: InitParams, calls: seq<Call>)
    requires InitState(c, p).Ok?
    ensures KeysComeFrom(
        c, Run(c, order, InitState(c, p).value, calls), p.masterSecret, p.masterSalt, p.senderId, p.recipientId)
  {
    hide InitState, Run, HistoryOf, AllFollow, Unused, KeysComeFrom, KeysConsistent;
    InitIsUnused(c, p);
    EverySealFollows(c, order, InitState(c, p).value, calls);
    ConsistentComesFrom(c, Run(c, order, InitState(c, p).value, calls));
    InitKeeps(c, p);
  }

  lemma {:induction false} InitKeeps(c: Primitives, p: InitParams)
    requires InitState(c, p).Ok?
    ensures var s := InitState(c, p).value;
      && s.cc.masterSecret == p.masterSecret && s.cc.masterSalt == p.masterSalt && s.cc.idContext == p.idContext
      && s.sc.id == p.senderId && s.rc.id == p.recipientId && s.sc.seqNum == 0
  {
    hide Derive;
  }

  // ----- when two encryptions share a nonce -----

  lemma {:induction false} FollowersCoincideIff(c: Primitives, first: State, r: Record, t: Record)
    requires Follows(c, first, r) && Follows(c, first, t) && r.idContext == t.idContext
    ensures r.sealed.key == t.sealed.key
    ensures r.sealed.nonce == t.sealed.nonce <==> LeftPad(r.piv, MAX_PIV_LEN) == LeftPad(t.piv, MAX_PIV_LEN)
  {
    hide Derive, MakeNonce, LeftPad;
    var iv := Derive(c, first.cc.(idContext := r.idContext), [], CommonIv).value;
    NonceEqualIff(first.rrc.kid, r.piv, first.rrc.kid, t.piv, iv);
  }

  /**
   * Client or server, any calls, any bytes: two encryptions under one ID context have the same
   * key, and they have the same nonce if and only if their PIVs are equal after left padding.
   */
  lemma {:induction false} NoncesCoincideIff(
      c: Primitives, order: ByteOrder, p: InitParams, calls: seq<Call>, i: nat, j: nat)
    requires InitState(c, p).Ok?
    requires var records := HistoryOf(c, order, InitState(c, p).value, calls).records;
      i < |records| && j < |records| && records[i].idContext == records[j].idContext
    ensures var records := HistoryOf(c, order, InitState(c, p).value, calls).records;
      var r, t := records[i], records[j];
      && r.piv != [] && t.piv != [] && r.sealed.key == t.sealed.key
      && (r.sealed.nonce == t.sealed.nonce <==> LeftPad(r.piv, MAX_PIV_LEN) == LeftPad(t.piv, MAX_PIV_LEN))
  {
    hide InitState, HistoryOf, MadeFrom, LeftPad, Unused;
    var s := InitState(c, p).value;
    InitIsUnused(c, p);
    EverySealFollows(c, order, s, calls);
    var records := HistoryOf(c, order, s, calls).records;
    FollowersCoincideIff(c, s, records[i], records[j]);
  }

  lemma {:induction false} PaddedNumbersIff(m: uint64, n: uint64)
    requires m < 0x100_0000_0000 && n < 0x100_0000_0000
    ensures |Shortest(m)| <= MAX_PIV_LEN && |Shortest(n)| <= MAX_PIV_LEN
    ensures LeftPad(Shortest(m), MAX_PIV_LEN) == LeftPad(Shortest(n), MAX_PIV_LEN)
       <==> exists k :: m == Scale(n, k) || n == Scale(m, k)
  {
    hide LeftPad, Scale, SsnToPiv, MakeNonce;
    PivIsShortest(m);
    PivIsShortest(n);
    NonceEqualIff([], Shortest(m), [], Shortest(n), Zeros(NONCE_LEN));
    NonceRepeatsIff(m, n, [], Zeros(NONCE_LEN));
  }

  /**
   * In particular a server that answers requests with numbers m and n from little-endian
   * clients, or a client that sends them: the nonces coincide exactly for numbers that differ
   * by whole low-order zero bytes, equal numbers among them.
   */
  lemma {:induction false} NumberedNoncesCoincideIff(
      c: Primitives, order: ByteOrder, p: InitParams, calls: seq<Call>, i: nat, j: nat, m: uint64, n: uint64)
    requires InitState(c, p).Ok? && m < 0x100_0000_0000 && n < 0x100_0000_0000
    requires var records := HistoryOf(c, order, InitState(c, p).value, calls).records;
      && i < |records| && j < |records| && records[i].idContext == records[j].idContext
      && records[i].piv == Shortest(m) && records[j].piv == Shortest(n)
    ensures var records := HistoryOf(c, order, InitState(c, p).value, calls).records;
      records[i].sealed.nonce == records[j].sealed.nonce <==> exists k :: m == Scale(n, k) || n == Scale(m, k)
  {
    hide InitState, HistoryOf, LeftPad, Shortest, Scale;
    NoncesCoincideIff(c, order, p, calls, i, j);
    PaddedNumbersIff(m, n);
  }

  // ----- a client -----

  /** From 2^40 on no nonce is made any more. */
  function Capped(n: uint64): uint64 {
    if n < 0x100_0000_0000 then n else 0xFF_FFFF_FFFF
  }

  /** The PIV in use after n consumed numbers. */
  function PivAfter(n: uint64): Bytes {
    if n == 0 then [] else Shortest(Capped(n - 1))
  }

  /** A record of a client: requests come under new numbers below 256, responses under the last one. */
  predicate ClientRecord(first: State, records: seq<Record>, i: nat)
    requires i < |records|
  {
    var r := records[i];
    && r.idContext == first.cc.idContext && r.piv == Shortest(Capped(r.last))
    && (r.request ==> r.last < 0x100 && forall k :: 0 <= k < i ==> records[k].last < r.last)
  }

  ghost predicate ClientHistory(first: State, s: State, h: History) {
    && Roomy(s) && s.cc == first.cc && s.rrc.kid == first.rrc.kid
    && h.piv == PivAfter(s.sc.seqNum)
    && (forall i :: 0 <= i < |h.records| ==> ClientRecord(first, h.records, i))
    && (forall i :: 0 <= i < |h.records| ==> h.records[i].last < s.sc.seqNum)
  }

  lemma {:induction false} QuietMakesNone(c: Primitives, order: ByteOrder, s: State, call: Call)
    requires Quiet(call) && !Consumes(call)
    ensures NoncePiv(c, order, s, call) == []
  {
    hide ReadPacket, FindOscore, ReceivedPiv, SsnToPiv, Consumes;
  }

  lemma {:induction false} ConsumingMakes(c: Primitives, s: State, call: Call)
    requires Consumes(call) && s.sc.seqNum < 0xFFFF_FFFF_FFFF_FFFF
    ensures var made := NoncePiv(c, LittleEndian, s, call);
      var piv := PivAfter(s.sc.seqNum + 1);
      if made == [] then s.sc.seqNum > 0 && piv == PivAfter(s.sc.seqNum) else piv == made
  {
    hide Consumes, SsnToPiv, Shortest;
    OnlyProtectingConsumes(call);
    PivIsShortest(s.sc.seqNum);
  }

  lemma {:induction false} ClientExtends(c: Primitives, first: State, s: State, call: Call, h: History)
    requires ClientHistory(first, s, h) && Quiet(call) && s.sc.seqNum < 0xFFFF_FFFF_FFFF_FFFF
    requires var records := Extend(c, LittleEndian, s, call, h).records;
      forall i :: 0 <= i < |records| ==> records[i].piv != []
    ensures var s1 := After(c, LittleEndian, s, call);
      && ClientHistory(first, s1, Extend(c, LittleEndian, s, call, h))
      && s.sc.seqNum <= s1.sc.seqNum <= s.sc.seqNum + 1
  {
    hide After, Consumes, SealedBy, NoncePiv, Roomy, Quiet, PrepareRequest, Shortest, MakeNonce, Capped;
    var s1, h1 := After(c, LittleEndian, s, call), Extend(c, LittleEndian, s, call, h);
    QuietKeepsRoom(c, s, call);
    StepCounts(c, LittleEndian, s, call);
    if Consumes(call) {
      ConsumingMakes(c, s, call);
    } else {
      QuietMakesNone(c, LittleEndian, s, call);
    }
    if SealedBy(LittleEndian, s, call).Some? {
      SealedUnder(c, LittleEndian, s, call);
      PrepareIff(s);
      assert h1.records[|h.records|].piv == h1.piv;
    }
    forall i | 0 <= i < |h1.records|
      ensures ClientRecord(first, h1.records, i)
    {
      if i < |h.records| {
        assert ClientRecord(first, h.records, i);
        assert forall k :: 0 <= k <= i ==> h1.records[k] == h.records[k];
      }
    }
  }

  lemma {:induction false} ClientThroughout(c: Primitives, s: State, calls: seq<Call>)
    requires Unused(c, s) && Roomy(s) && s.sc.seqNum == 0 && |calls| < 0x1_0000_0000_0000_0000
    requires forall k :: 0 <= k < |calls| ==> Quiet(calls[k])
    ensures var s1 := Run(c, LittleEndian, s, calls);
      ClientHistory(s, s1, HistoryOf(c, LittleEndian, s, calls)) && s1.sc.seqNum <= |calls|
    decreases |calls|
  {
    hide MadeFrom, After, Extend, Quiet, Roomy, Unused, ClientRecord, Shortest;
    if calls != [] {
      var before := calls[..|calls| - 1];
      ClientThroughout(c, s, before);
      EverySealFollows(c, LittleEndian, s, calls);
      ClientExtends(
        c, s, Run(c, LittleEndian, s, before), calls[|calls| - 1], HistoryOf(c, LittleEndian, s, before));
    }
  }

  lemma {:induction false} InitClient(c: Primitives, p: InitParams, calls: seq<Call>)
    requires InitState(c, p).Ok? && |calls| < 0x1_0000_0000_0000_0000
    requires forall k :: 0 <= k < |calls| ==> Quiet(calls[k])
    ensures var s := InitState(c, p).value;
      var s1, h := Run(c, LittleEndian, s, calls), HistoryOf(c, LittleEndian, s, calls);
      ClientHistory(s, s1, h) && MadeFrom(c, s, s1, h.piv) && AllFollow(c, s, h.records)
  {
    hide InitState, HistoryOf, Run, Quiet, Roomy, Unused, ClientHistory, MadeFrom, AllFollow;
    InitIsUnused(c, p);
    InitIsRoomy(c, p);
    ClientThroughout(c, InitState(c, p).value, calls);
    EverySealFollows(c, LittleEndian, InitState(c, p).value, calls);
  }

  /**
   * Once a number has been consumed the client holds the nonce of the last number below 2^40,
   * whether or not the call that consumed it succeeded.
   */
  lemma {:induction false} ClientHoldsLastNonce(c: Primitives, p: InitParams, calls: seq<Call>)
    requires InitState(c, p).Ok? && |calls| < 0x1_0000_0000_0000_0000
    requires forall k :: 0 <= k < |calls| ==> Quiet(calls[k])
    ensures var s := Run(c, LittleEndian, InitState(c, p).value, calls);
      s.sc.seqNum > 0 ==>
        var piv := Shortest(Capped(s.sc.seqNum - 1));
        |piv| <= MAX_PIV_LEN && s.rrc.nonce == MakeNonce(s.rrc.kid, piv, s.cc.commonIv)
  {
    hide InitState, HistoryOf, Run, Quiet, Roomy, AllFollow, Shortest, MakeNonce, Derive, Capped;
    InitClient(c, p, calls);
  }

  /**
   * On a little-endian client, two encryptions after the numbers m and n were consumed last
   * share key and nonce if and only if m and n differ by whole low-order zero bytes, equal
   * numbers among them; numbers from 2^40 on count as the last one below.
   */
  lemma {:induction false} ClientNoncesCoincideIff(c: Primitives, p: InitParams, calls: seq<Call>, i: nat, j: nat)
    requires InitState(c, p).Ok? && |calls| < 0x1_0000_0000_0000_0000
    requires forall k :: 0 <= k < |calls| ==> Quiet(calls[k])
    requires var records := HistoryOf(c, LittleEndian, InitState(c, p).value, calls).records;
      i < |records| && j < |records|
    ensures var records := HistoryOf(c, LittleEndian, InitState(c, p).value, calls).records;
      var m, n := Capped(records[i].last), Capped(records[j].last);
      && records[i].sealed.key == records[j].sealed.key
      && (records[i].sealed.nonce == records[j].sealed.nonce <==> exists k :: m == Scale(n, k) || n == Scale(m, k))
  {
    hide InitState, HistoryOf, Run, Quiet, Roomy, Follows, Shortest, MadeFrom, LeftPad, Scale;
    var s := InitState(c, p).value;
    var records := HistoryOf(c, LittleEndian, s, calls).records;
    InitClient(c, p, calls);
    assert ClientRecord(s, records, i) && ClientRecord(s, records, j);
    FollowersCoincideIff(c, s, records[i], records[j]);
    PaddedNumbersIff(Capped(records[i].last), Capped(records[j].last));
  }

  /** The nonce of an encrypted request differs from those of all encryptions before it: only responses reuse one. */
  lemma {:induction false} RequestNonceIsNew(c: Primitives, p: InitParams, calls: seq<Call>, i: nat, j: nat)
    requires InitState(c, p).Ok? && |calls| < 0x1_0000_0000_0000_0000
    requires forall k :: 0 <= k < |calls| ==> Quiet(calls[k])
    requires var records := HistoryOf(c, LittleEndian, InitState(c, p).value, calls).records;
      i < j < |records| && records[j].request
    ensures var records := HistoryOf(c, LittleEndian, InitState(c, p).value, calls).records;
      records[i].sealed.nonce != records[j].sealed.nonce
  {
    hide InitState, HistoryOf, Run, Quiet, Roomy, Follows, MadeFrom, LeftPad;
    var s := InitState(c, p).value;
    var records := HistoryOf(c, LittleEndian, s, calls).records;
    InitClient(c, p, calls);
    assert ClientRecord(s, records, i) && ClientRecord(s, records, j);
    FollowersCoincideIff(c, s, records[i], records[j]);
    BytesPadApart(records[i].last, records[j].last);
  }

  lemma {:induction false} BytesPadApart(a: byte, b: byte)
    requires a != b
    ensures Shortest(a) == [a] && Shortest(b) == [b]
    ensures LeftPad([a], MAX_PIV_LEN) != LeftPad([b], MAX_PIV_LEN)
  {
    assert LeftPad([a], MAX_PIV_LEN)[4] == a && LeftPad([b], MAX_PIV_LEN)[4] == b;
  }

  // ----- responses -----

  /** A response is encrypted under what stands in the context, and leaves it there. */
  lemma {:induction false} ResponseSeal(order: ByteOrder, s: State, call: Call)
    requires call.Protecting? && IsResponse(call.buf) && SealedBy(order, s, call).Some?
    ensures var x := SealedBy(order, s, call).value;
      && x.key == s.sc.key && x.nonce == s.rrc.nonce && x.aad == s.rrc.aad
      && x.plaintext != [] && x.plaintext[0] == ReadPacket(call.buf).value.code
      && !Consumes(call)
  {
    hide ReadPacket, Select, PredictedLen, EncodeOptions, MaxEncodedLen;
  }

  lemma {:induction false} RequestSeal(order: ByteOrder, s: State, call: Call)
    requires call.Protecting? && IsRequest(call.buf) && SealedBy(order, s, call).Some?
    ensures var x := SealedBy(order, s, call).value;
      && x.plaintext != [] && x.plaintext[0] == ReadPacket(call.buf).value.code
      && Consumes(call)
  {
    hide ReadPacket, Select, PredictedLen, EncodeOptions, MaxEncodedLen, PrepareRequest;
  }

  lemma {:induction false} SealedAtLast(c: Primitives, order: ByteOrder, s: State, calls: seq<Call>, call: Call)
    requires SealedBy(order, Run(c, order, s, calls), call).Some?
    ensures var records, all := HistoryOf(c, order, s, calls).records, HistoryOf(c, order, s, calls + [call]).records;
      |all| == |records| + 1 && all[..|records|] == records
      && all[|records|].sealed == SealedBy(order, Run(c, order, s, calls), call).value
    ensures Run(c, order, s, calls + [call]) == After(c, order, Run(c, order, s, calls), call)
  {
    hide SealedBy, NoncePiv, After, Consumes;
    assert (calls + [call])[..|calls|] == calls;
  }

  /** The sample request, and two different responses to it. */
  const REQUEST := Protecting(Serialize(SAMPLE_GET), 23)

  function Answer(code: byte): Call { Protecting(Serialize(Sample(code)), 20) }

  const CHANGED := 0x44
  const CONTENT := 0x45

  predicate SameNonceOtherText(r: Record, t: Record) {
    && r.sealed.key == t.sealed.key && r.sealed.nonce == t.sealed.nonce && r.sealed.aad == t.sealed.aad
    && r.sealed.plaintext != t.sealed.plaintext
  }

  lemma {:induction false} AnswerIsSealed(c: Primitives, code: byte, s: State)
    requires c.Laws() && !IsRequestCode(code) && |s.rrc.aad| <= 14
    ensures SealedBy(LittleEndian, s, Answer(code)).Some? && After(c, LittleEndian, s, Answer(code)) == s
    ensures var x := SealedBy(LittleEndian, s, Answer(code)).value;
      && x.key == s.sc.key && x.nonce == s.rrc.nonce && x.aad == s.rrc.aad
      && x.plaintext != [] && x.plaintext[0] == code
  {
    hide ReadPacket, Serialize, ProtectBytes, SealedBy, Ordered, Seal, WritePacket, OuterPacket, Consumes;
    SampleIsResponse(code);
    SampleAnswered(c, code, s, 20);
    OutputIsSealed(c, LittleEndian, s, Answer(code));
    ResponseSeal(LittleEndian, s, Answer(code));
    SealedUnder(c, LittleEndian, s, Answer(code));
  }

  lemma {:induction false} RequestIsSealed(c: Primitives, s: State)
    requires c.Laws() && SampleFresh(s)
    ensures SealedBy(LittleEndian, s, REQUEST).Some?
    ensures var x, s1 := SealedBy(LittleEndian, s, REQUEST).value, After(c, LittleEndian, s, REQUEST);
      && x.key == s1.sc.key && x.nonce == s1.rrc.nonce && x.aad == s1.rrc.aad && |s1.rrc.aad| <= 14
      && x.plaintext != [] && x.plaintext[0] == 1
  {
    hide ReadPacket, Serialize, ProtectBytes, SealedBy, Ordered, Seal, WritePacket, OuterPacket, Consumes, Survives, SampleFresh;
    hide After;
    SampleIsRequest();
    SampleProtected(c, s, 23);
    OutputIsSealed(c, LittleEndian, s, REQUEST);
    RequestSeal(LittleEndian, s, REQUEST);
    SealedUnder(c, LittleEndian, s, REQUEST);
  }

  /** A client that sends a request and then a response encrypts two plaintexts under one key, nonce and AAD. */
  lemma {:induction false} ClientReusesNonce(c: Primitives, secret: Bytes, salt: Bytes)
    requires c.Laws()
    ensures InitState(c, SampleClient(secret, salt)).Ok? && Quiet(REQUEST) && Quiet(Answer(CONTENT))
    ensures var records := HistoryOf(
        c, LittleEndian, InitState(c, SampleClient(secret, salt)).value, [REQUEST, Answer(CONTENT)]).records;
      |records| == 2 && SameNonceOtherText(records[0], records[1])
  {
    hide InitState, SealedBy, After, Peered, SampleFresh, Serialize, ReadPacket, Run, HistoryOf;
    SampleContexts(c, secret, salt);
    var s := InitState(c, SampleClient(secret, salt)).value;
    RequestIsSealed(c, s);
    NothingYet(c, LittleEndian, s);
    SealedAtLast(c, LittleEndian, s, [], REQUEST);
    assert [] + [REQUEST] == [REQUEST];
    AnswerIsSealed(c, CONTENT, After(c, LittleEndian, s, REQUEST));
    SealedAtLast(c, LittleEndian, s, [REQUEST], Answer(CONTENT));
    assert [REQUEST] + [Answer(CONTENT)] == [REQUEST, Answer(CONTENT)];
  }

  lemma {:induction false} NothingYet(c: Primitives, order: ByteOrder, s: State)
    ensures Run(c, order, s, []) == s && HistoryOf(c, order, s, []).records == []
  {
  }

  lemma {:induction false} ReceivingSealsNothing(c: Primitives, order: ByteOrder, s: State, buf: Bytes, capacity: nat)
    ensures var calls := [Unprotecting(buf, capacity)];
      HistoryOf(c, order, s, calls).records == [] && Run(c, order, s, calls) == UnprotectBytes(c, buf, capacity, s).1
  {
    hide UnprotectBytes, NoncePiv;
    var calls := [Unprotecting(buf, capacity)];
    assert calls[..0] == [];
  }

  /** A server that answers one request twice encrypts two plaintexts under one key, nonce and AAD. */
  lemma {:induction false} ServerReusesNonce(c: Primitives, secret: Bytes, salt: Bytes)
    requires c.Laws()
    ensures InitState(c, SampleClient(secret, salt)).Ok? && InitState(c, SampleServer(secret, salt)).Ok?
    ensures var client, server := InitState(c, SampleClient(secret, salt)).value, InitState(c, SampleServer(secret, salt)).value;
      var sent := ProtectBytes(c, LittleEndian, REQUEST.buf, REQUEST.capacity, client).0;
      && sent.Ok?
      && var records := HistoryOf(
             c, LittleEndian, server, [Unprotecting(sent.value, 9), Answer(CONTENT), Answer(CHANGED)]).records;
         |records| == 2 && SameNonceOtherText(records[0], records[1])
  {
    hide InitState, SealedBy, Peered, SampleFresh, Serialize, ReadPacket, Run, HistoryOf, ProtectBytes, UnprotectBytes;
    hide Survives, NextOptionValue, WritePacket;
    SampleContexts(c, secret, salt);
    var client, server := InitState(c, SampleClient(secret, salt)).value, InitState(c, SampleServer(secret, salt)).value;
    SampleIsRequest();
    SampleProtected(c, client, 23);
    RequestIsSealed(c, client);
    RequestRoundTrip(c, LittleEndian, Serialize(SAMPLE_GET), 23, 9, client, server);
    var receive := Unprotecting(ProtectBytes(c, LittleEndian, Serialize(SAMPLE_GET), 23, client).0.value, 9);
    ReceivingSealsNothing(c, LittleEndian, server, receive.buf, 9);
    TwoAnswers(c, server, receive);
  }

  lemma {:induction false} TwoAnswers(c: Primitives, s: State, receive: Call)
    requires c.Laws() && HistoryOf(c, LittleEndian, s, [receive]).records == []
    requires |Run(c, LittleEndian, s, [receive]).rrc.aad| <= 14
    ensures var records := HistoryOf(c, LittleEndian, s, [receive, Answer(CONTENT), Answer(CHANGED)]).records;
      |records| == 2 && SameNonceOtherText(records[0], records[1])
  {
    hide SealedBy, After, Serialize, ReadPacket, Run, HistoryOf;
    var s1 := Run(c, LittleEndian, s, [receive]);
    AnswerIsSealed(c, CONTENT, s1);
    SealedAtLast(c, LittleEndian, s, [receive], Answer(CONTENT));
    assert [receive] + [Answer(CONTENT)] == [receive, Answer(CONTENT)];
    AnswerIsSealed(c, CHANGED, s1);
    SealedAtLast(c, LittleEndian, s, [receive, Answer(CONTENT)], Answer(CHANGED));
    assert [receive, Answer(CONTENT)] + [Answer(CHANGED)] == [receive, Answer(CONTENT), Answer(CHANGED)];
  }
}
