/** Arbitrary runs of calls on one context: its keys, its sequence numbers and its nonces. */
module ContextRuns {
  import opened Common
  import opened Crypto
  import opened CoapPacket
  import opened OptionSplit
  import opened OscoreOption
  import opened Nonce
  import opened Cose
  import opened SecurityContext
  import opened Protect
  import opened Unprotect
  import Replay = ReplayWindow

  /** A call of the library on the context, with whatever bytes the caller or the network supplies. */
  datatype Call = Protecting(buf: Bytes, capacity: nat) | Unprotecting(buf: Bytes, capacity: nat)

  function After(c: Primitives, order: ByteOrder, s: State, call: Call): State {
    match call
    case Protecting(buf, capacity) => ProtectBytes(c, order, buf, capacity, s).1
    case Unprotecting(buf, capacity) => UnprotectBytes(c, buf, capacity, s).1
  }

  function Run(c: Primitives, order: ByteOrder, s: State, calls: seq<Call>): State {
    if calls == [] then s
    else After(c, order, Run(c, order, s, calls[..|calls| - 1]), calls[|calls| - 1])
  }

  // ----- keys -----

  lemma {:induction false} ProtectKeepsKeys(c: Primitives, order: ByteOrder, buf: Bytes, capacity: nat, s: State)
    requires KeysConsistent(c, s)
    ensures KeysConsistent(c, ProtectBytes(c, order, buf, capacity, s).1)
  {
    hide Derive, ReadPacket, SetupPlaintext, SsnToPiv, MakeNonce, Aad, EncodeValue, Seal, Select, PredictedLen;
  }

  lemma {:induction false} UnprotectKeepsKeys(c: Primitives, buf: Bytes, capacity: nat, s: State)
    requires KeysConsistent(c, s)
    ensures KeysConsistent(c, UnprotectBytes(c, buf, capacity, s).1)
  {
    hide Derive, ReadPacket, FindOscore, UpdateServer, OpenPayload, Rebuild, Replay.Updated;
    var p := ReadPacket(buf);
    if p.Ok? {
      var found := FindOscore(p.value.body.options, NotOscore);
      if found.Ok? && found.value.Oscore? && found.value.option.Compressed? {
        var option := found.value.option;
        UpdateConsistent(c, option.piv, option.kidContext, s);
      }
    }
  }

  /**
   * In every reachable state of an initialised context, after any calls with any bytes, the
   * Common IV and both keys are those derived from the current secret, salt, ID context and IDs.
   */
  lemma {:induction false} KeysAlwaysConsistent(c: Primitives, order: ByteOrder, p: InitParams, calls: seq<Call>)
    requires InitState(c, p).Ok?
    ensures KeysConsistent(c, Run(c, order, InitState(c, p).value, calls))
  {
    hide KeysConsistent, InitState, ProtectBytes, UnprotectBytes;
    if calls == [] {
      InitConsistent(c, p);
    } else {
      var call, s := calls[|calls| - 1], Run(c, order, InitState(c, p).value, calls[..|calls| - 1]);
      KeysAlwaysConsistent(c, order, p, calls[..|calls| - 1]);
      ProtectKeepsKeys(c, order, call.buf, call.capacity, s);
      UnprotectKeepsKeys(c, call.buf, call.capacity, s);
    }
  }

  // ----- sequence numbers -----

  /** The call protects a request and gets as far as taking a sequence number. */
  predicate Consumes(call: Call) {
    call.Protecting? &&
      var p := ReadPacket(call.buf);
      && p.Ok? && IsRequestCode(p.value.code) && !IsMessagingLayer(p.value)
      && SetupPlaintext(p.value.code, InnerBody(p.value), PredictedLen(p.value.body.options, 0)).Ok?
  }

  /**
   * One consumed number: whether the request could be prepared with it, associated data
   * included, and the nonce that stands in the context afterwards.
   */
  datatype Use = Use(number: uint64, prepared: bool, nonce: Iv)

  function UseOf(order: ByteOrder, s: State): Use {
    var (value, s1) := PrepareRequest(order, s);
    Use(s.sc.seqNum, value.Ok?, s1.rrc.nonce)
  }

  function Uses(c: Primitives, order: ByteOrder, s: State, calls: seq<Call>): seq<Use> {
    if calls == [] then []
    else
      var before, call := calls[..|calls| - 1], calls[|calls| - 1];
      Uses(c, order, s, before) + if Consumes(call) then [UseOf(order, Run(c, order, s, before))] else []
  }

  /** What a call does to the sending half of the context. */
  lemma {:induction false} AfterProtecting(c: Primitives, order: ByteOrder, s: State, call: Call)
    requires call.Protecting?
    ensures After(c, order, s, call) == if Consumes(call) then PrepareRequest(order, s).1 else s
  {
    hide ReadPacket, SetupPlaintext, PrepareRequest, Seal, Select, PredictedLen;
  }

  lemma {:induction false} UpdateKeepsSeqNum(c: Primitives, piv: Piv, kidContext: Bytes, s: State)
    ensures UpdateServer(c, piv, kidContext, s).1.sc.seqNum == s.sc.seqNum
  {
    hide Derive, MakeNonce, Aad;
  }

  lemma {:induction false} AfterUnprotecting(c: Primitives, order: ByteOrder, s: State, call: Call)
    requires call.Unprotecting?
    ensures After(c, order, s, call).sc.seqNum == s.sc.seqNum
  {
    hide ReadPacket, FindOscore, UpdateServer, OpenPayload, Rebuild, Replay.Updated;
    var p := ReadPacket(call.buf);
    if p.Ok? {
      var found := FindOscore(p.value.body.options, NotOscore);
      if found.Ok? && found.value.Oscore? && found.value.option.Compressed? {
        UpdateKeepsSeqNum(c, found.value.option.piv, found.value.option.kidContext, s);
      }
    }
  }

  lemma {:induction false} PrepareCounts(order: ByteOrder, s: State)
    ensures var ssn: int := s.sc.seqNum; PrepareRequest(order, s).1.sc.seqNum == U64(ssn + 1)
  {
    hide SsnToPiv, MakeNonce, Aad, EncodeValue;
  }

  lemma {:induction false} StepCounts(c: Primitives, order: ByteOrder, s: State, call: Call)
    ensures var ssn: int := s.sc.seqNum;
      After(c, order, s, call).sc.seqNum == if Consumes(call) then U64(ssn + 1) else s.sc.seqNum
  {
    hide After, Consumes, PrepareRequest, U64;
    if call.Protecting? {
      AfterProtecting(c, order, s, call);
      PrepareCounts(order, s);
    } else {
      AfterUnprotecting(c, order, s, call);
      OnlyProtectingConsumes(call);
    }
  }

  /** The n-th number from `first` on, in 64 bits. */
  function Nth(first: uint64, n: nat): uint64 {
    var f: int := first;
    U64(f + n)
  }

  /** The numbers used are those from `first` on. */
  ghost predicate CountsFrom(first: uint64, uses: seq<Use>) {
    forall i :: 0 <= i < |uses| ==> uses[i].number == Nth(first, i)
  }

  /** The uses and the counter after one more call. */
  lemma {:induction false} CountsStep(
      first: uint64, before: seq<Use>, n: uint64, consumed: bool, u: Use, after: seq<Use>, next: uint64)
    requires CountsFrom(first, before) && n == Nth(first, |before|)
    requires consumed ==> (var k: int := n; u.number == n && next == U64(k + 1) && after == before + [u])
    requires !consumed ==> next == n && after == before
    ensures CountsFrom(first, after) && next == Nth(first, |after|)
  {
  }

  lemma {:induction false} UsesUnroll(c: Primitives, order: ByteOrder, s: State, calls: seq<Call>)
    requires calls != []
    ensures var before, call := calls[..|calls| - 1], calls[|calls| - 1];
      var s1 := Run(c, order, s, before);
      && Run(c, order, s, calls) == After(c, order, s1, call)
      && (Consumes(call) ==> Uses(c, order, s, calls) == Uses(c, order, s, before) + [UseOf(order, s1)])
      && (!Consumes(call) ==> Uses(c, order, s, calls) == Uses(c, order, s, before))
      && UseOf(order, s1).number == s1.sc.seqNum
  {
    hide After, Consumes, PrepareRequest;
  }

  lemma {:induction false} NoCalls(c: Primitives, order: ByteOrder, s: State)
    ensures CountsFrom(s.sc.seqNum, Uses(c, order, s, []))
    ensures Run(c, order, s, []).sc.seqNum == Nth(s.sc.seqNum, |Uses(c, order, s, [])|)
  {
  }

  /**
   * The i-th consumed number is the initial one plus i, in 64 bits: every call that takes a
   * number takes a new one, whether or not a later step fails.
   */
  lemma {:induction false} NumbersCountUp(c: Primitives, order: ByteOrder, s: State, calls: seq<Call>)
    ensures CountsFrom(s.sc.seqNum, Uses(c, order, s, calls))
    ensures Run(c, order, s, calls).sc.seqNum == Nth(s.sc.seqNum, |Uses(c, order, s, calls)|)
    decreases |calls|
  {
    hide *;
    if calls == [] {
      NoCalls(c, order, s);
    } else {
      var before, call := calls[..|calls| - 1], calls[|calls| - 1];
      var s1, uses := Run(c, order, s, before), Uses(c, order, s, before);
      NumbersCountUp(c, order, s, before);
      UsesUnroll(c, order, s, calls);
      StepCounts(c, order, s1, call);
      CountsStep(
        s.sc.seqNum, uses, s1.sc.seqNum, Consumes(call), UseOf(order, s1), Uses(c, order, s, calls),
        Run(c, order, s, calls).sc.seqNum);
    }
  }

  lemma {:induction false} OnlyProtectingConsumes(call: Call)
    ensures call.Unprotecting? ==> !Consumes(call)
  {
  }

  lemma {:induction false} UsesBound(c: Primitives, order: ByteOrder, s: State, calls: seq<Call>)
    ensures |Uses(c, order, s, calls)| <= |calls|
  {
    if calls != [] {
      UsesBound(c, order, s, calls[..|calls| - 1]);
    }
  }

  lemma {:induction false} CountsIncrease(first: uint64, uses: seq<Use>, i: nat, j: nat)
    requires CountsFrom(first, uses) && first + |uses| <= 0x1_0000_0000_0000_0000 && i < j < |uses|
    ensures uses[i].number < uses[j].number
  {
  }

  /** As long as the 64-bit counter does not wrap, the consumed numbers strictly increase. */
  lemma {:induction false} NumbersIncrease(c: Primitives, order: ByteOrder, s: State, calls: seq<Call>, i: nat, j: nat)
    requires s.sc.seqNum + |calls| <= 0x1_0000_0000_0000_0000
    requires i < j < |Uses(c, order, s, calls)|
    ensures Uses(c, order, s, calls)[i].number < Uses(c, order, s, calls)[j].number
  {
    hide *;
    NumbersCountUp(c, order, s, calls);
    UsesBound(c, order, s, calls);
    CountsIncrease(s.sc.seqNum, Uses(c, order, s, calls), i, j);
  }

  /** From 2^40 on there is no PIV: the call fails, and nothing is encrypted under that number. */
  lemma {:induction false} NoPivNoMessage(c: Primitives, s: State, call: Call)
    requires Consumes(call) && s.sc.seqNum >= 0x100_0000_0000
    ensures ProtectBytes(c, LittleEndian, call.buf, call.capacity, s).0 == Fail(BufferToSmall)
  {
    hide ReadPacket, SetupPlaintext, SsnToPiv, Refresh, Seal, Select, PredictedLen;
    PivIsShortest(s.sc.seqNum);
  }

  // ----- nonces -----

  /** Calls that an honest peer and the application make on a client: no forged requests come in. */
  predicate Quiet(call: Call) {
    call.Unprotecting? ==> ReadPacket(call.buf).Ok? && !IsRequestCode(ReadPacket(call.buf).value.code)
  }

  /** Until the first request the whole AAD buffer is free; from then on only the room of that first AAD. */
  predicate Roomy(s: State) {
    |s.rrc.aad| == 8 + |s.rrc.kid| || (|s.rrc.aad| == MAX_AAD_LEN && s.sc.seqNum == 0)
  }

  lemma {:induction false} ShortestIsByte(n: nat)
    ensures |Shortest(n)| >= 1
    ensures |Shortest(n)| == 1 <==> n < 0x100
  {
    if n >= 0x100 {
      assert Shortest(n) == [n % 0x100] + Shortest(n / 0x100);
    }
  }

  /** The AAD buffer decides: a client's request can be prepared exactly for the numbers below 256. */
  lemma {:induction false} PrepareIff(s: State)
    requires Roomy(s)
    ensures PrepareRequest(LittleEndian, s).0.Ok? <==> s.sc.seqNum < 0x100
    ensures s.sc.seqNum < 0x100 ==>
              && PrepareRequest(LittleEndian, s).1.rrc.nonce == MakeNonce(s.rrc.kid, Shortest(s.sc.seqNum), s.cc.commonIv)
              && PrepareRequest(LittleEndian, s).1.rrc.piv == Shortest(s.sc.seqNum)
    ensures Roomy(PrepareRequest(LittleEndian, s).1)
  {
    hide SsnToPiv, MakeNonce, Aad, EncodeValue, Shortest;
    var ssn := s.sc.seqNum;
    PivIsShortest(ssn);
    ShortestIsByte(ssn);
    if ssn < 0x100_0000_0000 {
      AadLen(s.rrc.kid, Shortest(ssn));
    }
  }

  /** On every machine a request that can be prepared from such a context has a PIV of one byte. */
  lemma {:induction false} PrepareKeepsRoom(order: ByteOrder, s: State)
    requires Roomy(s)
    ensures var (value, s1) := PrepareRequest(order, s);
      Roomy(s1) && (value.Ok? ==> |s1.rrc.piv| == 1 && |s1.rrc.aad| == 8 + |s1.rrc.kid|)
  {
    hide SsnToPiv, MakeNonce, Aad, EncodeValue;
    var piv := SsnToPiv(s.sc.seqNum, order);
    PivOfZero(order);
    if piv.Ok? {
      AadLen(s.rrc.kid, piv.value);
    }
  }

  lemma {:induction false} QuietKeepsRoom(c: Primitives, s: State, call: Call)
    requires Quiet(call) && Roomy(s)
    ensures var s1 := After(c, LittleEndian, s, call);
      Roomy(s1) && s1.cc == s.cc && s1.rrc.kid == s.rrc.kid
  {
    if call.Protecting? {
      hide After, Consumes, PrepareRequest, Roomy;
      AfterProtecting(c, LittleEndian, s, call);
      PrepareIff(s);
      PrepareFrame(s);
    } else {
      hide ReadPacket, FindOscore, AcceptRequest, OpenPayload, Rebuild, Replay.Updated, Roomy;
    }
  }

  lemma {:induction false} PrepareFrame(s: State)
    ensures var s1 := PrepareRequest(LittleEndian, s).1; s1.cc == s.cc && s1.rrc.kid == s.rrc.kid
  {
    hide SsnToPiv, MakeNonce, Aad, EncodeValue;
  }

  lemma {:induction false} RoomyThroughout(c: Primitives, s: State, calls: seq<Call>)
    requires Roomy(s) && forall i :: 0 <= i < |calls| ==> Quiet(calls[i])
    ensures var s1 := Run(c, LittleEndian, s, calls);
      Roomy(s1) && s1.cc == s.cc && s1.rrc.kid == s.rrc.kid
    ensures forall i :: 0 <= i < |Uses(c, LittleEndian, s, calls)| ==> SmallUse(s, Uses(c, LittleEndian, s, calls)[i])
  {
    hide After, Consumes, PrepareRequest, Roomy, Quiet, MakeNonce, Shortest;
    if calls != [] {
      var before, call := calls[..|calls| - 1], calls[|calls| - 1];
      RoomyThroughout(c, s, before);
      QuietKeepsRoom(c, Run(c, LittleEndian, s, before), call);
      PrepareIff(Run(c, LittleEndian, s, before));
    }
  }

  /** Which uses lead to a prepared request, and to which nonce. */
  predicate SmallUse(s: State, use: Use) {
    && (use.prepared <==> use.number < 0x100)
    && (use.prepared ==> use.nonce == MakeNonce(s.rrc.kid, Shortest(use.number), s.cc.commonIv))
  }

  lemma {:induction false} ByteNoncesDiffer(a: byte, b: byte, kid: Kid, iv: Iv)
    requires a != b
    ensures MakeNonce(kid, [a], iv) != MakeNonce(kid, [b], iv)
  {
    hide MakeNonce;
    NonceEqualIff(kid, [a], kid, [b], iv);
    assert LeftPad([a], MAX_PIV_LEN)[4] == a && LeftPad([b], MAX_PIV_LEN)[4] == b;
  }

  lemma {:induction false} InitIsRoomy(c: Primitives, p: InitParams)
    requires InitState(c, p).Ok?
    ensures Roomy(InitState(c, p).value) && InitState(c, p).value.sc.seqNum == 0
  {
    hide Derive;
  }

  /**
   * On a little-endian machine an initialised context can prepare a request with exactly the
   * first 256 numbers it consumes, and the nonces of these requests are pairwise different.
   */
  lemma {:induction false} PreparedNoncesDiffer(c: Primitives, p: InitParams, calls: seq<Call>, i: nat, j: nat)
    requires InitState(c, p).Ok? && |calls| <= 0x1_0000_0000_0000_0000
    requires forall k :: 0 <= k < |calls| ==> Quiet(calls[k])
    requires i < j < |Uses(c, LittleEndian, InitState(c, p).value, calls)|
    ensures var uses := Uses(c, LittleEndian, InitState(c, p).value, calls);
      && (uses[i].prepared <==> i < 0x100) && (uses[j].prepared <==> j < 0x100)
      && (uses[i].prepared && uses[j].prepared ==> uses[i].nonce != uses[j].nonce)
  {
    hide InitState, Uses, Roomy, MakeNonce, Quiet;
    var s := InitState(c, p).value;
    InitIsRoomy(c, p);
    RoomyThroughout(c, s, calls);
    NumbersCountUp(c, LittleEndian, s, calls);
    UsesBound(c, LittleEndian, s, calls);
    if j < 0x100 {
      ByteNoncesDiffer(i, j, s.rrc.kid, s.cc.commonIv);
    }
  }
}
