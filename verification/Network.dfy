/**
 * Whole runs of a client and a server over a network that may lose, delay, reorder and repeat
 * messages: whatever was sent can be delivered at any later time, any number of times.
 */
module Network {
  import opened Common
  import opened Crypto
  import opened CoapPacket
  import opened OptionSplit
  import opened OscoreOption
  import opened Nonce
  import opened Cose
  import opened SecurityContext
  import opened Protect
  import opened Unprotect
  import opened RoundTrip
  import opened Session
  import Calls = ContextRuns
  import Replay = ReplayWindow

  // ----- the network -----

  /** A request that was sent, with its number and the request part of the context it was made in. */
  datatype Request = Request(bytes: Bytes, packet: Packet, number: uint64, rrc: ReqRespContext)

  /** A response that was sent, and the request that the server had accepted last. */
  datatype Response = Response(bytes: Bytes, packet: Packet, answers: Option<nat>)

  /**
   * Both contexts, all messages sent so far, and a history: the request that the client
   * prepared last, the one that the server accepted last, all accepted ones in the order of
   * their acceptance, and the first bytes of their PIVs.
   */
  datatype World = World(
    client: State, server: State, requests: seq<Request>, responses: seq<Response>,
    asked: Option<nat>, accepted: Option<nat>, deliveries: seq<nat>, noted: seq<byte>)

  datatype Event =
    | SendRequest(buf: Bytes, capacity: nat)
    | SendResponse(buf: Bytes, capacity: nat)
    | DeliverRequest(k: nat, outCapacity: nat)
    | DeliverResponse(k: nat, outCapacity: nat)

  function Start(client: State, server: State): World {
    World(client, server, [], [], None, None, [], [])
  }

  /** A message that does not meet the conditions of the round trip counts as lost. */
  function AfterSendRequest(c: Primitives, order: ByteOrder, w: World, buf: Bytes, capacity: nat): World
    requires IsRequest(buf)
  {
    var (bytes, client1) := ProtectBytes(c, order, buf, capacity, w.client);
    var p := ReadPacket(buf).value;
    if bytes.Ok? && Survives(p, NextOptionValue(order, w.client)) then
      w.(client := client1, asked := Some(|w.requests|),
         requests := w.requests + [Request(bytes.value, p, w.client.sc.seqNum, client1.rrc)])
    else w.(client := client1, asked := if client1.sc.seqNum == w.client.sc.seqNum then w.asked else None)
  }

  function AfterSendResponse(c: Primitives, order: ByteOrder, w: World, buf: Bytes, capacity: nat): World
    requires IsResponse(buf)
  {
    var (bytes, server1) := ProtectBytes(c, order, buf, capacity, w.server);
    var p := ReadPacket(buf).value;
    if bytes.Ok? && Survives(p, []) then
      w.(server := server1, responses := w.responses + [Response(bytes.value, p, w.accepted)])
    else w.(server := server1)
  }

  /** Whether the server's checks let a request through. */
  predicate Accepts(c: Primitives, server: State, r: Request) {
    AcceptRequest(c, Compressed(r.rrc.piv, r.rrc.kidContext, r.rrc.kid), server).0.Ok?
  }

  function AfterDeliverRequest(c: Primitives, w: World, k: nat, outCapacity: nat): World
    requires k < |w.requests|
  {
    var r := w.requests[k];
    var w1 := w.(server := UnprotectBytes(c, r.bytes, outCapacity, w.server).1);
    if Accepts(c, w.server, r) && r.rrc.piv != [] then
      w1.(accepted := Some(k), deliveries := w.deliveries + [k], noted := w.noted + [r.rrc.piv[0]])
    else w1.(accepted := None)
  }

  /** Calls of the wrong kind, and deliveries of what was never sent, do not happen. */
  function Step(c: Primitives, order: ByteOrder, w: World, e: Event): World {
    match e
    case SendRequest(buf, capacity) => if IsRequest(buf) then AfterSendRequest(c, order, w, buf, capacity) else w
    case SendResponse(buf, capacity) => if IsResponse(buf) then AfterSendResponse(c, order, w, buf, capacity) else w
    case DeliverRequest(k, out) => if k < |w.requests| then AfterDeliverRequest(c, w, k, out) else w
    case DeliverResponse(k, out) =>
      if k < |w.responses| then w.(client := UnprotectBytes(c, w.responses[k].bytes, out, w.client).1) else w
  }

  function Run(c: Primitives, order: ByteOrder, w: World, events: seq<Event>): World {
    if events == [] then w
    else Step(c, order, Run(c, order, w, events[..|events| - 1]), events[|events| - 1])
  }

  // ----- the invariant -----

  /** A request made by this client: its nonce and AAD are those of its PIV, and it carries its packet. */
  ghost predicate GoodRequest(c: Primitives, client: State, r: Request) {
    && IsRequestCode(r.packet.code) && r.rrc.piv != []
    && r.rrc.kid == client.rrc.kid && r.rrc.kidContext == client.rrc.kidContext
    && r.rrc.nonce == MakeNonce(client.rrc.kid, r.rrc.piv, client.cc.commonIv)
    && r.rrc.aad == Aad(client.rrc.kid, r.rrc.piv)
    && Carries(c, r.bytes, r.packet, OptionValueOf(r.rrc), client.sc.key, r.rrc.nonce, r.rrc.aad)
  }

  /** A response that was made after a request was accepted carries its packet under that request's nonce and AAD. */
  ghost predicate GoodResponse(c: Primitives, client: State, requests: seq<Request>, r: Response) {
    && !IsRequestCode(r.packet.code)
    && ReadPacket(r.bytes).Ok? && !IsRequestCode(ReadPacket(r.bytes).value.code)
    && (r.answers.Some? ==>
          && r.answers.value < |requests|
          && var rrc := requests[r.answers.value].rrc;
             Carries(c, r.bytes, r.packet, [], client.rc.key, rrc.nonce, rrc.aad))
  }

  /** The context holds nonce and associated data of request k. */
  predicate Holds(s: State, requests: seq<Request>, k: nat) {
    k < |requests| && s.rrc.nonce == requests[k].rrc.nonce && s.rrc.aad == requests[k].rrc.aad
  }

  ghost predicate GoodMessages(c: Primitives, client: State, requests: seq<Request>, responses: seq<Response>) {
    && (forall k :: 0 <= k < |requests| ==> GoodRequest(c, client, requests[k]))
    && (forall k :: 0 <= k < |responses| ==> GoodResponse(c, client, requests, responses[k]))
  }

  /**
   * At every point of a run: the contexts are matched, all messages are good, the client holds
   * nonce and AAD of the request it prepared last, and the server those of the one it accepted
   * last, with the client's keys.
   */
  ghost predicate Inv(c: Primitives, w: World) {
    && Matched(c, w.client, w.server)
    && GoodMessages(c, w.client, w.requests, w.responses)
    && (w.asked.Some? ==> Holds(w.client, w.requests, w.asked.value))
    && (w.accepted.Some? ==> Holds(w.server, w.requests, w.accepted.value) && SameMaterial(w.client, w.server))
  }

  /** The parts of the client's context that no call of a client changes. */
  predicate SameClient(s: State, t: State) {
    && s.cc == t.cc && s.sc.id == t.sc.id && s.sc.key == t.sc.key && s.rc == t.rc
    && s.rrc.kid == t.rrc.kid && s.rrc.kidContext == t.rrc.kidContext
  }

  lemma {:induction false} PrepareKeepsClient(order: ByteOrder, s: State)
    ensures var s1 := PrepareRequest(order, s).1; SameClient(s, s1) && s1.sc.seqNum != s.sc.seqNum
  {
    hide SsnToPiv, MakeNonce, Aad, EncodeValue;
  }

  lemma {:induction false} ProtectKeepsClient(
      c: Primitives, order: ByteOrder, buf: Bytes, capacity: nat, s: State)
    ensures var s1 := ProtectBytes(c, order, buf, capacity, s).1;
      && SameClient(s, s1)
      && (s1.sc.seqNum == s.sc.seqNum ==> s1 == s)
  {
    hide ReadPacket, SetupPlaintext, PrepareRequest, Seal, Select, PredictedLen;
    PrepareKeepsClient(order, s);
  }

  lemma {:induction false} MatchedKept(c: Primitives, s: State, t: State, server: State)
    requires SameClient(s, t) && Matched(c, s, server)
    ensures Matched(c, t, server) && (SameMaterial(s, server) ==> SameMaterial(t, server))
  {
    hide Derive;
  }

  lemma {:induction false} GoodMessagesKept(
      c: Primitives, s: State, t: State, requests: seq<Request>, responses: seq<Response>)
    requires SameClient(s, t) && GoodMessages(c, s, requests, responses)
    ensures GoodMessages(c, t, requests, responses)
  {
    hide Carries, MakeNonce, Aad, OptionValueOf, ReadPacket;
    forall k | 0 <= k < |requests|
      ensures GoodRequest(c, t, requests[k])
    {
      assert GoodRequest(c, s, requests[k]);
    }
    forall k | 0 <= k < |responses|
      ensures GoodResponse(c, t, requests, responses[k])
    {
      assert GoodResponse(c, s, requests, responses[k]);
    }
  }

  lemma {:induction false} GoodRequestAdded(
      c: Primitives, s: State, requests: seq<Request>, responses: seq<Response>, r: Request)
    requires GoodMessages(c, s, requests, responses) && GoodRequest(c, s, r)
    ensures GoodMessages(c, s, requests + [r], responses)
  {
    hide GoodRequest, Carries, ReadPacket;
    forall k | 0 <= k < |responses|
      ensures GoodResponse(c, s, requests + [r], responses[k])
    {
      assert GoodResponse(c, s, requests, responses[k]);
    }
  }

  lemma {:induction false} GoodResponseAdded(
      c: Primitives, s: State, requests: seq<Request>, responses: seq<Response>, r: Response)
    requires GoodMessages(c, s, requests, responses) && GoodResponse(c, s, requests, r)
    ensures GoodMessages(c, s, requests, responses + [r])
  {
    hide GoodRequest, GoodResponse;
  }

  lemma {:induction false} SendRequestKeeps(
      c: Primitives, order: ByteOrder, w: World, buf: Bytes, capacity: nat)
    requires c.Laws() && Inv(c, w) && IsRequest(buf)
    ensures Inv(c, AfterSendRequest(c, order, w, buf, capacity))
  {
    hide Matched, SameMaterial, SameClient, GoodMessages, ProtectBytes, Survives, ReadPacket, NextOptionValue;
    hide GoodRequest;
    var (bytes, client1) := ProtectBytes(c, order, buf, capacity, w.client);
    ProtectKeepsClient(c, order, buf, capacity, w.client);
    MatchedKept(c, w.client, client1, w.server);
    GoodMessagesKept(c, w.client, client1, w.requests, w.responses);
    if bytes.Ok? && Survives(ReadPacket(buf).value, NextOptionValue(order, w.client)) {
      var r := Request(bytes.value, ReadPacket(buf).value, w.client.sc.seqNum, client1.rrc);
      SentIsGood(c, order, w.client, buf, capacity);
      GoodRequestAdded(c, client1, w.requests, w.responses, r);
    }
  }

  lemma {:induction false} SentIsGood(c: Primitives, order: ByteOrder, client: State, buf: Bytes, capacity: nat)
    requires c.Laws() && IsRequest(buf) && ProtectBytes(c, order, buf, capacity, client).0.Ok?
    requires Survives(ReadPacket(buf).value, NextOptionValue(order, client))
    ensures var (bytes, client1) := ProtectBytes(c, order, buf, capacity, client);
      GoodRequest(c, client1, Request(bytes.value, ReadPacket(buf).value, client.sc.seqNum, client1.rrc))
  {
    hide ProtectBytes, Survives, ReadPacket, NextOptionValue, Carries, OptionValueOf, MakeNonce, Aad, PrepareRequest;
    RequestIsCarried(c, order, buf, capacity, client);
    PreparedIs(order, client);
  }

  lemma {:induction false} SendResponseKeeps(
      c: Primitives, order: ByteOrder, w: World, buf: Bytes, capacity: nat)
    requires c.Laws() && Inv(c, w) && IsResponse(buf)
    ensures Inv(c, AfterSendResponse(c, order, w, buf, capacity))
  {
    hide Matched, GoodMessages, ProtectBytes, Survives, ReadPacket, Carries;
    var bytes := ProtectBytes(c, order, buf, capacity, w.server).0;
    ResponseKeepsContext(c, order, buf, capacity, w.server);
    if bytes.Ok? && Survives(ReadPacket(buf).value, []) {
      var p := ReadPacket(buf).value;
      ResponseIsCarried(c, order, buf, capacity, w.server);
      CarriedHasOptions(c, bytes.value, p, [], w.server.sc.key, w.server.rrc.nonce, w.server.rrc.aad);
      GoodResponseAdded(c, w.client, w.requests, w.responses, Response(bytes.value, p, w.accepted));
    }
  }

  /**
   * A request delivered at any time: it is accepted, and then restored, if and only if its AAD
   * fits what the server's AAD buffer has left.
   */
  lemma {:induction false} RequestDelivery(c: Primitives, w: World, k: nat, outCapacity: nat)
    requires c.Laws() && Inv(c, w) && k < |w.requests|
    ensures var r := w.requests[k];
      var (out, server1) := UnprotectBytes(c, r.bytes, outCapacity, w.server);
      var fits := |r.rrc.aad| <= |w.server.rrc.aad|;
      && (Accepts(c, w.server, r) <==> fits) && r.rrc.piv != []
      && out == (if fits then AsCoap(WritePacket(r.packet, outCapacity)) else Fail(UnexpectedResult))
      && Matched(c, w.client, server1)
      && (fits ==> Holds(server1, w.requests, k) && SameMaterial(w.client, server1))
      && |server1.rrc.aad| == (if fits then |r.rrc.aad| else |w.server.rrc.aad|)
      && server1.window == (if fits then Replay.Updated(w.server.window, r.rrc.piv[0]) else w.server.window)
  {
    hide Matched, AcceptRequest, UnprotectBytes, Carries, MakeNonce, Aad, OptionValueOf, WritePacket, Replay.Updated;
    hide GoodResponse;
    var r := w.requests[k];
    assert GoodRequest(c, w.client, r);
    AcceptOutcome(c, w.client, r.rrc.piv, w.server);
    CarriedRequest(c, r.bytes, r.packet, r.rrc, w.client.sc.key, w.server, outCapacity);
    var s1 := AcceptRequest(c, Compressed(r.rrc.piv, r.rrc.kidContext, r.rrc.kid), w.server).1;
    WindowIsApart(c, w.client, s1, Replay.Updated(s1.window, r.rrc.piv[0]));
  }

  /** A response delivered at any time leaves the client's context alone. */
  lemma {:induction false} ResponseKeepsClient(c: Primitives, bytes: Bytes, s: State, outCapacity: nat)
    requires ReadPacket(bytes).Ok? && !IsRequestCode(ReadPacket(bytes).value.code)
    ensures UnprotectBytes(c, bytes, outCapacity, s).1 == s
  {
    hide ReadPacket, FindOscore, AcceptRequest, OpenPayload, Rebuild, Replay.Updated;
  }

  lemma {:induction false} StepKeeps(c: Primitives, order: ByteOrder, w: World, e: Event)
    requires c.Laws() && Inv(c, w)
    ensures Inv(c, Step(c, order, w, e))
  {
    hide Matched, SameMaterial, GoodRequest, AfterSendRequest, AfterSendResponse, IsRequest, IsResponse, UnprotectBytes;
    hide Accepts, ReadPacket, Carries;
    match e
    case SendRequest(buf, capacity) =>
      if IsRequest(buf) {
        SendRequestKeeps(c, order, w, buf, capacity);
      }
    case SendResponse(buf, capacity) =>
      if IsResponse(buf) {
        SendResponseKeeps(c, order, w, buf, capacity);
      }
    case DeliverRequest(k, out) =>
      if k < |w.requests| {
        RequestDelivery(c, w, k, out);
      }
    case DeliverResponse(k, out) =>
      if k < |w.responses| {
        assert GoodResponse(c, w.client, w.requests, w.responses[k]);
        ResponseKeepsClient(c, w.responses[k].bytes, w.client, out);
      }
  }

  lemma {:induction false} StartIsGood(c: Primitives, client: State, server: State)
    requires Matched(c, client, server)
    ensures Inv(c, Start(client, server))
  {
    hide Matched;
  }

  /**
   * Session invariant, over every run in which any message sent earlier may be delivered late,
   * out of order, repeatedly or never: contexts and messages stay good throughout.
   */
  lemma {:induction false} RunInvariant(
      c: Primitives, order: ByteOrder, client: State, server: State, events: seq<Event>)
    requires c.Laws() && Matched(c, client, server)
    ensures Inv(c, Run(c, order, Start(client, server), events))
    decreases |events|
  {
    hide Inv, Matched, Step;
    if events == [] {
      StartIsGood(c, client, server);
    } else {
      RunInvariant(c, order, client, server, events[..|events| - 1]);
      StepKeeps(c, order, Run(c, order, Start(client, server), events[..|events| - 1]), events[|events| - 1]);
    }
  }

  /**
   * In every such run, a delivery of request k makes the server output exactly the packet that
   * was protected if and only if the AAD of that request fits the server's AAD buffer;
   * otherwise the call fails.
   */
  lemma {:induction false} RequestDeliveryIff(
      c: Primitives, order: ByteOrder, client: State, server: State, events: seq<Event>, k: nat, outCapacity: nat)
    requires c.Laws() && Matched(c, client, server)
    requires k < |Run(c, order, Start(client, server), events).requests|
    ensures var w := Run(c, order, Start(client, server), events);
      var r := w.requests[k];
      UnprotectBytes(c, r.bytes, outCapacity, w.server).0 ==
      if |r.rrc.aad| <= |w.server.rrc.aad| then AsCoap(WritePacket(r.packet, outCapacity)) else Fail(UnexpectedResult)
  {
    hide Inv, Matched, Run, UnprotectBytes, WritePacket, AsCoap;
    RunInvariant(c, order, client, server, events);
    RequestDelivery(c, Run(c, order, Start(client, server), events), k, outCapacity);
  }

  /**
   * In every such run, a response made after the server had accepted request k is restored
   * exactly, whenever it is delivered, as long as the client still holds that request's nonce
   * and associated data; that is so while request k is the last one it prepared.
   */
  lemma {:induction false} ResponseDelivery(
      c: Primitives, order: ByteOrder, client: State, server: State, events: seq<Event>, j: nat, outCapacity: nat)
    requires c.Laws() && Matched(c, client, server)
    requires j < |Run(c, order, Start(client, server), events).responses|
    ensures var w := Run(c, order, Start(client, server), events);
      var r := w.responses[j];
      && (r.answers.Some? && w.asked == r.answers ==> Holds(w.client, w.requests, r.answers.value))
      && (r.answers.Some? && Holds(w.client, w.requests, r.answers.value) ==>
            UnprotectBytes(c, r.bytes, outCapacity, w.client) == (AsCoap(WritePacket(r.packet, outCapacity)), w.client))
  {
    hide Matched, GoodRequest, Run, UnprotectBytes, WritePacket, AsCoap, Carries, ReadPacket;
    RunInvariant(c, order, client, server, events);
    var w := Run(c, order, Start(client, server), events);
    var r := w.responses[j];
    assert GoodResponse(c, w.client, w.requests, r);
    if r.answers.Some? && Holds(w.client, w.requests, r.answers.value) {
      CarriedResponse(c, r.bytes, r.packet, w.client, outCapacity);
    }
  }

  // ----- from initialisation -----

  /** Every AAD made so far has the length of the first one, and the server has room for it. */
  predicate Even(w: World) {
    && Calls.Roomy(w.client)
    && 8 + |w.client.rrc.kid| <= |w.server.rrc.aad|
    && forall k :: 0 <= k < |w.requests| ==> |w.requests[k].rrc.aad| == 8 + |w.client.rrc.kid|
  }

  /** What a client's call does to the room for its AAD, and to a message it sends. */
  lemma {:induction false} ClientKeepsRoom(
      c: Primitives, order: ByteOrder, buf: Bytes, capacity: nat, s: State)
    requires IsRequest(buf) && Calls.Roomy(s)
    ensures var (bytes, s1) := ProtectBytes(c, order, buf, capacity, s);
      Calls.Roomy(s1) && (bytes.Ok? ==> |s1.rrc.aad| == 8 + |s1.rrc.kid| && |s1.rrc.piv| == 1)
  {
    hide ReadPacket, SetupPlaintext, PrepareRequest, Seal, Select, PredictedLen, Calls.Roomy;
    Calls.PrepareKeepsRoom(order, s);
    var p := ReadPacket(buf).value;
    var (value, s1) := PrepareRequest(order, s);
    assert SetupPlaintext(p.code, InnerBody(p), PredictedLen(p.body.options, 0)).Ok? ==>
      ProtectBytes(c, order, buf, capacity, s).1 == s1;
    assert ProtectBytes(c, order, buf, capacity, s).0.Ok? ==> value.Ok?;
  }

  lemma {:induction false} EvenStep(c: Primitives, order: ByteOrder, w: World, e: Event)
    requires c.Laws() && Inv(c, w) && Even(w)
    ensures Even(Step(c, order, w, e))
  {
    hide Matched, SameMaterial, GoodRequest, IsRequest, IsResponse, UnprotectBytes, ProtectBytes, Survives;
    hide Accepts, ReadPacket, Carries, Calls.Roomy, NextOptionValue, Inv;
    match e
    case SendRequest(buf, capacity) =>
      if IsRequest(buf) {
        ClientKeepsRoom(c, order, buf, capacity, w.client);
        ProtectKeepsClient(c, order, buf, capacity, w.client);
      }
    case SendResponse(buf, capacity) =>
      if IsResponse(buf) {
        ResponseKeepsContext(c, order, buf, capacity, w.server);
      }
    case DeliverRequest(k, out) =>
      if k < |w.requests| {
        RequestDelivery(c, w, k, out);
      }
    case DeliverResponse(k, out) =>
      if k < |w.responses| {
        ResponseIsHarmless(c, w, k, out);
      }
  }

  lemma {:induction false} ResponseIsHarmless(c: Primitives, w: World, k: nat, outCapacity: nat)
    requires Inv(c, w) && k < |w.responses|
    ensures UnprotectBytes(c, w.responses[k].bytes, outCapacity, w.client).1 == w.client
  {
    hide Matched, GoodRequest, UnprotectBytes, ReadPacket, Carries;
    assert GoodResponse(c, w.client, w.requests, w.responses[k]);
    ResponseKeepsClient(c, w.responses[k].bytes, w.client, outCapacity);
  }

  lemma {:induction false} InitIsEven(c: Primitives, client: InitParams, server: InitParams)
    requires Mirrored(client, server) && InitState(c, client).Ok? && InitState(c, server).Ok?
    ensures Even(Start(InitState(c, client).value, InitState(c, server).value))
  {
    hide Derive;
  }

  lemma {:induction false} EvenThroughout(
      c: Primitives, order: ByteOrder, client: State, server: State, events: seq<Event>)
    requires c.Laws() && Matched(c, client, server) && Even(Start(client, server))
    ensures Even(Run(c, order, Start(client, server), events))
    decreases |events|
  {
    hide Inv, Matched, Step, Even;
    if events != [] {
      EvenThroughout(c, order, client, server, events[..|events| - 1]);
      RunInvariant(c, order, client, server, events[..|events| - 1]);
      EvenStep(c, order, Run(c, order, Start(client, server), events[..|events| - 1]), events[|events| - 1]);
    }
  }

  /**
   * Between freshly initialised parties every delivery of every request restores it exactly,
   * however late, in whatever order and however often, on machines of either byte order.
   */
  lemma {:induction false} EveryDeliveryRestores(
      c: Primitives, order: ByteOrder, client: InitParams, server: InitParams, events: seq<Event>, k: nat, outCapacity: nat)
    requires c.Laws() && Mirrored(client, server) && InitState(c, client).Ok? && InitState(c, server).Ok?
    requires k < |Run(c, order, Start(InitState(c, client).value, InitState(c, server).value), events).requests|
    ensures var w := Run(c, order, Start(InitState(c, client).value, InitState(c, server).value), events);
      UnprotectBytes(c, w.requests[k].bytes, outCapacity, w.server).0 == AsCoap(WritePacket(w.requests[k].packet, outCapacity))
  {
    hide Matched, Run, UnprotectBytes, WritePacket, AsCoap, InitState, Calls.Roomy, Mirrored;
    var cs, ss := InitState(c, client).value, InitState(c, server).value;
    InitMatched(c, client, server);
    InitIsEven(c, client, server);
    EvenThroughout(c, order, cs, ss, events);
    RequestDeliveryIff(c, order, cs, ss, events, k, outCapacity);
  }

  lemma {:induction false} InitMatched(c: Primitives, client: InitParams, server: InitParams)
    requires Mirrored(client, server) && InitState(c, client).Ok? && InitState(c, server).Ok?
    ensures Matched(c, InitState(c, client).value, InitState(c, server).value)
  {
    hide InitState, Matched;
    InitPeered(c, client, server);
  }

  // ----- what the window has noted -----

  /** The window after noting these numbers. */
  function Noting(window: Replay.Window, numbers: seq<uint64>): Replay.Window {
    if numbers == [] then window
    else Replay.Updated(Noting(window, numbers[..|numbers| - 1]), numbers[|numbers| - 1])
  }

  lemma {:induction false} NotingSnoc(window: Replay.Window, numbers: seq<uint64>, n: uint64)
    ensures Noting(window, numbers + [n]) == Replay.Updated(Noting(window, numbers), n)
  {
    assert (numbers + [n])[..|numbers|] == numbers;
  }

  lemma {:induction false} WindowStep(c: Primitives, order: ByteOrder, w: World, e: Event, window: Replay.Window)
    requires c.Laws() && Inv(c, w) && w.server.window == Noting(window, w.noted)
    ensures var w1 := Step(c, order, w, e); w1.server.window == Noting(window, w1.noted)
  {
    hide Matched, SameMaterial, GoodRequest, IsRequest, IsResponse, UnprotectBytes, ProtectBytes, Survives;
    hide Accepts, ReadPacket, Carries, NextOptionValue, Inv, Noting, Replay.Updated;
    match e
    case SendRequest(buf, capacity) =>
    case SendResponse(buf, capacity) =>
      if IsResponse(buf) {
        ResponseKeepsContext(c, order, buf, capacity, w.server);
      }
    case DeliverRequest(k, out) =>
      if k < |w.requests| {
        RequestDelivery(c, w, k, out);
        NotingSnoc(window, w.noted, w.requests[k].rrc.piv[0]);
      }
    case DeliverResponse(k, out) =>
  }

  /** Throughout a run the server's window is its initial one after noting the accepted requests in order. */
  lemma {:induction false} WindowThroughout(
      c: Primitives, order: ByteOrder, client: State, server: State, events: seq<Event>)
    requires c.Laws() && Matched(c, client, server)
    ensures var w := Run(c, order, Start(client, server), events); w.server.window == Noting(server.window, w.noted)
    decreases |events|
  {
    hide Inv, Matched, Step;
    if events != [] {
      WindowThroughout(c, order, client, server, events[..|events| - 1]);
      RunInvariant(c, order, client, server, events[..|events| - 1]);
      WindowStep(
        c, order, Run(c, order, Start(client, server), events[..|events| - 1]), events[|events| - 1], server.window);
    }
  }
}
