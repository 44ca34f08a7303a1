/** Sequence numbers, the network and the replay window together: what the server's window remembers. */
module Freshness {
  import opened Common
  import opened Crypto
  import opened CoapPacket
  import opened OptionSplit
  import opened OscoreOption
  import opened Nonce
  import opened SecurityContext
  import opened Protect
  import opened Unprotect
  import opened RoundTrip
  import opened Session
  import opened Network
  import Calls = ContextRuns
  import Replay = ReplayWindow

  // ----- numbers that were delivered -----

  /** Authentic requests with these numbers. */
  function Arrivals(numbers: seq<uint64>): (r: seq<Replay.Arrival>)
    ensures |r| == |numbers|
    ensures forall i :: 0 <= i < |r| ==> r[i] == Replay.Arrival(numbers[i], true)
  {
    seq(|numbers|, i requires 0 <= i < |numbers| => Replay.Arrival(numbers[i], true))
  }

  lemma {:induction false} AuthenticIsAll(numbers: seq<uint64>)
    ensures Replay.Authentic(Arrivals(numbers)) == numbers
    decreases |numbers|
  {
    if numbers != [] {
      var k := |numbers| - 1;
      assert Arrivals(numbers)[..k] == Arrivals(numbers[..k]);
      AuthenticIsAll(numbers[..k]);
      assert numbers == numbers[..k] + [numbers[k]];
    }
  }

  /** Every number but the first is fresh with respect to the ones before it. */
  predicate FreshNumbers(numbers: seq<uint64>) {
    forall i :: 0 < i < |numbers| ==> Replay.Fresh(numbers[..i], numbers[i])
  }

  lemma {:induction false} FreshNumbersIff(numbers: seq<uint64>)
    ensures Replay.FreshArrivals(Arrivals(numbers)) <==> FreshNumbers(numbers)
  {
    hide Replay.Fresh, Replay.Authentic;
    forall i | 0 < i < |numbers|
      ensures Replay.Authentic(Arrivals(numbers)[..i]) == numbers[..i]
    {
      assert Arrivals(numbers)[..i] == Arrivals(numbers[..i]);
      AuthenticIsAll(numbers[..i]);
    }
  }

  ghost predicate Increasing(numbers: seq<uint64>) {
    forall i, j :: 0 <= i < j < |numbers| ==> numbers[i] < numbers[j]
  }

  lemma {:induction false} IncreasingIsFresh(numbers: seq<uint64>)
    requires Increasing(numbers)
    ensures FreshNumbers(numbers)
  {
    forall i | 0 < i < |numbers|
      ensures Replay.Fresh(numbers[..i], numbers[i])
    {
      assert numbers[0] < numbers[i];
      Replay.CountNone(numbers[..i], numbers[i]);
    }
  }

  lemma {:induction false} NotingIsShipped(numbers: seq<uint64>)
    ensures Noting(Replay.ZeroWindow(), numbers) == Replay.RunShipped(Arrivals(numbers)).window
    decreases |numbers|
  {
    if numbers != [] {
      hide Replay.Updated;
      var k := |numbers| - 1;
      assert Arrivals(numbers)[..k] == Arrivals(numbers[..k]);
      NotingIsShipped(numbers[..k]);
    }
  }

  // ----- the window -----

  /** The receiver under the guard that the comments describe, after these numbers. */
  function Guarded(numbers: seq<uint64>): Replay.Receiver {
    Replay.Run(Arrivals(numbers))
  }

  /**
   * Between freshly initialised parties, over every run with late, reordered and repeated
   * deliveries, the server's window is that of the shipped receiver after the accepted numbers
   * in the order of their acceptance.  An effective guard would have accepted the same requests
   * and kept the same window if and only if each number but the first was not zero, not
   * accepted before and among the 32 largest; and then the window holds exactly the 32 largest
   * of the initial zeros and these numbers.
   */
  lemma {:induction false} WindowRemembersDelivered(
      c: Primitives, order: ByteOrder, client: InitParams, server: InitParams, events: seq<Event>)
    requires c.Laws() && Mirrored(client, server) && InitState(c, client).Ok? && InitState(c, server).Ok?
    ensures var w := Run(c, order, Start(InitState(c, client).value, InitState(c, server).value), events);
      && w.server.window == Replay.RunShipped(Arrivals(w.noted)).window
      && (Guarded(w.noted).accepted == w.noted && Guarded(w.noted).window == w.server.window <==> FreshNumbers(w.noted))
      && (FreshNumbers(w.noted) ==> w.server.window == Replay.Largest(w.noted))
  {
    hide InitState, Run, Replay.Largest, Matched, Mirrored, Replay.Run, Replay.RunShipped, FreshNumbers;
    var cs, ss := InitState(c, client).value, InitState(c, server).value;
    InitMatched(c, client, server);
    InitWindow(c, server);
    WindowThroughout(c, order, cs, ss, events);
    var noted := Run(c, order, Start(cs, ss), events).noted;
    NotingIsShipped(noted);
    ShippedIff(noted);
  }

  lemma {:induction false} InitWindow(c: Primitives, p: InitParams)
    requires InitState(c, p).Ok?
    ensures InitState(c, p).value.window == Replay.ZeroWindow()
  {
    hide Derive;
  }

  lemma {:induction false} ShippedAccepts(numbers: seq<uint64>)
    ensures Replay.RunShipped(Arrivals(numbers)).accepted == numbers
    decreases |numbers|
  {
    if numbers != [] {
      hide Replay.Updated;
      var k := |numbers| - 1;
      assert Arrivals(numbers)[..k] == Arrivals(numbers[..k]);
      ShippedAccepts(numbers[..k]);
      assert numbers == numbers[..k] + [numbers[k]];
    }
  }

  lemma {:induction false} ShippedIff(numbers: seq<uint64>)
    ensures Guarded(numbers).accepted == numbers && Guarded(numbers).window == Replay.RunShipped(Arrivals(numbers)).window
       <==> FreshNumbers(numbers)
    ensures FreshNumbers(numbers) ==> Replay.RunShipped(Arrivals(numbers)).window == Replay.Largest(numbers)
  {
    hide Replay.Run, Replay.RunShipped, FreshNumbers, Replay.FreshArrivals, Replay.Largest;
    ShippedAccepts(numbers);
    FreshNumbersIff(numbers);
    Replay.ShippedMatchesGuardIff(Arrivals(numbers));
    Replay.RunRefines(Arrivals(numbers));
  }

  // ----- the numbers are the sequence numbers -----

  /** Little-endian: the first PIV byte of a sent request is its number, and numbers increase. */
  ghost predicate Numbered(w: World, steps: nat) {
    && Calls.Roomy(w.client) && w.client.sc.seqNum <= steps
    && (forall k :: 0 <= k < |w.requests| ==>
          w.requests[k].rrc.piv == [w.requests[k].number] && w.requests[k].number < w.client.sc.seqNum)
    && (forall k, l :: 0 <= k < l < |w.requests| ==> w.requests[k].number < w.requests[l].number)
  }

  /** The history of acceptances is about requests that were sent. */
  ghost predicate Traced(w: World) {
    && |w.deliveries| == |w.noted|
    && forall i :: 0 <= i < |w.noted| ==> IsNoted(w, i)
  }

  predicate IsNoted(w: World, i: nat)
    requires i < |w.deliveries| == |w.noted|
  {
    var k := w.deliveries[i];
    k < |w.requests| && w.requests[k].rrc.piv != [] && w.noted[i] == w.requests[k].rrc.piv[0]
  }

  /** A request that can be sent was prepared with its own number as its PIV. */
  lemma {:induction false} SentUsesItsNumber(c: Primitives, buf: Bytes, capacity: nat, s: State)
    requires IsRequest(buf) && Calls.Roomy(s)
    ensures var (bytes, s1) := ProtectBytes(c, LittleEndian, buf, capacity, s);
      && Calls.Roomy(s1)
      && (var ssn: int := s.sc.seqNum; s1.sc.seqNum == s.sc.seqNum || s1.sc.seqNum == U64(ssn + 1))
      && (bytes.Ok? ==> s.sc.seqNum < 0x100 && s1.rrc.piv == [s.sc.seqNum] && s1.sc.seqNum == s.sc.seqNum + 1)
  {
    hide ReadPacket, SetupPlaintext, PrepareRequest, Seal, Select, PredictedLen, Calls.Roomy, Shortest;
    Calls.PrepareIff(s);
    Calls.PrepareCounts(LittleEndian, s);
    Calls.ShortestIsByte(s.sc.seqNum);
    ShortestOfByte(s.sc.seqNum);
    var p := ReadPacket(buf).value;
    var (value, s1) := PrepareRequest(LittleEndian, s);
    assert SetupPlaintext(p.code, InnerBody(p), PredictedLen(p.body.options, 0)).Ok? ==>
      ProtectBytes(c, LittleEndian, buf, capacity, s).1 == s1;
    assert ProtectBytes(c, LittleEndian, buf, capacity, s).0.Ok? ==> value.Ok?;
  }

  lemma {:induction false} ShortestOfByte(n: nat)
    ensures n < 0x100 ==> Shortest(n) == [n]
  {
  }

  lemma {:induction false} NumberedStep(c: Primitives, w: World, e: Event, steps: nat)
    requires c.Laws() && Inv(c, w) && Numbered(w, steps) && Traced(w) && steps < 0xFFFF_FFFF_FFFF_FFFF
    ensures var w1 := Step(c, LittleEndian, w, e); Numbered(w1, steps + 1) && Traced(w1)
  {
    hide IsRequest, IsResponse, UnprotectBytes, ProtectBytes, Survives, Accepts, ReadPacket, NextOptionValue, Inv;
    hide Calls.Roomy;
    match e
    case SendRequest(buf, capacity) =>
      if IsRequest(buf) {
        SentUsesItsNumber(c, buf, capacity, w.client);
        TracedMore(w, Step(c, LittleEndian, w, e));
      }
    case SendResponse(buf, capacity) =>
      TracedMore(w, Step(c, LittleEndian, w, e));
    case DeliverRequest(k, out) =>
      if k < |w.requests| {
        TracedDelivery(c, w, k, out);
      }
    case DeliverResponse(k, out) =>
      if k < |w.responses| {
        ResponseIsHarmless(c, w, k, out);
        TracedMore(w, Step(c, LittleEndian, w, e));
      }
  }

  /** More requests do not disturb the history. */
  lemma {:induction false} TracedMore(w: World, w1: World)
    requires Traced(w) && w1.deliveries == w.deliveries && w1.noted == w.noted && w.requests <= w1.requests
    ensures Traced(w1)
  {
    forall i | 0 <= i < |w1.noted|
      ensures IsNoted(w1, i)
    {
      assert IsNoted(w, i);
    }
  }

  lemma {:induction false} TracedDelivery(c: Primitives, w: World, k: nat, outCapacity: nat)
    requires Traced(w) && k < |w.requests|
    ensures Traced(AfterDeliverRequest(c, w, k, outCapacity))
  {
    hide UnprotectBytes, Accepts;
    var w1 := AfterDeliverRequest(c, w, k, outCapacity);
    forall i | 0 <= i < |w1.noted|
      ensures IsNoted(w1, i)
    {
      if i < |w.noted| {
        assert IsNoted(w, i);
      }
    }
  }

  lemma {:induction false} StartIsTraced(client: State, server: State)
    ensures Traced(Start(client, server))
  {
  }

  lemma {:induction false} NumberedThroughout(c: Primitives, client: State, server: State, events: seq<Event>)
    requires c.Laws() && Matched(c, client, server) && Numbered(Start(client, server), 0)
    requires |events| < 0xFFFF_FFFF_FFFF_FFFF
    ensures var w := Run(c, LittleEndian, Start(client, server), events); Numbered(w, |events|) && Traced(w)
    decreases |events|
  {
    hide Inv, Matched, Step, Numbered, Traced, Start;
    if events == [] {
      StartIsTraced(client, server);
    } else {
      NumberedThroughout(c, client, server, events[..|events| - 1]);
      RunInvariant(c, LittleEndian, client, server, events[..|events| - 1]);
      NumberedStep(
        c, Run(c, LittleEndian, Start(client, server), events[..|events| - 1]), events[|events| - 1], |events| - 1);
    }
  }

  /**
   * On little-endian machines the noted bytes are the sequence numbers of the accepted requests.
   * If each request is accepted at most once and in the order of sending, the window holds
   * exactly the 32 largest of the initial zeros and these numbers, as under an effective guard.
   */
  lemma {:induction false} InOrderIsFresh(
      c: Primitives, client: InitParams, server: InitParams, events: seq<Event>)
    requires c.Laws() && Mirrored(client, server) && InitState(c, client).Ok? && InitState(c, server).Ok?
    requires |events| < 0xFFFF_FFFF_FFFF_FFFF
    ensures var w := Run(c, LittleEndian, Start(InitState(c, client).value, InitState(c, server).value), events);
      && |w.deliveries| == |w.noted|
      && (forall i :: 0 <= i < |w.noted| ==> w.deliveries[i] < |w.requests| && w.noted[i] == w.requests[w.deliveries[i]].number)
      && ((forall i, j :: 0 <= i < j < |w.deliveries| ==> w.deliveries[i] < w.deliveries[j]) ==>
            FreshNumbers(w.noted) && w.server.window == Replay.Largest(w.noted))
  {
    hide InitState, Run, Replay.Largest, Matched, Mirrored, FreshNumbers, Guarded, Replay.RunShipped, Calls.Roomy;
    var cs, ss := InitState(c, client).value, InitState(c, server).value;
    InitMatched(c, client, server);
    Calls.InitIsRoomy(c, client);
    NumberedThroughout(c, cs, ss, events);
    WindowRemembersDelivered(c, LittleEndian, client, server, events);
    var w := Run(c, LittleEndian, Start(cs, ss), events);
    forall i | 0 <= i < |w.noted|
      ensures w.deliveries[i] < |w.requests| && w.noted[i] == w.requests[w.deliveries[i]].number
    {
      assert IsNoted(w, i);
    }
    if forall i, j :: 0 <= i < j < |w.deliveries| ==> w.deliveries[i] < w.deliveries[j] {
      assert Increasing(w.noted);
      IncreasingIsFresh(w.noted);
    }
  }
}
