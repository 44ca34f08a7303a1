/**
 * The replay window: the in-place array operations, and their agreement with the plain
 * specification of section 7.4 of RFC 8613, "the set of numbers accepted so far, of which
 * only the largest are remembered".
 */
module ReplayWindow {
  import opened Common
  import opened Sorting

  const REPLAY_WINDOW_LEN := 32

  function ZeroWindow(): (w: seq<uint64>)
    ensures |w| == REPLAY_WINDOW_LEN && forall i :: 0 <= i < |w| ==> w[i] == 0
  {
    seq(REPLAY_WINDOW_LEN, _ => 0)
  }

  type Window = w: seq<uint64> | |w| == REPLAY_WINDOW_LEN witness ZeroWindow()

  // ----- what the three C functions compute -----

  /** Acceptance by the comparisons of `replay_check`. */
  predicate Verdict(firstRun: bool, n: uint64, w: seq<uint64>)
    requires |w| > 0
  {
    firstRun || w[|w| - 1] < n || (w[0] <= n && n !in w)
  }

  /** The first position from `i` on whose slot is below `n` and whose successor is above. */
  function InsertPosition(w: seq<uint64>, n: uint64, i: nat): (p: nat)
    requires i < |w|
    ensures i <= p < |w|
    decreases |w| - i
  {
    if i == |w| - 1 || (w[i] < n && n < w[i + 1]) then i else InsertPosition(w, n, i + 1)
  }

  function ShiftInto(w: seq<uint64>, n: uint64, p: nat): (r: seq<uint64>)
    requires p < |w|
    ensures |r| == |w|
  {
    w[1..p + 1] + [n] + w[p + 1..]
  }

  function Updated(w: seq<uint64>, n: uint64): (r: seq<uint64>)
    requires |w| > 0
    ensures |r| == |w|
  {
    ShiftInto(w, n, InsertPosition(w, n, 0))
  }

  /** The comparisons of `replay_check`, with its local flag as a parameter. */
  method CheckAgainstWindow(firstRun: bool, n: uint64, w: array<uint64>) returns (r: Result<()>)
    requires w.Length > 0
    ensures r == if Verdict(firstRun, n, w[..]) then Ok(()) else Fail(ReplayedPacket)
  {
    if firstRun {
      return Ok(());
    }
    if n > w[w.Length - 1] {
      return Ok(());
    }
    if n < w[0] {
      return Fail(ReplayedPacket);
    }
    for i := 0 to w.Length
      invariant n !in w[..i]
    {
      if n == w[i] {
        return Fail(ReplayedPacket);
      }
    }
    assert w[..w.Length] == w[..];
    return Ok(());
  }

  /** `replay_check` as shipped: the flag is a local that is set on every call. */
  method ReplayCheck(n: uint64, w: array<uint64>) returns (r: Result<()>)
    requires w.Length > 0
    ensures r == Ok(())
  {
    var firstRun := true;
    r := CheckAgainstWindow(firstRun, n, w);
  }

  method InsertSenderSeqNumber(n: uint64, w: array<uint64>, position: nat)
    requires position < w.Length
    modifies w
    ensures w[..] == ShiftInto(old(w[..]), n, position)
  {
    for j := 0 to position
      invariant w[..j] == old(w[1..j + 1])
      invariant w[j..] == old(w[j..])
    {
      assert w[j + 1] == w[j..][1];
      w[j] := w[j + 1];
      assert w[j + 1..] == old(w[j..])[1..];
    }
    w[position] := n;
    assert w[position + 1..] == old(w[position..])[1..];
    assert w[..] == w[..position] + [w[position]] + w[position + 1..];
  }

  method UpdateReplayWindow(n: uint64, w: array<uint64>)
    requires w.Length > 0
    modifies w
    ensures w[..] == Updated(old(w[..]), n)
  {
    for i := 0 to w.Length - 1
      invariant w[..] == old(w[..])
      invariant InsertPosition(w[..], n, 0) == InsertPosition(w[..], n, i)
    {
      if w[i] < n && n < w[i + 1] {
        InsertSenderSeqNumber(n, w, i);
        return;
      }
    }
    InsertSenderSeqNumber(n, w, w.Length - 1);
  }

  // ----- the specification: the sorted history of everything accepted -----

  /** The initial zeros and all accepted numbers, in ascending order. */
  function History(accepted: seq<uint64>): (h: seq<int>)
    ensures |h| == REPLAY_WINDOW_LEN + |accepted|
    ensures multiset(h) == multiset(ZeroWindow()) + multiset(accepted)
  {
    if accepted == [] then ZeroWindow()
    else
      assert accepted == accepted[..|accepted| - 1] + [accepted[|accepted| - 1]];
      SortedInsert(History(accepted[..|accepted| - 1]), accepted[|accepted| - 1])
  }

  lemma {:induction false} HistoryAscending(accepted: seq<uint64>)
    ensures Ascending(History(accepted))
  {
    if accepted != [] {
      HistoryAscending(accepted[..|accepted| - 1]);
      SortedInsertAscending(History(accepted[..|accepted| - 1]), accepted[|accepted| - 1]);
    }
  }

  /** The 32 largest of the initial zeros and the accepted numbers. */
  function Largest(accepted: seq<uint64>): (w: seq<int>)
    ensures |w| == REPLAY_WINDOW_LEN
  {
    History(accepted)[|accepted|..]
  }

  // ----- the receiver: check, then decrypt, then update -----

  /** A request as the receiver sees it: its sequence number, and whether it decrypts. */
  datatype Arrival = Arrival(number: uint64, authentic: bool)

  datatype Receiver = Receiver(firstRun: bool, window: seq<uint64>, accepted: seq<uint64>)

  const INITIAL := Receiver(true, ZeroWindow(), [])

  predicate Passes(r: Receiver, n: uint64) {
    |r.window| > 0 && Verdict(r.firstRun, n, r.window)
  }

  /** One request under the guard, with a flag that survives the call. */
  function Receive(r: Receiver, a: Arrival): Receiver
  {
    if !Passes(r, a.number) then r
    else if !a.authentic then r.(firstRun := false)
    else Receiver(false, Updated(r.window, a.number), r.accepted + [a.number])
  }

  function Run(arrivals: seq<Arrival>): (r: Receiver)
    ensures |r.window| == REPLAY_WINDOW_LEN
  {
    if arrivals == [] then INITIAL
    else Receive(Run(arrivals[..|arrivals| - 1]), arrivals[|arrivals| - 1])
  }

  /** The same receiver with `replay_check` as shipped. */
  function RunShipped(arrivals: seq<Arrival>): (r: Receiver)
    ensures |r.window| == REPLAY_WINDOW_LEN
  {
    if arrivals == [] then INITIAL
    else
      var r := RunShipped(arrivals[..|arrivals| - 1]);
      var a := arrivals[|arrivals| - 1];
      if !a.authentic then r else Receiver(true, Updated(r.window, a.number), r.accepted + [a.number])
  }

  // ----- refinement -----

  ghost predicate Refines(r: Receiver) {
    && r.window == Largest(r.accepted)
    && Ascending(r.window)
    && (r.firstRun ==> r.accepted == [])
    && forall i, j :: 0 <= i < j < |r.accepted| ==> r.accepted[i] != r.accepted[j]
  }

  /** The shift, one slot at a time. */
  function Shifted(w: seq<uint64>, n: uint64): (r: seq<uint64>)
    requires |w| > 0
    ensures |r| == |w|
  {
    if |w| == 1 then [n]
    else if w[0] < n && n < w[1] then [n] + w[1..]
    else [w[1]] + Shifted(w[1..], n)
  }

  lemma {:induction false} UpdateIsShift(w: seq<uint64>, n: uint64, i: nat)
    requires i < |w|
    ensures var p := InsertPosition(w, n, i);
      w[i + 1..p + 1] + [n] + w[p + 1..] == Shifted(w[i..], n)
    decreases |w| - i
  {
    var p := InsertPosition(w, n, i);
    assert w[i..][1..] == w[i + 1..];
    if p != i {
      UpdateIsShift(w, n, i + 1);
      assert w[i + 1..p + 1] == [w[i + 1]] + w[i + 2..p + 1];
    }
  }

  /** On an ascending window the shift is a sorted insertion that drops the smallest number. */
  lemma {:induction false} ShiftIsSortedInsert(w: seq<uint64>, n: uint64)
    requires |w| > 0 && Ascending(w)
    requires (n !in w && w[0] < n) || forall i :: 0 <= i < |w| ==> w[i] == n
    ensures Shifted(w, n) == SortedInsert(w, n)[1..]
  {
    var t := w[1..];
    if |w| > 1 && !(w[0] < n && n < w[1]) {
      assert t[0] == w[1];
      ShiftIsSortedInsert(t, n);
      assert SortedInsert(t, n)[0] == t[0];
      assert SortedInsert(t, n) == [t[0]] + SortedInsert(t, n)[1..];
    }
    if w[0] < n {
      assert SortedInsert(w, n) == [w[0]] + SortedInsert(t, n);
    }
  }

  /** Dropping the k smallest commutes with inserting a number that is not below the rest. */
  lemma {:induction false} InsertAboveSuffix(h: seq<int>, k: nat, n: uint64)
    requires k < |h| && Ascending(h) && h[k] <= n
    ensures SortedInsert(h, n)[k + 1..] == SortedInsert(h[k..], n)[1..]
  {
    if k == 0 {
      assert h[0..] == h;
    } else if n <= h[0] {
      assert h[k..][0] == n;
      assert ([n] + h)[k + 1..] == h[k..] == ([n] + h[k..])[1..];
    } else {
      var t := h[1..];
      assert t[k - 1..] == h[k..];
      InsertAboveSuffix(t, k - 1, n);
      assert ([h[0]] + SortedInsert(t, n))[k + 1..] == SortedInsert(t, n)[k..];
    }
  }

  /** A number that was accepted and exceeds slot 0 is still in the window. */
  lemma {:induction false} RememberedAboveFloor(accepted: seq<uint64>, n: uint64)
    requires n in accepted && n > Largest(accepted)[0]
    ensures n in Largest(accepted)
  {
    HistoryAscending(accepted);
    var h := History(accepted);
    assert n in multiset(accepted);
    assert n in multiset(h);
    var j :| 0 <= j < |h| && h[j] == n;
    assert j > |accepted|;
    assert h[|accepted|..][j - |accepted|] == n;
  }

  /** The history after one more accepted number, restricted to the 32 largest. */
  lemma {:induction false} LargestStep(accepted: seq<uint64>, n: uint64)
    requires n >= Largest(accepted)[0]
    ensures Largest(accepted + [n]) == SortedInsert(Largest(accepted), n)[1..]
  {
    HistoryAscending(accepted);
    assert (accepted + [n])[..|accepted|] == accepted;
    InsertAboveSuffix(History(accepted), |accepted|, n);
  }

  lemma {:induction false} LargestAscending(accepted: seq<uint64>)
    ensures Ascending(Largest(accepted))
  {
    HistoryAscending(accepted);
  }

  lemma {:induction false} AcceptedIsNew(r: Receiver, n: uint64)
    requires Refines(r) && Passes(r, n)
    ensures n !in r.accepted
    ensures r.firstRun || (n !in r.window && r.window[0] < n)
  {
    if !r.firstRun && n in r.accepted {
      RememberedAboveFloor(r.accepted, n);
    }
  }

  lemma {:induction false} UpdateIsSortedInsert(w: seq<uint64>, n: uint64)
    requires |w| > 0 && Ascending(w)
    requires (n !in w && w[0] < n) || forall i :: 0 <= i < |w| ==> w[i] == n
    ensures Updated(w, n) == SortedInsert(w, n)[1..]
  {
    UpdateIsShift(w, n, 0);
    assert w[0..] == w;
    ShiftIsSortedInsert(w, n);
  }

  lemma {:induction false} AcceptedStep(r: Receiver, n: uint64)
    requires Refines(r) && Passes(r, n)
    ensures Updated(r.window, n) == Largest(r.accepted + [n])
  {
    if r.firstRun {
      FirstWindow();
    } else {
      AcceptedIsNew(r, n);
    }
    UpdateIsSortedInsert(r.window, n);
    LargestStep(r.accepted, n);
  }

  lemma {:induction false} FirstWindow()
    ensures Largest([]) == ZeroWindow()
  {
    assert History([])[0..] == History([]);
  }

  /** Refinement over every run: the array holds exactly the 32 largest, and nothing was accepted twice. */
  lemma {:induction false} RunRefines(arrivals: seq<Arrival>)
    ensures Refines(Run(arrivals))
  {
    if arrivals == [] {
      FirstWindow();
    } else {
      var r := Run(arrivals[..|arrivals| - 1]);
      var a := arrivals[|arrivals| - 1];
      RunRefines(arrivals[..|arrivals| - 1]);
      if Passes(r, a.number) && a.authentic {
        AcceptedStep(r, a.number);
        AcceptedIsNew(r, a.number);
        LargestAscending(r.accepted + [a.number]);
      }
    }
  }

  /** A window slot above zero holds an accepted number. */
  lemma {:induction false} WindowHoldsAccepted(accepted: seq<uint64>, n: uint64)
    requires n in Largest(accepted) && n > 0
    ensures n in accepted
  {
    var h := History(accepted);
    assert n in multiset(h);
    assert n !in ZeroWindow();
    assert n in multiset(accepted);
  }

  lemma {:induction false} PassesIffFresh(r: Receiver, n: uint64)
    requires Refines(r) && !r.firstRun
    ensures Passes(r, n) <==> n !in r.accepted && n > Largest(r.accepted)[0]
  {
    if n > r.window[0] {
      if n in r.accepted {
        RememberedAboveFloor(r.accepted, n);
      } else if n in r.window {
        WindowHoldsAccepted(r.accepted, n);
      }
    }
  }

  /**
   * The decision in terms of the specification alone: after the first check a number passes
   * exactly when it was never accepted and exceeds the 32nd largest number on record.
   */
  lemma {:induction false} AcceptedIffFresh(arrivals: seq<Arrival>, n: uint64)
    requires !Run(arrivals).firstRun
    ensures Passes(Run(arrivals), n) <==>
            n !in Run(arrivals).accepted && n > Largest(Run(arrivals).accepted)[0]
  {
    RunRefines(arrivals);
    PassesIffFresh(Run(arrivals), n);
  }

  // ----- the check as shipped -----

  /** The guarded receiver lets every request pass that decrypts. */
  ghost predicate AllPass(arrivals: seq<Arrival>) {
    forall i :: 0 <= i < |arrivals| && arrivals[i].authentic ==> Passes(Run(arrivals[..i]), arrivals[i].number)
  }

  /** A number that decrypts twice is accepted twice as shipped, and once under the guard. */
  lemma {:induction false} ShippedCheckAcceptsReplay(n: uint64)
    ensures var twice := [Arrival(n, true), Arrival(n, true)];
      RunShipped(twice).accepted == [n, n] && Run(twice).accepted == [n]
  {
    hide Updated, Passes, Refines, Receive;
    var a := [Arrival(n, true), Arrival(n, true)];
    var once := [Arrival(n, true)];
    assert a[..1] == once && once[..0] == [];
    assert Run(once) == Receive(INITIAL, once[0]);
    RunRefines(once);
    FirstIsAccepted(n);
    PassesIffFresh(Run(once), n);
    OnceOnly(Run(once), n);
    assert RunShipped(once).accepted == [n];
  }

  lemma {:induction false} FirstIsAccepted(n: uint64)
    ensures var r := Receive(INITIAL, Arrival(n, true)); r.accepted == [n] && !r.firstRun
  {
    hide Updated;
  }

  lemma {:induction false} OnceOnly(r: Receiver, n: uint64)
    requires !Passes(r, n)
    ensures Receive(r, Arrival(n, true)) == r
  {
  }

  lemma {:induction false} AcceptedCounts(arrivals: seq<Arrival>)
    ensures |Run(arrivals).accepted| <= |RunShipped(arrivals).accepted|
    ensures |Run(arrivals).accepted| == |RunShipped(arrivals).accepted| <==> AllPass(arrivals)
  {
    if arrivals != [] {
      var k := |arrivals| - 1;
      AcceptedCounts(arrivals[..k]);
      AllPassSnoc(arrivals);
    }
  }

  lemma {:induction false} AllPassSnoc(arrivals: seq<Arrival>)
    requires arrivals != []
    ensures var k := |arrivals| - 1;
      AllPass(arrivals) <==>
      AllPass(arrivals[..k]) && (arrivals[k].authentic ==> Passes(Run(arrivals[..k]), arrivals[k].number))
  {
    hide Passes, Run;
    var k := |arrivals| - 1;
    assert forall i :: 0 <= i < k ==> arrivals[..k][..i] == arrivals[..i];
  }

  /** When everything passes, both receivers are in the same state but for the flag. */
  lemma {:induction false} SameWhenAllPass(arrivals: seq<Arrival>)
    requires AllPass(arrivals)
    ensures RunShipped(arrivals).accepted == Run(arrivals).accepted == Authentic(arrivals)
    ensures RunShipped(arrivals).window == Run(arrivals).window
  {
    if arrivals != [] {
      hide Passes, Updated;
      AllPassSnoc(arrivals);
      SameWhenAllPass(arrivals[..|arrivals| - 1]);
    }
  }

  // ----- when nothing would have been rejected -----

  /** The numbers of the requests that decrypt. */
  function Authentic(arrivals: seq<Arrival>): seq<uint64> {
    if arrivals == [] then []
    else
      var before, a := arrivals[..|arrivals| - 1], arrivals[|arrivals| - 1];
      Authentic(before) + if a.authentic then [a.number] else []
  }

  function CountAtLeast(s: seq<int>, n: int): (k: nat)
    ensures k <= |s|
  {
    if s == [] then 0 else (if s[0] >= n then 1 else 0) + CountAtLeast(s[1..], n)
  }

  /** Not zero, not seen before, and fewer than 32 of the earlier numbers are as large. */
  predicate Fresh(before: seq<uint64>, n: uint64) {
    n > 0 && n !in before && CountAtLeast(before, n) < 32
  }

  /** Every request that decrypts, after the first arrival, brings a fresh number. */
  predicate FreshArrivals(arrivals: seq<Arrival>) {
    forall i :: 0 < i < |arrivals| && arrivals[i].authentic ==> Fresh(Authentic(arrivals[..i]), arrivals[i].number)
  }

  lemma {:induction false} CountAll(s: seq<int>, n: int)
    requires forall i :: 0 <= i < |s| ==> s[i] >= n
    ensures CountAtLeast(s, n) == |s|
  {
    if s != [] {
      CountAll(s[1..], n);
    }
  }

  lemma {:induction false} CountNone(s: seq<int>, n: int)
    requires forall i :: 0 <= i < |s| ==> s[i] < n
    ensures CountAtLeast(s, n) == 0
  {
    if s != [] {
      CountNone(s[1..], n);
    }
  }

  /** In an ascending sequence slot k is below n exactly when at most the slots behind it are not. */
  lemma {:induction false} CountAscending(h: seq<int>, k: nat, n: int)
    requires Ascending(h) && k < |h|
    ensures h[k] < n <==> CountAtLeast(h, n) < |h| - k
  {
    if h[0] >= n {
      CountAll(h, n);
    } else if k > 0 {
      CountAscending(h[1..], k - 1, n);
    }
  }

  lemma {:induction false} CountInsert(s: seq<int>, x: int, n: int)
    ensures CountAtLeast(SortedInsert(s, x), n) == CountAtLeast(s, n) + if x >= n then 1 else 0
  {
    if s == [] || x <= s[0] {
      assert ([x] + s)[1..] == s;
    } else {
      CountInsert(s[1..], x, n);
    }
  }

  lemma {:induction false} CountSnoc(s: seq<int>, x: int, n: int)
    ensures CountAtLeast(s + [x], n) == CountAtLeast(s, n) + if x >= n then 1 else 0
  {
    if s == [] {
      assert s + [x] == [x];
    } else {
      assert (s + [x])[1..] == s[1..] + [x];
      CountSnoc(s[1..], x, n);
    }
  }

  lemma {:induction false} CountHistory(accepted: seq<uint64>, n: int)
    requires n > 0
    ensures CountAtLeast(History(accepted), n) == CountAtLeast(accepted, n)
  {
    if accepted == [] {
      CountNone(ZeroWindow(), n);
    } else {
      hide SortedInsert, CountAtLeast;
      var k := |accepted| - 1;
      CountHistory(accepted[..k], n);
      CountInsert(History(accepted[..k]), accepted[k], n);
      CountSnoc(accepted[..k], accepted[k], n);
      assert accepted == accepted[..k] + [accepted[k]];
    }
  }

  /** Exceeding the 32nd largest number on record, counted. */
  lemma {:induction false} AboveFloorIff(accepted: seq<uint64>, n: uint64)
    ensures n > Largest(accepted)[0] <==> n > 0 && CountAtLeast(accepted, n) < REPLAY_WINDOW_LEN
  {
    hide CountAtLeast;
    HistoryAscending(accepted);
    CountAscending(History(accepted), |accepted|, n);
    if n > 0 {
      CountHistory(accepted, n);
    } else {
      LargestIsNatural(accepted);
    }
  }

  lemma {:induction false} LargestIsNatural(accepted: seq<uint64>)
    ensures Largest(accepted)[0] >= 0
  {
    var h := History(accepted);
    assert h[|accepted|] in multiset(h);
    if h[|accepted|] in multiset(accepted) {
      assert h[|accepted|] in accepted;
    } else {
      assert h[|accepted|] in multiset(ZeroWindow());
      assert h[|accepted|] in ZeroWindow();
    }
  }

  lemma {:induction false} FirstArrivalPasses(arrivals: seq<Arrival>)
    requires arrivals != []
    ensures !Run(arrivals).firstRun
  {
    if |arrivals| > 1 {
      hide Updated, Passes;
      FirstArrivalPasses(arrivals[..|arrivals| - 1]);
    }
  }

  lemma {:induction false} FreshSnoc(arrivals: seq<Arrival>)
    requires arrivals != []
    ensures var k := |arrivals| - 1;
      FreshArrivals(arrivals) <==>
      FreshArrivals(arrivals[..k]) && (k > 0 && arrivals[k].authentic ==> Fresh(Authentic(arrivals[..k]), arrivals[k].number))
  {
    hide Fresh, Authentic;
    var k := |arrivals| - 1;
    assert forall i :: 0 <= i < k ==> arrivals[..k][..i] == arrivals[..i];
  }

  lemma {:induction false} AllPassIffFresh(arrivals: seq<Arrival>)
    ensures AllPass(arrivals) <==> FreshArrivals(arrivals)
    decreases |arrivals|
  {
    if arrivals != [] {
      hide AllPass, FreshArrivals, Refines, Passes, Largest, CountAtLeast, Run;
      var k := |arrivals| - 1;
      var before, n := arrivals[..k], arrivals[k].number;
      AllPassSnoc(arrivals);
      FreshSnoc(arrivals);
      AllPassIffFresh(before);
      if k == 0 {
        NothingYet(n);
      } else if AllPass(before) {
        SameWhenAllPass(before);
        RunRefines(before);
        FirstArrivalPasses(before);
        PassesIffFresh(Run(before), n);
        AboveFloorIff(Authentic(before), n);
      }
    } else {
      NoArrivals();
    }
  }

  lemma {:induction false} NoArrivals()
    ensures AllPass([]) && FreshArrivals([])
  {
  }

  lemma {:induction false} NothingYet(n: uint64)
    ensures Passes(Run([]), n)
  {
  }

  /**
   * The shipped receiver accepts the same numbers and keeps the same window as the guarded one
   * exactly when every request that decrypts, after the first arrival, brings a number that is
   * not zero, was not accepted before and is among the 32 largest of its time.
   */
  lemma {:induction false} ShippedMatchesGuardIff(arrivals: seq<Arrival>)
    ensures (RunShipped(arrivals).accepted == Run(arrivals).accepted && RunShipped(arrivals).window == Run(arrivals).window)
       <==> FreshArrivals(arrivals)
  {
    hide AllPass, FreshArrivals;
    AcceptedCounts(arrivals);
    AllPassIffFresh(arrivals);
    if AllPass(arrivals) {
      SameWhenAllPass(arrivals);
    }
  }
}
