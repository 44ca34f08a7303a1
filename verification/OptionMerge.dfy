/**
 * The sender inserts the OSCORE option among the U options; the receiver sorts the option
 * numbers and merges the outer and the decrypted options with two cursors.
 */
module OptionMerge {
  import opened Common
  import opened CoapOption
  import opened OptionSplit
  import opened Sorting

  // ----- inserting the OSCORE option -----

  function InsertPosition(u: seq<CoapOption>): (p: nat)
    ensures p <= |u|
  {
    if u == [] || u[0].number > OSCORE_NUMBER then 0 else 1 + InsertPosition(u[1..])
  }

  function Rebase(os: seq<CoapOption>, last: byte): (r: seq<CoapOption>)
    ensures |r| == |os|
  {
    if os == [] then []
    else [os[0].(delta := U16(os[0].number - last))] + Rebase(os[1..], os[0].number)
  }

  function WithOscore(u: seq<CoapOption>, value: OptionValue): seq<CoapOption> {
    var p := InsertPosition(u);
    Rebase(u[..p] + [CoapOption(0, OSCORE_NUMBER, value)] + u[p..], 0)
  }

  lemma {:induction false} RebaseSnoc(os: seq<CoapOption>, o: CoapOption, last: byte)
    ensures var before := if os == [] then last else os[|os| - 1].number;
      Rebase(os + [o], last) == Rebase(os, last) + [o.(delta := U16(o.number - before))]
    decreases |os|
  {
    if os == [] {
      assert [] + [o] == [o];
    } else {
      assert (os + [o])[1..] == os[1..] + [o];
      RebaseSnoc(os[1..], o, os[0].number);
    }
  }

  lemma {:induction false} InsertPositionIs(u: seq<CoapOption>, p: nat)
    requires p <= |u| && forall i :: 0 <= i < p ==> u[i].number <= OSCORE_NUMBER
    requires p < |u| ==> u[p].number > OSCORE_NUMBER
    ensures InsertPosition(u) == p
  {
    if p > 0 {
      InsertPositionIs(u[1..], p - 1);
    }
  }

  /** The first U option above the OSCORE option. */
  method FindPosition(u: seq<CoapOption>) returns (p: nat)
    ensures p == InsertPosition(u)
  {
    p := |u|;
    for i := 0 to |u|
      invariant p == |u| && forall k :: 0 <= k < i ==> u[k].number <= OSCORE_NUMBER
    {
      if u[i].number > OSCORE_NUMBER {
        p := i;
        break;
      }
    }
    InsertPositionIs(u, p);
  }

  /** The option part of `oscore_pkg_generate`; the packet has 20 option slots. */
  method InsertOscoreOption(u: seq<CoapOption>, value: OptionValue) returns (r: Result<seq<CoapOption>>)
    ensures r == if |u| < MAX_OPTION_COUNT then Ok(WithOscore(u, value)) else Fail(Undefined)
  {
    hide InsertPosition, Rebase, U16, U8;
    var oscorePos := FindPosition(u);
    if |u| >= MAX_OPTION_COUNT {
      return Fail(Undefined);
    }
    ghost var all := u[..oscorePos] + [CoapOption(0, OSCORE_NUMBER, value)] + u[oscorePos..];
    RebaseNothing();
    var out: seq<CoapOption>, sum: byte, uPos := [], 0, 0;
    for i := 0 to |u| + 1
      invariant out == Rebase(all[..i], 0)
      invariant sum == if i == 0 then 0 else all[i - 1].number
      invariant uPos == if i <= oscorePos then i else i - 1
    {
      assert all[..i] + [all[i]] == all[..i + 1];
      RebaseSnoc(all[..i], all[i], 0);
      var o := if i == oscorePos then CoapOption(0, OSCORE_NUMBER, value) else u[uPos];
      assert o == all[i];
      out := out + [o.(delta := U16(o.number - sum))];
      if i != oscorePos {
        uPos := uPos + 1;
      }
      RunningSum(o.number, sum);
      sum := U8(sum + out[i].delta);
    }
    assert all[..|u| + 1] == all;
    return Ok(out);
  }

  lemma {:induction false} RebaseNothing()
    ensures Rebase([], 0) == []
  {
  }

  // ----- the merge -----

  function Numbers(os: seq<CoapOption>): (r: seq<byte>)
    ensures |r| == |os|
  {
    if os == [] then [] else [os[0].number] + Numbers(os[1..])
  }

  function OtherNumbers(outer: seq<CoapOption>): (r: seq<byte>)
    ensures |r| <= |outer|
  {
    if outer == [] then []
    else (if outer[0].number == OSCORE_NUMBER then [] else [outer[0].number]) + OtherNumbers(outer[1..])
  }

  /**
   * The two-cursor walk over the sorted numbers.  Both cursors may read the slot behind the
   * last option, which is not initialised.
   */
  function Walk(sorted: seq<int>, outer: seq<CoapOption>, u: nat, inner: seq<CoapOption>, e: nat, sum: uint16)
    : (r: Result<seq<CoapOption>>)
    ensures r.Ok? ==> |r.value| <= |sorted|
    decreases |sorted|
  {
    if sorted == [] then Ok([])
    else if u >= |outer| then Fail(Undefined)
    else if sorted[0] == outer[u].number then
      var o := outer[u].(delta := U16(outer[u].number - sum));
      Prepend([o], Walk(sorted[1..], outer, u + 1, inner, e, U16(sum + o.delta)))
    else if e >= |inner| then Fail(Undefined)
    else if sorted[0] == inner[e].number then
      var o := inner[e].(delta := U16(inner[e].number - sum));
      Prepend([o], Walk(sorted[1..], outer, u, inner, e + 1, U16(sum + o.delta)))
    else Walk(sorted[1..], outer, u, inner, e, sum)
  }

  /** The numbers to sort: all but the OSCORE option's, in a cleared array of the final size. */
  function MergeNumbers(outer: seq<CoapOption>, inner: seq<CoapOption>): Result<seq<byte>>
    requires outer != []
  {
    var count := |outer| + |inner| - 1;
    var numbers := OtherNumbers(outer) + Numbers(inner);
    if MAX_OPTION_COUNT < count then Fail(BufferToSmall)
    else if |numbers| > count then Fail(Undefined)
    else Ok(numbers + Zeros(count - |numbers|))
  }

  function Merge(outer: seq<CoapOption>, inner: seq<CoapOption>): Result<seq<CoapOption>>
    requires outer != []
  {
    if |outer| + |inner| == 1 then Ok([])
    else
      var numbers :- MergeNumbers(outer, inner);
      Walk(Sort(numbers), outer, 0, inner, 0, 0)
  }

  lemma {:induction false} NumbersSnoc(os: seq<CoapOption>, o: CoapOption)
    ensures Numbers(os + [o]) == Numbers(os) + [o.number]
    ensures OtherNumbers(os + [o]) == OtherNumbers(os) + if o.number == OSCORE_NUMBER then [] else [o.number]
  {
    if os == [] {
      assert [] + [o] == [o];
    } else {
      assert (os + [o])[1..] == os[1..] + [o];
      NumbersSnoc(os[1..], o);
    }
  }

  /** Collects the option numbers into the cleared array. */
  method CollectNumbers(outer: seq<CoapOption>, inner: seq<CoapOption>) returns (r: Result<array<byte>>)
    requires outer != []
    ensures MergeNumbers(outer, inner).Fail? ==> r == Fail(MergeNumbers(outer, inner).err)
    ensures MergeNumbers(outer, inner).Ok? ==> r.Ok? && fresh(r.value) && r.value[..] == MergeNumbers(outer, inner).value
  {
    var count := |outer| + |inner| - 1;
    if MAX_OPTION_COUNT < count {
      return Fail(BufferToSmall);
    }
    var numbers: seq<byte> := [];
    for i := 0 to |outer|
      invariant numbers == OtherNumbers(outer[..i])
    {
      assert outer[..i] + [outer[i]] == outer[..i + 1];
      NumbersSnoc(outer[..i], outer[i]);
      if outer[i].number != OSCORE_NUMBER {
        numbers := numbers + [outer[i].number];
      }
    }
    assert outer[..|outer|] == outer;
    for i := 0 to |inner|
      invariant numbers == OtherNumbers(outer) + Numbers(inner[..i])
    {
      assert inner[..i] + [inner[i]] == inner[..i + 1];
      NumbersSnoc(inner[..i], inner[i]);
      numbers := numbers + [inner[i].number];
    }
    assert inner[..|inner|] == inner;
    if |numbers| > count {
      return Fail(Undefined);
    }
    var temp := new byte[count](i => 0);
    CopyInto(temp, 0, numbers + Zeros(count - |numbers|));
    assert temp[..] == temp[0..0 + count];
    return Ok(temp);
  }

  /** One step of the walk, as it changes what is collected. */
  lemma {:induction false} WalkStep(
      sorted: seq<int>, i: nat, outer: seq<CoapOption>, u: nat, inner: seq<CoapOption>, e: nat, sum: uint16,
      taken: seq<CoapOption>)
    requires i < |sorted| && u < |outer|
    ensures var all := Prepend(taken, Walk(sorted[i..], outer, u, inner, e, sum));
      if sorted[i] == outer[u].number then
        var o := outer[u].(delta := U16(outer[u].number - sum));
        all == Prepend(taken + [o], Walk(sorted[i + 1..], outer, u + 1, inner, e, U16(sum + o.delta)))
      else if e < |inner| && sorted[i] == inner[e].number then
        var o := inner[e].(delta := U16(inner[e].number - sum));
        all == Prepend(taken + [o], Walk(sorted[i + 1..], outer, u, inner, e + 1, U16(sum + o.delta)))
      else if e < |inner| then all == Prepend(taken, Walk(sorted[i + 1..], outer, u, inner, e, sum))
      else all == Fail(Undefined)
  {
    hide U16, Prepend;
    HidePrepend();
    assert sorted[i..][1..] == sorted[i + 1..];
    if sorted[i] == outer[u].number {
      var o := outer[u].(delta := U16(outer[u].number - sum));
      PrependPrepend(taken, [o], Walk(sorted[i + 1..], outer, u + 1, inner, e, U16(sum + o.delta)));
    } else if e < |inner| && sorted[i] == inner[e].number {
      var o := inner[e].(delta := U16(inner[e].number - sum));
      PrependPrepend(taken, [o], Walk(sorted[i + 1..], outer, u, inner, e + 1, U16(sum + o.delta)));
    }
  }

  lemma {:induction false} HidePrepend()
    ensures forall taken: seq<CoapOption>, e: Err {:trigger Prepend(taken, Fail(e))} :: Prepend(taken, Fail(e)) == Fail(e)
  {
  }

  /** `options_from_oscore_reorder`. */
  method OptionsFromOscoreReorder(outer: seq<CoapOption>, inner: seq<CoapOption>) returns (r: Result<seq<CoapOption>>)
    requires outer != []
    ensures r == Merge(outer, inner)
  {
    if |outer| + |inner| == 1 {
      return Ok([]);
    }
    var numbers := CollectNumbers(outer, inner);
    if numbers.Fail? {
      return Fail(numbers.err);
    }
    var temp := numbers.value;
    SortInPlace(temp);
    r := MergeSorted(temp[..], outer, inner);
  }

  method MergeSorted(sorted: seq<byte>, outer: seq<CoapOption>, inner: seq<CoapOption>)
    returns (r: Result<seq<CoapOption>>)
    ensures r == Walk(sorted, outer, 0, inner, 0, 0)
  {
    hide Walk, U16, Prepend;
    var out: seq<CoapOption>, u, e, sum: uint16 := [], 0, 0, 0;
    PrependNothing(Walk(sorted, outer, 0, inner, 0, 0));
    assert sorted[0..] == sorted;
    for i := 0 to |sorted|
      invariant Prepend(out, Walk(sorted[i..], outer, u, inner, e, sum)) == Walk(sorted, outer, 0, inner, 0, 0)
    {
      if u >= |outer| {
        WalkPastEnd(sorted[i..], outer, u, inner, e, sum);
        HidePrepend();
        return Fail(Undefined);
      }
      WalkStep(sorted, i, outer, u, inner, e, sum, out);
      if sorted[i] == outer[u].number {
        var delta := U16(outer[u].number - sum);
        out := out + [outer[u].(delta := delta)];
        sum := U16(sum + delta);
        u := u + 1;
      } else if e >= |inner| {
        return Fail(Undefined);
      } else if sorted[i] == inner[e].number {
        var delta := U16(inner[e].number - sum);
        out := out + [inner[e].(delta := delta)];
        sum := U16(sum + delta);
        e := e + 1;
      }
    }
    assert sorted[|sorted|..] == [];
    WalkNothing(out, outer, u, inner, e, sum);
    return Ok(out);
  }

  lemma {:induction false} WalkPastEnd(
      sorted: seq<int>, outer: seq<CoapOption>, u: nat, inner: seq<CoapOption>, e: nat, sum: uint16)
    requires sorted != [] && u >= |outer|
    ensures Walk(sorted, outer, u, inner, e, sum) == Fail(Undefined)
  {
  }

  lemma {:induction false} WalkNothing(
      taken: seq<CoapOption>, outer: seq<CoapOption>, u: nat, inner: seq<CoapOption>, e: nat, sum: uint16)
    ensures Prepend(taken, Walk([], outer, u, inner, e, sum)) == Ok(taken)
  {
    assert taken + [] == taken;
  }
}
