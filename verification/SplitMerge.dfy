/** Splitting a packet's options at the sender and merging them at the receiver. */
module SplitMerge {
  import opened Common
  import opened CoapOption
  import opened OptionSplit
  import opened OptionMerge
  import opened Sorting

  /** What an option carries whatever its delta is relative to. */
  datatype Tag = Tag(number: byte, value: OptionValue)

  function Tags(os: seq<CoapOption>): (r: seq<Tag>)
    ensures |r| == |os|
  {
    if os == [] then [] else [Tag(os[0].number, os[0].value)] + Tags(os[1..])
  }

  predicate IsLow(number: byte) { !IsClassE(number) && number < OSCORE_NUMBER }
  predicate IsHigh(number: byte) { !IsClassE(number) && number > OSCORE_NUMBER }

  datatype Kind = Low | High | Encrypted

  predicate Is(number: byte, kind: Kind) {
    match kind
    case Low => IsLow(number)
    case High => IsHigh(number)
    case Encrypted => IsClassE(number)
  }

  function Filter(os: seq<CoapOption>, kind: Kind): seq<CoapOption> {
    if os == [] then []
    else (if Is(os[0].number, kind) then [os[0]] else []) + Filter(os[1..], kind)
  }

  predicate NoOscore(os: seq<CoapOption>) {
    forall i :: 0 <= i < |os| ==> os[i].number != OSCORE_NUMBER
  }

  /** No Proxy-Uri and no Proxy-Scheme: the unprotected options numbered above OSCORE. */
  predicate NoHigh(os: seq<CoapOption>) {
    forall i :: 0 <= i < |os| ==> !IsHigh(os[i].number)
  }

  lemma {:induction false} TagAt(os: seq<CoapOption>, i: nat)
    requires i < |os|
    ensures Tags(os)[i] == Tag(os[i].number, os[i].value)
  {
    if i > 0 {
      TagAt(os[1..], i - 1);
    }
  }

  lemma {:induction false} TagsConcat(a: seq<CoapOption>, b: seq<CoapOption>)
    ensures Tags(a + b) == Tags(a) + Tags(b)
  {
    if a == [] {
      assert a + b == b;
    } else {
      assert (a + b)[1..] == a[1..] + b;
      TagsConcat(a[1..], b);
    }
  }

  lemma {:induction false} TagsRebase(os: seq<CoapOption>, last: byte)
    ensures Tags(Rebase(os, last)) == Tags(os)
  {
    if os != [] {
      TagsRebase(os[1..], os[0].number);
    }
  }

  lemma {:induction false} SelectEncrypted(os: seq<CoapOption>, number: byte, last: byte)
    requires Ordered(number, os)
    ensures Tags(Select(os, number, last, true)) == Tags(Filter(os, Encrypted))
    decreases |os|
  {
    if os != [] {
      hide IsClassE, Filter, Tags, Select;
      var n := os[0].number;
      SelectCons(os, number, last, true);
      FilterCons(os, Encrypted);
      SelectEncrypted(os[1..], n, if IsClassE(n) then n else last);
    }
  }

  lemma {:induction false} HighEndsLow(number: byte, os: seq<CoapOption>)
    requires Ordered(number, os) && number > OSCORE_NUMBER
    ensures Filter(os, Low) == []
    decreases |os|
  {
    if os != [] {
      HighEndsLow(os[0].number, os[1..]);
    }
  }

  lemma {:induction false} FilterCons(os: seq<CoapOption>, kind: Kind)
    requires os != []
    ensures Is(os[0].number, kind) ==>
              && Filter(os, kind) == [os[0]] + Filter(os[1..], kind)
              && Tags(Filter(os, kind)) == [Tag(os[0].number, os[0].value)] + Tags(Filter(os[1..], kind))
              && Numbers(Filter(os, kind)) == [os[0].number] + Numbers(Filter(os[1..], kind))
    ensures !Is(os[0].number, kind) ==> Filter(os, kind) == Filter(os[1..], kind)
  {
    hide Is;
    if Is(os[0].number, kind) {
      assert ([os[0]] + Filter(os[1..], kind))[1..] == Filter(os[1..], kind);
    }
  }

  lemma {:induction false} SelectCons(os: seq<CoapOption>, number: byte, last: byte, encrypted: bool)
    requires os != [] && Ordered(number, os)
    ensures var n := os[0].number;
      Tags(Select(os, number, last, encrypted)) ==
      if IsClassE(n) == encrypted then [Tag(n, os[0].value)] + Tags(Select(os[1..], n, n, encrypted))
      else Tags(Select(os[1..], n, last, encrypted))
  {
    hide IsClassE, U16;
    var n := os[0].number;
    if IsClassE(n) == encrypted {
      var rest := Select(os[1..], n, n, encrypted);
      assert ([CoapOption(U16(n - last), n, os[0].value)] + rest)[1..] == rest;
    }
  }

  /** One option in front of a list whose U options are already in order. */
  lemma {:induction false} UnprotectedCons(os: seq<CoapOption>, number: byte, last: byte, rest: seq<Tag>)
    requires os != [] && Ordered(number, os) && os[0].number != OSCORE_NUMBER
    requires var n := os[0].number; rest == Tags(Select(os[1..], n, if IsClassE(n) then last else n, false))
    requires rest == Tags(Filter(os[1..], Low)) + Tags(Filter(os[1..], High))
    ensures Tags(Select(os, number, last, false)) == Tags(Filter(os, Low)) + Tags(Filter(os, High))
  {
    hide IsClassE, Filter, Tags, Select, Ordered;
    var n := os[0].number;
    SelectCons(os, number, last, false);
    FilterCons(os, Low);
    FilterCons(os, High);
    KindOf(n);
    if IsHigh(n) {
      OrderedRest(number, os);
      HighEndsLow(n, os[1..]);
      NoTags();
    }
  }

  lemma {:induction false} OrderedRest(number: byte, os: seq<CoapOption>)
    requires os != [] && Ordered(number, os)
    ensures Ordered(os[0].number, os[1..])
  {
  }

  /** Among ascending numbers without 9, the U options below OSCORE come before those above it. */
  lemma {:induction false} SelectUnprotected(os: seq<CoapOption>, number: byte, last: byte)
    requires Ordered(number, os) && NoOscore(os)
    ensures Tags(Select(os, number, last, false)) == Tags(Filter(os, Low)) + Tags(Filter(os, High))
    decreases |os|
  {
    if os != [] {
      hide IsClassE, Filter, Tags, Select;
      var n, rest := os[0].number, os[1..];
      var next := if IsClassE(n) then last else n;
      SelectUnprotected(rest, n, next);
      UnprotectedCons(os, number, last, Tags(Select(rest, n, next, false)));
    } else {
      NoTags();
    }
  }

  lemma {:induction false} NoTags()
    ensures Tags([]) == []
    ensures Filter([], Low) == [] && Filter([], High) == [] && Filter([], Encrypted) == []
  {
  }

  /** Each number is of exactly one kind, except OSCORE's own. */
  lemma {:induction false} KindOf(number: byte)
    requires number != OSCORE_NUMBER
    ensures IsHigh(number) || IsLow(number) || IsClassE(number)
    ensures IsLow(number) ==> !IsHigh(number) && !IsClassE(number)
    ensures IsHigh(number) ==> number > OSCORE_NUMBER && !IsClassE(number)
  {
  }

  lemma {:induction false} FilterKinds(os: seq<CoapOption>, kind: Kind)
    ensures forall i :: 0 <= i < |Filter(os, kind)| ==> Is(Filter(os, kind)[i].number, kind)
  {
    hide Is;
    if os != [] {
      FilterKinds(os[1..], kind);
    }
  }

  /** The low options are the ones in front of the insertion position. */
  lemma {:induction false} InsertBehindLow(os: seq<CoapOption>, u: seq<CoapOption>)
    requires Tags(u) == Tags(Filter(os, Low)) + Tags(Filter(os, High))
    ensures InsertPosition(u) == |Filter(os, Low)|
  {
    hide Filter, Tags, InsertPosition, IsClassE;
    var low, high := Filter(os, Low), Filter(os, High);
    FilterKinds(os, Low);
    FilterKinds(os, High);
    assert |u| == |Tags(u)| == |low| + |high|;
    forall i | 0 <= i < |u|
      ensures u[i].number == if i < |low| then low[i].number else high[i - |low|].number
    {
      TagAt(u, i);
      if i < |low| {
        TagAt(low, i);
      } else {
        TagAt(high, i - |low|);
      }
    }
    InsertPositionIs(u, |low|);
  }

  /** What the receiver finds outside: low options, the OSCORE option, high options. */
  lemma {:induction false} OuterTags(os: seq<CoapOption>, value: OptionValue)
    requires Ordered(0, os) && NoOscore(os)
    ensures Tags(WithOscore(Select(os, 0, 0, false), value)) ==
            Tags(Filter(os, Low)) + [Tag(OSCORE_NUMBER, value)] + Tags(Filter(os, High))
  {
    hide Filter, Select, Rebase, InsertPosition;
    var u, o, p := Select(os, 0, 0, false), CoapOption(0, OSCORE_NUMBER, value), |Filter(os, Low)|;
    SelectUnprotected(os, 0, 0);
    InsertBehindLow(os, u);
    assert |u| == |Tags(u)| && p == |Tags(Filter(os, Low))|;
    TagsRebase(u[..p] + [o] + u[p..], 0);
    TagsConcat(u[..p] + [o], u[p..]);
    TagsConcat(u[..p], [o]);
    TagsSlices(u, p);
    TagsOfOne(o);
  }

  lemma {:induction false} TagsSlices(u: seq<CoapOption>, p: nat)
    requires p <= |u|
    ensures Tags(u[..p]) == Tags(u)[..p] && Tags(u[p..]) == Tags(u)[p..]
  {
    assert u[..p] + u[p..] == u;
    TagsConcat(u[..p], u[p..]);
  }

  lemma {:induction false} TagsOfOne(o: CoapOption)
    ensures Tags([o]) == [Tag(o.number, o.value)]
  {
  }

  // ----- the sorted numbers -----

  lemma {:induction false} NumbersByTags(a: seq<CoapOption>, b: seq<CoapOption>)
    requires Tags(a) == Tags(b)
    ensures Numbers(a) == Numbers(b) && OtherNumbers(a) == OtherNumbers(b)
  {
    if a != [] {
      assert Tags(a)[1..] == Tags(a[1..]) && Tags(b)[1..] == Tags(b[1..]);
      assert Tags(a)[0] == Tags(b)[0];
      NumbersByTags(a[1..], b[1..]);
    }
  }

  lemma {:induction false} OtherNumbersConcat(a: seq<CoapOption>, b: seq<CoapOption>)
    ensures OtherNumbers(a + b) == OtherNumbers(a) + OtherNumbers(b)
  {
    if a == [] {
      assert a + b == b;
    } else {
      assert (a + b)[1..] == a[1..] + b;
      OtherNumbersConcat(a[1..], b);
    }
  }

  lemma {:induction false} OtherNumbersAreAll(os: seq<CoapOption>)
    requires NoOscore(os)
    ensures OtherNumbers(os) == Numbers(os)
  {
    if os != [] {
      OtherNumbersAreAll(os[1..]);
    }
  }

  function Count(os: seq<CoapOption>, kind: Kind): multiset<byte> {
    multiset(Numbers(Filter(os, kind)))
  }

  lemma {:induction false} CountCons(os: seq<CoapOption>, kind: Kind)
    requires os != []
    ensures Is(os[0].number, kind) ==> Count(os, kind) == multiset{os[0].number} + Count(os[1..], kind)
    ensures !Is(os[0].number, kind) ==> Count(os, kind) == Count(os[1..], kind)
    ensures |Filter(os, kind)| == |Filter(os[1..], kind)| + if Is(os[0].number, kind) then 1 else 0
  {
    hide Filter, Numbers, Is;
    FilterCons(os, kind);
  }

  lemma {:induction false} KindsPartition(os: seq<CoapOption>)
    requires NoOscore(os)
    ensures |Filter(os, Low)| + |Filter(os, High)| + |Filter(os, Encrypted)| == |os|
    ensures Count(os, Low) + Count(os, High) + Count(os, Encrypted) == multiset(Numbers(os))
  {
    if os != [] {
      hide Filter, IsClassE, IsLow, IsHigh, Count;
      CountCons(os, Low);
      CountCons(os, High);
      CountCons(os, Encrypted);
      KindOf(os[0].number);
      KindsPartition(os[1..]);
      assert multiset(Numbers(os)) == multiset{os[0].number} + multiset(Numbers(os[1..]));
    }
  }

  lemma {:induction false} NumbersAscend(number: byte, os: seq<CoapOption>)
    requires Ordered(number, os)
    ensures Ascending(Numbers(os)) && forall i :: 0 <= i < |os| ==> number <= Numbers(os)[i]
    decreases |os|
  {
    if os != [] {
      NumbersAscend(os[0].number, os[1..]);
    }
  }

  /** Leaving out the OSCORE option leaves the low and the high numbers. */
  lemma {:induction false} OuterNumbers(os: seq<CoapOption>, outer: seq<CoapOption>, value: OptionValue)
    requires Tags(outer) == Tags(Filter(os, Low)) + [Tag(OSCORE_NUMBER, value)] + Tags(Filter(os, High))
    ensures OtherNumbers(outer) == Numbers(Filter(os, Low)) + Numbers(Filter(os, High))
  {
    hide Filter, Tags, Numbers;
    var low, high, o := Filter(os, Low), Filter(os, High), CoapOption(0, OSCORE_NUMBER, value);
    TagsConcat(low + [o], high);
    TagsConcat(low, [o]);
    TagsOfOne(o);
    NumbersByTags(outer, low + [o] + high);
    OtherNumbersConcat(low + [o], high);
    OtherNumbersConcat(low, [o]);
    FilterKinds(os, Low);
    FilterKinds(os, High);
    OtherNumbersAreAll(low);
    OtherNumbersAreAll(high);
    assert OtherNumbers([o]) == [];
  }

  lemma {:induction false} SortedNumbers(
      os: seq<CoapOption>, outer: seq<CoapOption>, inner: seq<CoapOption>, value: OptionValue)
    requires Ordered(0, os) && NoOscore(os) && |os| <= MAX_OPTION_COUNT
    requires Tags(outer) == Tags(Filter(os, Low)) + [Tag(OSCORE_NUMBER, value)] + Tags(Filter(os, High))
    requires Tags(inner) == Tags(Filter(os, Encrypted))
    ensures |outer| + |inner| == |os| + 1
    ensures outer != [] && MergeNumbers(outer, inner).Ok? && Sort(MergeNumbers(outer, inner).value) == Numbers(os)
  {
    hide Filter, Tags, Numbers, OtherNumbers, Sort, Ordered;
    KindsPartition(os);
    assert |outer| == |Tags(outer)| && |inner| == |Tags(inner)|;
    OuterNumbers(os, outer, value);
    NumbersByTags(inner, Filter(os, Encrypted));
    var numbers := OtherNumbers(outer) + Numbers(inner);
    assert numbers + Zeros(0) == numbers;
    NumbersAscend(0, os);
    AscendingIsSort(Numbers(os), numbers);
  }

  // ----- the walk -----

  /** The two cursors stand where the remaining options `os` need them. */
  ghost predicate Cursors(
      os: seq<CoapOption>, outer: seq<CoapOption>, u: nat, inner: seq<CoapOption>, e: nat)
  {
    && u + |Filter(os, Low)| < |outer|
    && e + |Filter(os, Encrypted)| == |inner|
    && (forall i :: 0 <= i < |Filter(os, Low)| ==> Same(Filter(os, Low)[i], outer[u + i]))
    && outer[u + |Filter(os, Low)|].number == OSCORE_NUMBER
    && (forall i :: 0 <= i < |Filter(os, Encrypted)| ==> Same(Filter(os, Encrypted)[i], inner[e + i]))
  }

  predicate Same(a: CoapOption, b: CoapOption) {
    a.number == b.number && a.value == b.value
  }

  lemma {:induction false} CursorsPastLow(
      os: seq<CoapOption>, outer: seq<CoapOption>, u: nat, inner: seq<CoapOption>, e: nat)
    requires os != [] && IsLow(os[0].number) && Cursors(os, outer, u, inner, e)
    ensures Same(os[0], outer[u]) && Cursors(os[1..], outer, u + 1, inner, e)
  {
    hide Filter, IsClassE;
    var low, rest := Filter(os, Low), Filter(os[1..], Low);
    FilterCons(os, Low);
    FilterCons(os, Encrypted);
    assert low[0] == os[0];
    assert forall i :: 0 <= i < |rest| ==> rest[i] == low[i + 1];
  }

  lemma {:induction false} CursorsPastEncrypted(
      os: seq<CoapOption>, outer: seq<CoapOption>, u: nat, inner: seq<CoapOption>, e: nat)
    requires os != [] && IsClassE(os[0].number) && Cursors(os, outer, u, inner, e)
    ensures outer[u].number != os[0].number && e < |inner| && Same(os[0], inner[e])
    ensures Cursors(os[1..], outer, u, inner, e + 1)
  {
    hide Filter;
    var encrypted, rest := Filter(os, Encrypted), Filter(os[1..], Encrypted);
    FilterKinds(os, Low);
    FilterCons(os, Low);
    FilterCons(os, Encrypted);
    if Filter(os, Low) != [] {
      assert Is(Filter(os, Low)[0].number, Low) && Same(Filter(os, Low)[0], outer[u]);
    }
    assert encrypted[0] == os[0];
    assert forall i :: 0 <= i < |rest| ==> rest[i] == encrypted[i + 1];
  }

  /** At a high option both cursors fail: the outer one is stuck at OSCORE. */
  lemma {:induction false} StuckAtHigh(
      number: byte, os: seq<CoapOption>, outer: seq<CoapOption>, u: nat, inner: seq<CoapOption>, e: nat)
    requires os != [] && Ordered(number, os) && IsHigh(os[0].number) && Cursors(os, outer, u, inner, e)
    ensures outer[u].number != os[0].number
    ensures e < |inner| ==> inner[e].number != os[0].number
  {
    HighEndsLow(os[0].number, os[1..]);
    FilterKinds(os, Encrypted);
    if e < |inner| {
      assert Same(Filter(os, Encrypted)[0], inner[e]);
    }
  }

  lemma {:induction false} WalkTakesOuter(
      os: seq<CoapOption>, outer: seq<CoapOption>, u: nat, inner: seq<CoapOption>, e: nat, sum: byte)
    requires os != [] && os[0].number == sum + os[0].delta && u < |outer| && Same(os[0], outer[u])
    ensures Walk(Numbers(os), outer, u, inner, e, sum) ==
            Prepend([os[0]], Walk(Numbers(os[1..]), outer, u + 1, inner, e, os[0].number))
  {
    hide U16;
    RestoredDelta(sum, os[0]);
    assert Numbers(os)[1..] == Numbers(os[1..]);
  }

  lemma {:induction false} WalkTakesInner(
      os: seq<CoapOption>, outer: seq<CoapOption>, u: nat, inner: seq<CoapOption>, e: nat, sum: byte)
    requires os != [] && os[0].number == sum + os[0].delta && u < |outer| && outer[u].number != os[0].number
    requires e < |inner| && Same(os[0], inner[e])
    ensures Walk(Numbers(os), outer, u, inner, e, sum) ==
            Prepend([os[0]], Walk(Numbers(os[1..]), outer, u, inner, e + 1, os[0].number))
  {
    hide U16;
    RestoredDelta(sum, os[0]);
    assert Numbers(os)[1..] == Numbers(os[1..]);
  }

  /** A number that neither cursor shows is lost. */
  lemma {:induction false} WalkLoses(
      os: seq<CoapOption>, outer: seq<CoapOption>, u: nat, inner: seq<CoapOption>, e: nat, sum: byte)
    requires os != [] && u < |outer| && outer[u].number != os[0].number
    requires e < |inner| ==> inner[e].number != os[0].number
    ensures Walk(Numbers(os), outer, u, inner, e, sum) != Ok(os)
  {
  }

  lemma {:induction false} WalkRestores(
      os: seq<CoapOption>, outer: seq<CoapOption>, u: nat, inner: seq<CoapOption>, e: nat, sum: byte)
    requires Ordered(sum, os) && NoOscore(os) && Cursors(os, outer, u, inner, e)
    ensures Walk(Numbers(os), outer, u, inner, e, sum) == Ok(os) <==> NoHigh(os)
    decreases |os|
  {
    if os != [] {
      hide Cursors, IsClassE, IsHigh, IsLow, Walk, Numbers;
      var o, rest := os[0], os[1..];
      assert os == [o] + rest;
      CursorsBound(os, outer, u, inner, e);
      KindOf(o.number);
      if IsHigh(o.number) {
        StuckAtHigh(sum, os, outer, u, inner, e);
        WalkLoses(os, outer, u, inner, e, sum);
      } else if IsLow(o.number) {
        CursorsPastLow(os, outer, u, inner, e);
        WalkTakesOuter(os, outer, u, inner, e, sum);
        WalkRestores(rest, outer, u + 1, inner, e, o.number);
        PrependIff(o, rest, Walk(Numbers(rest), outer, u + 1, inner, e, o.number));
      } else {
        CursorsPastEncrypted(os, outer, u, inner, e);
        WalkTakesInner(os, outer, u, inner, e, sum);
        WalkRestores(rest, outer, u, inner, e + 1, o.number);
        PrependIff(o, rest, Walk(Numbers(rest), outer, u, inner, e + 1, o.number));
      }
    }
  }

  lemma {:induction false} CursorsBound(
      os: seq<CoapOption>, outer: seq<CoapOption>, u: nat, inner: seq<CoapOption>, e: nat)
    requires Cursors(os, outer, u, inner, e)
    ensures u < |outer|
  {
  }

  lemma {:induction false} RestoredDelta(sum: byte, o: CoapOption)
    requires o.number == sum + o.delta
    ensures U16(o.number - sum) == o.delta && U16(sum + o.delta) == o.number
  {
  }

  lemma {:induction false} SameByTags(a: seq<CoapOption>, i: nat, b: seq<CoapOption>, j: nat)
    requires i < |a| && j < |b| && Tags(a)[i] == Tags(b)[j]
    ensures Same(a[i], b[j])
  {
    TagAt(a, i);
    TagAt(b, j);
  }

  lemma {:induction false} InitialCursors(
      os: seq<CoapOption>, outer: seq<CoapOption>, inner: seq<CoapOption>, value: OptionValue)
    requires Tags(outer) == Tags(Filter(os, Low)) + [Tag(OSCORE_NUMBER, value)] + Tags(Filter(os, High))
    requires Tags(inner) == Tags(Filter(os, Encrypted))
    ensures Cursors(os, outer, 0, inner, 0)
  {
    hide Tags, Filter;
    var low, encrypted := Filter(os, Low), Filter(os, Encrypted);
    assert |Tags(outer)| == |outer| && |Tags(inner)| == |inner|;
    assert |Tags(low)| == |low| && |Tags(encrypted)| == |encrypted|;
    forall i | 0 <= i < |low|
      ensures Same(low[i], outer[i])
    {
      SameByTags(low, i, outer, i);
    }
    TagAt(outer, |low|);
    forall i | 0 <= i < |inner|
      ensures Same(encrypted[i], inner[i])
    {
      SameByTags(encrypted, i, inner, i);
    }
  }

  /**
   * Split, insert the OSCORE option, sort and merge: the receiver gets back the same options,
   * in the same order and with the same deltas, exactly when none of them is an unprotected
   * option numbered above OSCORE.
   */
  lemma {:induction false} MergeUndoesSplitIff(os: seq<CoapOption>, value: OptionValue)
    requires Ordered(0, os) && NoOscore(os) && |os| <= MAX_OPTION_COUNT
    ensures WithOscore(Select(os, 0, 0, false), value) != []
    ensures Merge(WithOscore(Select(os, 0, 0, false), value), Select(os, 0, 0, true)) == Ok(os) <==> NoHigh(os)
  {
    hide Select, WithOscore, Walk, Sort, MergeNumbers;
    var outer, inner := WithOscore(Select(os, 0, 0, false), value), Select(os, 0, 0, true);
    OuterTags(os, value);
    SelectEncrypted(os, 0, 0);
    SortedNumbers(os, outer, inner, value);
    InitialCursors(os, outer, inner, value);
    WalkRestores(os, outer, 0, inner, 0, 0);
    assert os == [] ==> NoHigh(os);
  }
}
