/** Ascending sequences of numbers: insertion, sorting, and the in-place exchange sort of the merge. */
module Sorting {
  import opened Common

  ghost predicate Ascending(s: seq<int>) {
    forall i, j :: 0 <= i < j < |s| ==> s[i] <= s[j]
  }

  function SortedInsert(s: seq<int>, n: int): (r: seq<int>)
    ensures |r| == |s| + 1
    ensures multiset(r) == multiset(s) + multiset{n}
  {
    if s == [] then [n]
    else if n <= s[0] then
      [n] + s
    else
      assert s == [s[0]] + s[1..];
      [s[0]] + SortedInsert(s[1..], n)
  }

  lemma {:induction false} SortedInsertBound(s: seq<int>, n: int, bound: int)
    requires bound <= n && forall i :: 0 <= i < |s| ==> bound <= s[i]
    ensures forall i :: 0 <= i < |s| + 1 ==> bound <= SortedInsert(s, n)[i]
  {
    if s != [] && n > s[0] {
      SortedInsertBound(s[1..], n, bound);
    }
  }

  lemma {:induction false} SortedInsertAscending(s: seq<int>, n: int)
    requires Ascending(s)
    ensures Ascending(SortedInsert(s, n))
  {
    if s != [] && n > s[0] {
      SortedInsertAscending(s[1..], n);
      SortedInsertBound(s[1..], n, s[0]);
    }
  }

  function Sort(s: seq<int>): (r: seq<int>)
    ensures |r| == |s| && multiset(r) == multiset(s)
  {
    if s == [] then []
    else
      assert s == [s[0]] + s[1..];
      SortedInsert(Sort(s[1..]), s[0])
  }

  lemma {:induction false} SortAscending(s: seq<int>)
    ensures Ascending(Sort(s))
  {
    if s != [] {
      SortAscending(s[1..]);
      SortedInsertAscending(Sort(s[1..]), s[0]);
    }
  }

  /** Ascending sequences with the same elements are equal. */
  lemma {:induction false} AscendingUnique(a: seq<int>, b: seq<int>)
    requires Ascending(a) && Ascending(b) && multiset(a) == multiset(b)
    ensures a == b
  {
    if a == [] {
      assert |multiset(b)| == 0;
    } else {
      assert |multiset(a)| == |a| && |multiset(b)| == |b|;
      FirstIsLeast(a, b);
      FirstIsLeast(b, a);
      assert a == [a[0]] + a[1..] && b == [b[0]] + b[1..];
      assert multiset(a[1..]) == multiset(a) - multiset{a[0]};
      assert multiset(b[1..]) == multiset(b) - multiset{b[0]};
      AscendingUnique(a[1..], b[1..]);
    }
  }

  lemma {:induction false} FirstIsLeast(a: seq<int>, b: seq<int>)
    requires a != [] && b != [] && Ascending(a) && multiset(a) == multiset(b)
    ensures a[0] <= b[0]
  {
    assert b[0] in multiset(b);
    assert b[0] in a;
  }

  /** An ascending rearrangement is the sorted sequence. */
  lemma {:induction false} AscendingIsSort(a: seq<int>, s: seq<int>)
    requires Ascending(a) && multiset(a) == multiset(s)
    ensures a == Sort(s)
  {
    SortAscending(s);
    AscendingUnique(a, Sort(s));
  }

  method Exchange(a: array<byte>, i: nat, k: nat)
    requires i < k < a.Length
    modifies a
    ensures a[..] == old(a[..])[i := old(a[k])][k := old(a[i])]
    ensures multiset(a[..]) == old(multiset(a[..]))
  {
    var temp := a[i];
    a[i] := a[k];
    a[k] := temp;
  }

  /** The first i slots hold the i least numbers in order, and slot i the least of slots i..k. */
  ghost predicate SortedUpTo(s: seq<int>, i: nat, k: nat)
    requires i < k <= |s|
  {
    && (forall x, y :: 0 <= x < i && x < y < |s| ==> s[x] <= s[y])
    && (forall y :: i < y < k ==> s[i] <= s[y])
  }

  lemma {:induction false} ExchangeStep(s: seq<int>, i: nat, k: nat)
    requires i < k < |s| && SortedUpTo(s, i, k)
    ensures s[i] <= s[k] ==> SortedUpTo(s, i, k + 1)
    ensures s[i] > s[k] ==> SortedUpTo(s[i := s[k]][k := s[i]], i, k + 1)
  {
  }

  /** The inner loop: slot i receives the least of the slots from i on. */
  method SettleSlot(a: array<byte>, i: nat)
    requires i < a.Length && SortedUpTo(a[..], i, i + 1)
    modifies a
    ensures multiset(a[..]) == old(multiset(a[..])) && SortedUpTo(a[..], i, a.Length)
  {
    hide SortedUpTo;
    for k := i + 1 to a.Length
      invariant multiset(a[..]) == old(multiset(a[..]))
      invariant SortedUpTo(a[..], i, k)
    {
      ExchangeStep(a[..], i, k);
      if a[i] > a[k] {
        Exchange(a, i, k);
      }
    }
  }

  /** The exchange sort over the option numbers, in place. */
  method SortInPlace(a: array<byte>)
    modifies a
    ensures a[..] == Sort(old(a[..]))
  {
    for i := 0 to a.Length
      invariant multiset(a[..]) == old(multiset(a[..]))
      invariant forall x, y :: 0 <= x < i && x < y < a.Length ==> a[x] <= a[y]
    {
      SettleSlot(a, i);
    }
    hide Sort;
    AscendingIsSort(a[..], old(a[..]));
  }
}
