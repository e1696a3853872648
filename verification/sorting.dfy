/** Ascending order on timestamps, and the in-place sort Python's list.sort() performs. */
module Sorting {

  predicate Sorted(s: seq<int>)
  {
    forall i, j | 0 <= i < j < |s| :: s[i] <= s[j]
  }

  predicate StrictlyIncreasing(s: seq<int>)
  {
    forall i, j | 0 <= i < j < |s| :: s[i] < s[j]
  }

  predicate Distinct(s: seq<int>)
  {
    forall i, j | 0 <= i < j < |s| :: s[i] != s[j]
  }

  /** Exchanges two adjacent elements of a. */
  method SwapAdjacent(a: array<int>, j: int)
    requires 0 < j < a.Length
    modifies a
    ensures a[j - 1] == old(a[j]) && a[j] == old(a[j - 1])
    ensures forall k | 0 <= k < a.Length && k != j - 1 && k != j :: a[k] == old(a[k])
    ensures multiset(a[..]) == old(multiset(a[..]))
  {
    a[j - 1], a[j] := a[j], a[j - 1];
  }

  /** Sorts a in place, ascending; the elements are only rearranged. */
  method InsertionSort(a: array<int>)
    modifies a
    ensures Sorted(a[..])
    ensures multiset(a[..]) == old(multiset(a[..]))
  {
    var i := 0;
    while i < a.Length
      invariant 0 <= i <= a.Length
      invariant forall p, q | 0 <= p < q < i :: a[p] <= a[q]
      invariant multiset(a[..]) == old(multiset(a[..]))
    {
      var j := i;
      while j > 0 && a[j - 1] > a[j]
        invariant 0 <= j <= i
        invariant forall p, q | 0 <= p < q <= i && q != j :: a[p] <= a[q]
        invariant 0 < j < i ==> a[j - 1] <= a[j + 1]
        invariant multiset(a[..]) == old(multiset(a[..]))
      {
        SwapAdjacent(a, j);
        j := j - 1;
      }
      i := i + 1;
    }
  }

  /** An element that occurs once in a sequence of distinct elements occurs exactly once. */
  lemma {:induction false} DistinctCounts(s: seq<int>, x: int)
    requires Distinct(s)
    ensures multiset(s)[x] <= 1
  {
    if s != [] {
      var t := s[1..];
      assert s == [s[0]] + t;
      assert Distinct(t);
      DistinctCounts(t, x);
      if x == s[0] {
        assert x !in t;
        assert multiset(t)[x] == 0;
      }
    }
  }

  /** A sorted rearrangement of distinct elements increases strictly. */
  lemma SortedDistinctIncreases(s: seq<int>, t: seq<int>)
    requires Sorted(s) && Distinct(t) && multiset(s) == multiset(t)
    ensures StrictlyIncreasing(s)
  {
    forall i, j | 0 <= i < j < |s|
      ensures s[i] < s[j]
    {
      RepeatCounts(s, i, j);
      DistinctCounts(t, s[i]);
    }
  }

  /** An element found at two positions occurs at least twice. */
  lemma RepeatCounts(s: seq<int>, i: int, j: int)
    requires 0 <= i < j < |s|
    ensures s[i] == s[j] ==> multiset(s)[s[i]] >= 2
  {
    var x, before, after := s[i], s[..j], s[j..];
    assert s == before + after;
    assert before[i] == s[i] && after[0] == s[j];
    assert s[i] in multiset(before);
    assert s[j] in multiset(after);
  }

  /** The first element of a sorted rearrangement is the least element of the original. */
  lemma SortedHeadIsLeast(s: seq<int>, t: seq<int>)
    requires Sorted(s) && multiset(s) == multiset(t) && |s| > 0
    ensures s[0] in t && forall x | x in t :: s[0] <= x
  {
    assert s[0] in multiset(s);
    forall x | x in t
      ensures s[0] <= x
    {
      assert x in multiset(s);
    }
  }
}
