/**
 * The ranking step of the group endpoint: `sort.Slice` with "higher score
 * first". Go's `sort.Slice` is not stable, so all that is promised is the
 * order by score and that the entries are rearranged, not changed.
 */
module Ranking {
  import opened Types

  /** Every entry scores at least as high as every entry after it. */
  predicate SortedByScore(s: seq<FrontendImage>) {
    forall k, l :: 0 <= k < l < |s| ==> s[k].item.score >= s[l].item.score
  }

  /** Exchanges the entries at `j - 1` and `j`. */
  method SwapDown(a: array<FrontendImage>, j: nat)
    requires 0 < j < a.Length
    modifies a
    ensures a[j - 1] == old(a[j]) && a[j] == old(a[j - 1])
    ensures forall k :: 0 <= k < a.Length && k != j - 1 && k != j ==> a[k] == old(a[k])
    ensures multiset(a[..]) == multiset(old(a[..]))
  {
    a[j - 1], a[j] := a[j], a[j - 1];
  }

  /** Moves `a[i]` down into the sorted entries before it. */
  method Sink(a: array<FrontendImage>, i: nat)
    requires i < a.Length
    requires SortedByScore(a[..i])
    modifies a
    ensures SortedByScore(a[..i + 1])
    ensures forall k :: i < k < a.Length ==> a[k] == old(a[k])
    ensures multiset(a[..]) == multiset(old(a[..]))
  {
    var j := i;
    while j > 0 && a[j - 1].item.score < a[j].item.score
      invariant 0 <= j <= i
      invariant forall k, l :: 0 <= k < l <= i && k != j && l != j ==> a[k].item.score >= a[l].item.score
      invariant forall l :: j < l <= i ==> a[j].item.score > a[l].item.score
      invariant forall k :: i < k < a.Length ==> a[k] == old(a[k])
      invariant multiset(a[..]) == multiset(old(a[..]))
    {
      SwapDown(a, j);
      j := j - 1;
    }
  }

  /** Sorts descending by score by insertion. */
  method SortByScore(a: array<FrontendImage>)
    modifies a
    ensures SortedByScore(a[..])
    ensures multiset(a[..]) == multiset(old(a[..]))
  {
    var i := 0;
    while i < a.Length
      invariant 0 <= i <= a.Length
      invariant SortedByScore(a[..i])
      invariant multiset(a[..]) == multiset(old(a[..]))
    {
      Sink(a, i);
      assert a[..i + 1][..i] == a[..i];
      i := i + 1;
    }
    assert a[..a.Length] == a[..];
  }
}
