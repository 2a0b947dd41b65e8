/** In-place sorting under a total preorder, as `Vec::sort_by` does with a comparator
    (src-tauri/src/lib.rs:143-150, 196, 291-297). */
module Sorting {
  /** `le` compares every pair and is transitive. */
  ghost predicate TotalPreorder<T(!new)>(le: (T, T) -> bool)
  {
    && (forall x, y :: le(x, y) || le(y, x))
    && (forall x, y, z :: le(x, y) && le(y, z) ==> le(x, z))
  }

  /** Every element is `le` every later one. */
  predicate SortedBy<T>(s: seq<T>, le: (T, T) -> bool)
  {
    forall i, j :: 0 <= i < j < |s| ==> le(s[i], s[j])
  }

  /** Insertion sort by adjacent swaps. */
  method SortBy<T(!new)>(a: array<T>, le: (T, T) -> bool)
    requires TotalPreorder(le)
    modifies a
    ensures SortedBy(a[..], le)
    ensures multiset(a[..]) == multiset(old(a[..]))
  {
    var i := 0;
    while i < a.Length
      invariant 0 <= i <= a.Length
      invariant forall k, l :: 0 <= k < l < i ==> le(a[k], a[l])
      invariant multiset(a[..]) == multiset(old(a[..]))
    {
      Insert(a, i, le);
      i := i + 1;
    }
    assert a[..] == a[..a.Length];
  }

  /** Sinks `a[i]` into the sorted prefix `a[..i]`, leaving `a[..i + 1]` sorted. */
  method Insert<T(!new)>(a: array<T>, i: nat, le: (T, T) -> bool)
    requires TotalPreorder(le)
    requires i < a.Length
    requires forall k, l :: 0 <= k < l < i ==> le(a[k], a[l])
    modifies a
    ensures forall k, l :: 0 <= k < l <= i ==> le(a[k], a[l])
    ensures multiset(a[..]) == multiset(old(a[..]))
  {
    var j := i;
    while j > 0 && !le(a[j - 1], a[j])
      invariant 0 <= j <= i
      invariant forall k, l :: 0 <= k < l <= i && k != j && l != j ==> le(a[k], a[l])
      invariant forall l :: j < l <= i ==> le(a[j], a[l])
      invariant multiset(a[..]) == multiset(old(a[..]))
    {
      a[j - 1], a[j] := a[j], a[j - 1];
      j := j - 1;
    }
    forall k | 0 <= k < j ensures le(a[k], a[j]) {
      if k < j - 1 {
        assert le(a[k], a[j - 1]);
      }
    }
  }
}
