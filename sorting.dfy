/**
 * Newest-first ordering, shared by the listings that sort records by an instant: Prisma's
 * `orderBy: { <instant>: 'desc' }` and the in-place `applications.sort((a, b) => b - a)`.
 */
module Sorting {
  /** `s` is ordered by `key`, largest (newest) first. */
  ghost predicate NewestFirst<T>(s: seq<T>, key: T -> int) {
    forall i, j :: 0 <= i < j < |s| ==> key(s[i]) >= key(s[j])
  }

  /** Sorts `a` in place, newest first; the result is a rearrangement of the original elements. */
  method SortNewestFirst<T>(a: array<T>, key: T -> int)
    modifies a
    ensures NewestFirst(a[..], key)
    ensures multiset(a[..]) == multiset(old(a[..]))
  {
    var i := 0;
    while i < a.Length
      invariant 0 <= i <= a.Length
      invariant NewestFirst(a[..i], key)
      invariant multiset(a[..]) == multiset(old(a[..]))
    {
      Insert(a, key, i);
      i := i + 1;
    }
    assert a[..a.Length] == a[..];
  }

  /**
   * Moves `a[i]` left past every element older than it, so that `a[..i + 1]` becomes ordered;
   * the elements after index `i` stay where they were.
   */
  method Insert<T>(a: array<T>, key: T -> int, i: nat)
    requires i < a.Length
    requires NewestFirst(a[..i], key)
    modifies a
    ensures NewestFirst(a[..i + 1], key)
    ensures multiset(a[..]) == multiset(old(a[..]))
    ensures a[i + 1..] == old(a[i + 1..])
  {
    var j := i;
    while j > 0 && key(a[j - 1]) < key(a[j])
      invariant 0 <= j <= i
      invariant forall p, q :: 0 <= p < q <= i && q != j && p != j ==> key(a[p]) >= key(a[q])
      invariant forall p, q :: 0 <= p < j < q <= i ==> key(a[p]) >= key(a[q])
      invariant forall q :: j < q <= i ==> key(a[j]) >= key(a[q])
      invariant multiset(a[..]) == multiset(old(a[..]))
      invariant forall k :: i < k < a.Length ==> a[k] == old(a[k])
    {
      Swap(a, j - 1, j);
      j := j - 1;
    }
  }

  /** Exchanges two elements of `a`. */
  method Swap<T>(a: array<T>, p: nat, q: nat)
    requires p < q < a.Length
    modifies a
    ensures a[..] == old(a[..])[p := old(a[q])][q := old(a[p])]
    ensures multiset(a[..]) == multiset(old(a[..]))
  {
    a[p], a[q] := a[q], a[p];
  }
}
