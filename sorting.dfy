/**
 * The in-place sort behind `Array.prototype.sort` with a numeric
 * comparator `(a, b) => key(a) - key(b)`: afterwards the array holds the
 * same elements with non-decreasing keys. Ties may come out in any order
 * here, so stability is not relied on.
 */
module Sorting {

  /** Non-decreasing by `key`. */
  predicate SortedBy<T>(s: seq<T>, key: T -> int)
  {
    forall i, j :: 0 <= i < j < |s| ==> key(s[i]) <= key(s[j])
  }

  /** Sorted up to `hi`, except that `s[j]` may have a smaller key than the elements before it. */
  ghost predicate SortedBut<T>(s: seq<T>, key: T -> int, j: int, hi: int)
    requires 0 <= j <= hi < |s|
  {
    && (forall p, q :: 0 <= p < q <= hi && p != j && q != j ==> key(s[p]) <= key(s[q]))
    && (forall q :: j < q <= hi ==> key(s[j]) < key(s[q]))
  }

  /** Exchanges `a[j - 1]` and `a[j]`. */
  method Swap<T>(a: array<T>, j: int)
    requires 0 < j < a.Length
    modifies a
    ensures a[..] == old(a[..])[j - 1 := old(a[j])][j := old(a[j - 1])]
    ensures multiset(a[..]) == multiset(old(a[..]))
  {
    a[j - 1], a[j] := a[j], a[j - 1];
  }

  /** Moves `a[hi]` down past every element before it with a larger key. */
  method InsertDown<T>(a: array<T>, key: T -> int, hi: int)
    requires 0 < hi < a.Length
    requires SortedBy(a[..hi], key)
    modifies a
    ensures SortedBy(a[..hi + 1], key)
    ensures multiset(a[..]) == multiset(old(a[..]))
  {
    var j := hi;
    while j > 0 && key(a[j - 1]) > key(a[j])
      invariant 0 <= j <= hi
      invariant SortedBut(a[..], key, j, hi)
      invariant multiset(a[..]) == multiset(old(a[..]))
    {
      Swap(a, j);
      j := j - 1;
    }
  }

  /** Insertion sort in place: a permutation of the old contents, sorted by `key`. */
  method SortBy<T>(a: array<T>, key: T -> int)
    modifies a
    ensures SortedBy(a[..], key)
    ensures multiset(a[..]) == multiset(old(a[..]))
  {
    if a.Length == 0 {
      return;
    }
    var i := 1;
    while i < a.Length
      invariant 1 <= i <= a.Length
      invariant SortedBy(a[..i], key)
      invariant multiset(a[..]) == multiset(old(a[..]))
    {
      InsertDown(a, key, i);
      i := i + 1;
    }
    assert a[..i] == a[..];
  }
}
