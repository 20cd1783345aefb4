/**
 * Ascending numeric sort of the sample arrays (`.sort((a, b) => a - b)` in
 * src/app/page.tsx): the sorted sequence defined independently by
 * insertion, and the proof that the in-place sort produces exactly it.
 */
module IntSort {
  import opened Sorting

  predicate SortedAsc(s: seq<int>)
  {
    forall i, j :: 0 <= i < j < |s| ==> s[i] <= s[j]
  }

  /** `x` inserted before the first element not smaller than it. */
  function Insert(x: int, s: seq<int>): (r: seq<int>)
    requires SortedAsc(s)
    ensures SortedAsc(r)
    ensures multiset(r) == multiset(s) + multiset{x}
    ensures |r| == |s| + 1
    ensures r[0] == (if |s| == 0 || x <= s[0] then x else s[0])
  {
    if |s| == 0 then [x]
    else if x <= s[0] then [x] + s
    else
      var rest := Insert(x, s[1..]);
      assert s == [s[0]] + s[1..];
      [s[0]] + rest
  }

  /** The sorted version of `s`. */
  function SortedOf(s: seq<int>): (r: seq<int>)
    ensures SortedAsc(r)
    ensures multiset(r) == multiset(s)
    ensures |r| == |s|
  {
    if |s| == 0 then []
    else
      assert s == s[..|s| - 1] + [s[|s| - 1]];
      Insert(s[|s| - 1], SortedOf(s[..|s| - 1]))
  }

  /** The head of a sorted sequence is not larger than any of its elements. */
  lemma HeadIsLeast(s: seq<int>, v: int)
    requires SortedAsc(s) && v in multiset(s)
    ensures |s| > 0 && s[0] <= v
  {
    var i :| 0 <= i < |s| && s[i] == v;
  }

  lemma TailSorted(s: seq<int>)
    requires SortedAsc(s) && |s| > 0
    ensures SortedAsc(s[1..])
    ensures multiset(s[1..]) == multiset(s) - multiset{s[0]}
  {
    assert s == [s[0]] + s[1..];
  }

  /** Two sorted sequences with the same non-empty contents start with the same, least, element. */
  lemma HeadsEqual(a: seq<int>, b: seq<int>)
    requires SortedAsc(a) && SortedAsc(b)
    requires multiset(a) == multiset(b) && |a| > 0
    ensures |b| > 0 && a[0] == b[0]
  {
    assert a[0] in multiset(a);
    HeadIsLeast(b, a[0]);
    assert b[0] in multiset(b);
    HeadIsLeast(a, b[0]);
  }

  /** Two sorted sequences with the same elements are equal. */
  lemma {:induction false} SortedUnique(a: seq<int>, b: seq<int>)
    requires SortedAsc(a) && SortedAsc(b)
    requires multiset(a) == multiset(b)
    ensures a == b
  {
    if |a| == 0 {
      assert |multiset(b)| == 0;
    } else {
      HeadsEqual(a, b);
      TailSorted(a);
      TailSorted(b);
      SortedUnique(a[1..], b[1..]);
      assert a == [a[0]] + a[1..] && b == [b[0]] + b[1..];
    }
  }

  function Identity(x: int): int
  {
    x
  }

  /** In-place ascending sort: afterwards `a` holds the sorted version of its old contents. */
  method SortAscending(a: array<int>)
    modifies a
    ensures a[..] == SortedOf(old(a[..]))
  {
    SortBy(a, Identity);
    assert forall i, j :: 0 <= i < j < a.Length ==> Identity(a[..][i]) <= Identity(a[..][j]);
    SortedUnique(a[..], SortedOf(old(a[..])));
  }
}
