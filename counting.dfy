/**
 * Area-filtered component counting. `cv.connectedComponentsWithStats`
 * returns `n` labels with label 0 the background; the pipeline walks labels
 * `1 .. n-1` and counts those whose pixel area (stats column 4) reaches
 * `minArea`. The labelling itself is an input here: `areas[i]` is the area
 * of label `i` and `|areas|` is `n`.
 */
module Counting {

  /** The labels that survive the area filter. */
  function KeptLabels(areas: seq<int>, minArea: int): (s: set<int>)
    ensures forall i :: i in s <==> 1 <= i < |areas| && areas[i] >= minArea
  {
    set i | 1 <= i < |areas| && areas[i] >= minArea
  }

  /** The kept labels among `1 .. hi-1`. */
  ghost function KeptBelow(areas: seq<int>, minArea: int, hi: int): set<int>
  {
    set i | 1 <= i < hi && 0 <= i < |areas| && areas[i] >= minArea
  }

  /** At most `hi - 1` labels lie in `1 .. hi-1`. */
  lemma {:induction false} KeptBelowBounded(areas: seq<int>, minArea: int, hi: int)
    requires 1 <= hi <= |areas|
    ensures |KeptBelow(areas, minArea, hi)| <= hi - 1
  {
    if hi == 1 {
      assert KeptBelow(areas, minArea, hi) == {};
    } else {
      KeptBelowBounded(areas, minArea, hi - 1);
      assert KeptBelow(areas, minArea, hi) <= KeptBelow(areas, minArea, hi - 1) + {hi - 1};
      SubsetSize(KeptBelow(areas, minArea, hi), KeptBelow(areas, minArea, hi - 1) + {hi - 1});
    }
  }

  /** Label `i` joins the kept labels below `i + 1` exactly when its area reaches `minArea`. */
  lemma KeptBelowStep(areas: seq<int>, minArea: int, i: int)
    requires 1 <= i < |areas|
    ensures KeptBelow(areas, minArea, i + 1)
      == KeptBelow(areas, minArea, i) + (if areas[i] >= minArea then {i} else {})
    ensures i !in KeptBelow(areas, minArea, i)
  {
  }

  lemma SubsetSize<T>(a: set<T>, b: set<T>)
    requires a <= b
    ensures |a| <= |b|
  {
    assert b == a + (b - a);
  }

  /** The loop `for (i = 1; i < n; i++) { if (area < minArea) continue; count++ }`. */
  method CountColonies(areas: seq<int>, minArea: int) returns (count: nat)
    ensures count == |KeptLabels(areas, minArea)|
  {
    count := 0;
    var i := 1;
    while i < |areas|
      invariant 1 <= i
      invariant |areas| >= 1 ==> i <= |areas|
      invariant count == |KeptBelow(areas, minArea, i)|
    {
      var area := areas[i];
      KeptBelowStep(areas, minArea, i);
      if area >= minArea {
        count := count + 1;
      }
      i := i + 1;
    }
    assert KeptBelow(areas, minArea, i) == KeptLabels(areas, minArea);
  }

  /** The count never exceeds the number of non-background labels. */
  lemma {:induction false} CountBounded(areas: seq<int>, minArea: int)
    requires |areas| >= 1
    ensures |KeptLabels(areas, minArea)| <= |areas| - 1
  {
    KeptBelowBounded(areas, minArea, |areas|);
    assert KeptBelow(areas, minArea, |areas|) == KeptLabels(areas, minArea);
  }

  /** Raising `minArea` can only lower the count. */
  lemma {:induction false} CountMonotone(areas: seq<int>, lo: int, hi: int)
    requires lo <= hi
    ensures KeptLabels(areas, hi) <= KeptLabels(areas, lo)
    ensures |KeptLabels(areas, hi)| <= |KeptLabels(areas, lo)|
  {
    SubsetSize(KeptLabels(areas, hi), KeptLabels(areas, lo));
  }

  /**
   * The colour-split count: the same filter over the A and over the B
   * labelling, and the reported total `aCount + bCount`.
   */
  method CountColourClasses(areasA: seq<int>, areasB: seq<int>, minArea: int)
    returns (aCount: nat, bCount: nat, total: nat)
    ensures aCount == |KeptLabels(areasA, minArea)|
    ensures bCount == |KeptLabels(areasB, minArea)|
    ensures total == aCount + bCount
  {
    aCount := CountColonies(areasA, minArea);
    bCount := CountColonies(areasB, minArea);
    total := aCount + bCount;
  }

  /** The fixed `minArea` of the watershed test page. */
  const PreviewMinArea: int := 93

  /** The kept labels among `1 .. hi-1`, in increasing order: the list the preview loop builds. */
  function KeptSeq(areas: seq<int>, minArea: int, hi: nat): seq<int>
  {
    if hi <= 1 then []
    else KeptSeq(areas, minArea, hi - 1) + (if hi - 1 < |areas| && areas[hi - 1] >= minArea then [hi - 1] else [])
  }

  /** The list holds exactly the kept labels below `hi`. */
  lemma {:induction false} KeptSeqMembers(areas: seq<int>, minArea: int, hi: nat)
    ensures forall j :: j in KeptSeq(areas, minArea, hi) <==> 1 <= j < hi && j < |areas| && areas[j] >= minArea
  {
    if hi > 1 {
      KeptSeqMembers(areas, minArea, hi - 1);
    }
  }

  /** The list is strictly increasing, so it holds each label once. */
  lemma {:induction false} KeptSeqIncreasing(areas: seq<int>, minArea: int, hi: nat)
    ensures forall j, k :: 0 <= j < k < |KeptSeq(areas, minArea, hi)| ==> KeptSeq(areas, minArea, hi)[j] < KeptSeq(areas, minArea, hi)[k]
  {
    if hi > 1 {
      var prev := KeptSeq(areas, minArea, hi - 1);
      var cur := KeptSeq(areas, minArea, hi);
      KeptSeqIncreasing(areas, minArea, hi - 1);
      KeptSeqMembers(areas, minArea, hi - 1);
      if cur != prev {
        assert cur == prev + [hi - 1];
        forall j, k | 0 <= j < k < |cur|
          ensures cur[j] < cur[k]
        {
          assert cur[j] == prev[j];
          if k == |prev| {
            assert prev[j] in prev;
          } else {
            assert cur[k] == prev[k];
          }
        }
      }
    }
  }

  /** The list is as long as the set of kept labels below `hi` is large. */
  lemma {:induction false} KeptSeqLength(areas: seq<int>, minArea: int, hi: nat)
    ensures |KeptSeq(areas, minArea, hi)| == |KeptBelow(areas, minArea, hi)|
  {
    if hi > 1 {
      KeptSeqLength(areas, minArea, hi - 1);
      if hi - 1 < |areas| {
        KeptBelowStep(areas, minArea, hi - 1);
      } else {
        assert KeptBelow(areas, minArea, hi) == KeptBelow(areas, minArea, hi - 1);
      }
    } else {
      assert KeptBelow(areas, minArea, hi) == {};
    }
  }

  /**
   * `countAndPreview`'s label collection: `idxs` gathers, in increasing
   * order, every label `1 .. n-1` with area at least 93, and the reported
   * count is `idxs.length`.
   */
  method CountAndPreview(areas: seq<int>) returns (idxs: seq<int>, count: nat)
    ensures forall i :: i in idxs <==> 1 <= i < |areas| && areas[i] >= PreviewMinArea
    ensures forall j, k :: 0 <= j < k < |idxs| ==> idxs[j] < idxs[k]
    ensures count == |idxs| == |KeptLabels(areas, PreviewMinArea)|
  {
    idxs := [];
    var i := 1;
    while i < |areas|
      invariant 1 <= i
      invariant |areas| >= 1 ==> i <= |areas|
      invariant idxs == KeptSeq(areas, PreviewMinArea, i)
    {
      if areas[i] >= PreviewMinArea {
        idxs := idxs + [i];
      }
      i := i + 1;
    }
    KeptSeqMembers(areas, PreviewMinArea, i);
    KeptSeqIncreasing(areas, PreviewMinArea, i);
    KeptSeqLength(areas, PreviewMinArea, i);
    assert KeptBelow(areas, PreviewMinArea, i) == KeptLabels(areas, PreviewMinArea);
    count := |idxs|;
  }
}
