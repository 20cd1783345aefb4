/**
 * The hand-written parts of the watershed splitter (`runWs` in
 * src/app/ws-test/page.tsx and scripts/run-ws-headless.js, and the
 * `separateTouching` branch of src/app/page.tsx): the distance threshold,
 * the peak mask, the peak-cleanup decision and the conversion of the
 * watershed label map back into a binary mask. The distance transform, its
 * 8-bit quantisation, the labelling of the peaks and the watershed flood
 * itself are OpenCV's; their results are inputs here.
 */
module Watershed {
  import opened JsNumber
  import opened Wrappers
  import opened Grid
  import Kernel

  /** How the peak threshold is chosen. */
  datatype SplitMode = AlphaMode | AbsoluteMode

  /** `clamp(round((0.02 + alpha * 0.38) * 255), 0, 255)`. */
  function AlphaThreshold(alpha: real): (t: int)
    ensures 0 <= t <= 255
  {
    Clamp(RoundReal((0.02 + alpha * 0.38) * 255.0), 0, 255)
  }

  /**
   * Over the practical range of alpha the threshold sits between 2% and 40%
   * of the 8-bit scale, and it grows with alpha.
   */
  lemma AlphaThresholdRange(alpha: real, beta: real)
    requires 0.0 <= alpha <= beta <= 1.0
    ensures 5 <= AlphaThreshold(alpha) <= AlphaThreshold(beta) <= 102
  {
  }

  /**
   * The test page's threshold: absolute mode uses `dtThreshAbs ?? 100`;
   * alpha mode uses the split strength when it is a number and 0.2 otherwise.
   */
  function PageThreshold(mode: SplitMode, splitStrength: Option<real>, dtThreshAbs: Option<int>): (t: int)
    ensures mode == AlphaMode ==> 0 <= t <= 255
    ensures mode == AbsoluteMode && dtThreshAbs.Some? ==> t == dtThreshAbs.value
  {
    match mode
    case AbsoluteMode => if dtThreshAbs.Some? then dtThreshAbs.value else 100
    case AlphaMode => AlphaThreshold(if splitStrength.Some? then splitStrength.value else 0.2)
  }

  /** JavaScript's `alphaValue || 0` for a possibly undefined number. */
  function OrZero(alphaValue: Option<real>): real
  {
    if alphaValue.Some? && alphaValue.value != 0.0 then alphaValue.value else 0.0
  }

  /**
   * The headless script's threshold: absolute mode uses `dtAbs` as given,
   * alpha mode uses `alphaValue || 0`.
   */
  function HeadlessThreshold(mode: SplitMode, alphaValue: Option<real>, dtAbs: int): (t: int)
    ensures mode == AbsoluteMode ==> t == dtAbs
    ensures mode == AlphaMode ==> 0 <= t <= 255
  {
    match mode
    case AbsoluteMode => dtAbs
    case AlphaMode => AlphaThreshold(OrZero(alphaValue))
  }

  /**
   * The defaults: a missing alpha means 0.2 on the page (threshold 24) but 0
   * in the headless script (threshold `round(5.1) = 5`), as does alpha 0;
   * a missing absolute level means 100 on the page.
   */
  lemma ThresholdDefaults(dtAbs: int)
    ensures PageThreshold(AlphaMode, None, None) == 24
    ensures PageThreshold(AbsoluteMode, None, None) == 100
    ensures HeadlessThreshold(AlphaMode, None, dtAbs) == 5
    ensures HeadlessThreshold(AlphaMode, Some(0.0), dtAbs) == 5
    ensures PageThreshold(AlphaMode, Some(0.0), None) == 5
  {
  }

  /**
   * The peak mask: `dilate` with a 3x3 rectangle, `absdiff` with the
   * original, `threshold(diff, 0, 255, THRESH_BINARY_INV)` (255 where the
   * difference is 0), then `bitwise_and` with `threshold(dist8u, t255)`.
   */
  function PeakMask(dist8u: Grid, t255: int): (peaks: Grid)
    ensures SameShape(dist8u, peaks) && IsMask(peaks)
  {
    var dilated := Dilate3x3(dist8u);
    var diff := AbsDiff(dist8u, dilated);
    var peaks := ThresholdInv(diff, 0);
    var fg := Threshold(dist8u, t255);
    BitwiseAnd(peaks, fg)
  }

  /**
   * A pixel is a peak exactly when its value equals the maximum of its
   * in-bounds 3x3 neighbourhood and exceeds the threshold.
   */
  lemma PeakMaskExact(dist8u: Grid, t255: int, y: int, x: int)
    requires 0 <= y < |dist8u| && 0 <= x < |dist8u[y]|
    ensures PeakMask(dist8u, t255)[y][x] == 255
      <==> dist8u[y][x] == WindowMax(dist8u, y, x) && dist8u[y][x] > t255
  {
  }

  /** Peaks lie inside the distance foreground `dist8u > t255`. */
  lemma PeaksWithinForeground(dist8u: Grid, t255: int)
    ensures SameShape(PeakMask(dist8u, t255), Threshold(dist8u, t255))
    ensures MaskSubset(PeakMask(dist8u, t255), Threshold(dist8u, t255))
  {
    forall y, x | 0 <= y < |dist8u| && 0 <= x < |dist8u[y]|
      ensures PeakMask(dist8u, t255)[y][x] != 0 ==> Threshold(dist8u, t255)[y][x] != 0
    {
      PeakMaskExact(dist8u, t255, y, x);
    }
  }

  /** Raising the threshold can only remove peaks. */
  lemma PeaksShrink(dist8u: Grid, lo: int, hi: int)
    requires lo <= hi
    ensures SameShape(PeakMask(dist8u, hi), PeakMask(dist8u, lo))
    ensures MaskSubset(PeakMask(dist8u, hi), PeakMask(dist8u, lo))
  {
    forall y, x | 0 <= y < |dist8u| && 0 <= x < |dist8u[y]|
      ensures PeakMask(dist8u, hi)[y][x] != 0 ==> PeakMask(dist8u, lo)[y][x] != 0
    {
      PeakMaskExact(dist8u, hi, y, x);
      PeakMaskExact(dist8u, lo, y, x);
    }
  }

  /** What happens to the peak mask before labelling. */
  datatype Cleanup = CopyPeaks | OpenPeaks(size: int)

  /** An opening with a `size` x `size` ellipse when `size >= 3`, else a plain copy. */
  function CleanupFor(size: int): (c: Cleanup)
    ensures c.OpenPeaks? <==> size >= 3
    ensures c.OpenPeaks? ==> c.size == size
  {
    if size >= 3 then OpenPeaks(size) else CopyPeaks
  }

  /** The test page: `pkSize = Math.max(1, peakCleanupSize | 1)`. */
  function PagePeakCleanup(peakCleanupSize: int): (c: Cleanup)
    ensures c.OpenPeaks? ==> c.size % 2 == 1 && c.size >= 3
    ensures c.CopyPeaks? <==> Kernel.KernelSize(peakCleanupSize) == 1
  {
    Kernel.KernelSizeOdd(peakCleanupSize);
    CleanupFor(Kernel.KernelSize(peakCleanupSize))
  }

  /** The headless script: `pk = Math.max(1, ensureOdd(pkSize))`. */
  function HeadlessPeakCleanup(pkSize: int): (c: Cleanup)
    ensures c.OpenPeaks? ==> c.size % 2 == 1 && c.size >= 3
    ensures c.CopyPeaks? <==> Kernel.OddKernelSize(pkSize) == 1
  {
    Kernel.OddSizesFloors(pkSize);
    CleanupFor(Kernel.OddKernelSize(pkSize))
  }

  /** The sweeps' cleanup sizes 1, 3 and 5 mean: copy, open 3x3, open 5x5. */
  lemma SweepCleanupSizes()
    ensures PagePeakCleanup(1) == CopyPeaks && HeadlessPeakCleanup(1) == CopyPeaks
    ensures PagePeakCleanup(3) == OpenPeaks(3) && HeadlessPeakCleanup(3) == OpenPeaks(3)
    ensures PagePeakCleanup(5) == OpenPeaks(5) && HeadlessPeakCleanup(5) == OpenPeaks(5)
    ensures PagePeakCleanup(0) == CopyPeaks && PagePeakCleanup(2) == OpenPeaks(3)
  {
  }

  /**
   * The pixel loop after `cv.watershed`: a fresh 8-bit image that is 255
   * where the label is greater than 1 and 0 elsewhere, so boundaries (-1)
   * and the background labels 0 and 1 become 0.
   */
  method LabelsToMask(markers: array2<int>) returns (separated: array2<int>)
    ensures separated.Length0 == markers.Length0 && separated.Length1 == markers.Length1
    ensures forall y, x :: 0 <= y < markers.Length0 && 0 <= x < markers.Length1 ==>
      (separated[y, x] == 255 <==> markers[y, x] > 1) && (separated[y, x] == 0 <==> markers[y, x] <= 1)
  {
    separated := new int[markers.Length0, markers.Length1];
    var y := 0;
    while y < markers.Length0
      invariant 0 <= y <= markers.Length0
      invariant forall yy, x :: 0 <= yy < y && 0 <= x < markers.Length1 ==>
        separated[yy, x] == (if markers[yy, x] > 1 then 255 else 0)
    {
      var x := 0;
      while x < markers.Length1
        invariant 0 <= x <= markers.Length1
        invariant forall yy, xx :: 0 <= yy < y && 0 <= xx < markers.Length1 ==>
          separated[yy, xx] == (if markers[yy, xx] > 1 then 255 else 0)
        invariant forall xx :: 0 <= xx < x ==>
          separated[y, xx] == (if markers[y, xx] > 1 then 255 else 0)
      {
        var lab := markers[y, x];
        separated[y, x] := if lab > 1 then 255 else 0;
        x := x + 1;
      }
      y := y + 1;
    }
  }

  /** The contents of a 2-D array as a grid. */
  function ToGrid(a: array2<int>): (g: Grid)
    reads a
    ensures IsGrid(g, a.Length0, a.Length1)
    ensures forall y, x :: 0 <= y < a.Length0 && 0 <= x < a.Length1 ==> g[y][x] == a[y, x]
  {
    seq(a.Length0, y requires 0 <= y < a.Length0 reads a =>
      seq(a.Length1, x requires 0 <= x < a.Length1 reads a => a[y, x]))
  }

  /**
   * The test page's post-filter: the label mask ANDed with the opened
   * foreground, so the result is 255 exactly where the label is greater
   * than 1 and the foreground is set, and never leaves the foreground.
   */
  method SeparateWithinForeground(markers: array2<int>, openedMask: Grid) returns (separatedFg: Grid)
    requires IsGrid(openedMask, markers.Length0, markers.Length1) && IsMask(openedMask)
    ensures IsGrid(separatedFg, markers.Length0, markers.Length1) && IsMask(separatedFg)
    ensures forall y, x :: 0 <= y < markers.Length0 && 0 <= x < markers.Length1 ==>
      (separatedFg[y][x] == 255 <==> markers[y, x] > 1 && openedMask[y][x] == 255)
    ensures MaskSubset(separatedFg, openedMask)
  {
    var separated := LabelsToMask(markers);
    var g := ToGrid(separated);
    separatedFg := BitwiseAnd(g, openedMask);
    AndWithinBoth(g, openedMask);
  }
}
