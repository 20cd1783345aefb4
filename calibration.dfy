/**
 * The channel-A hue calibration at the end of `autoTune` in
 * src/app/page.tsx: collecting the HSV samples under the inner-circle
 * foreground, and turning them into a hue centre, a hue tolerance and
 * saturation/value minima from percentiles of the sorted samples.
 */
module Calibration {
  import opened JsNumber
  import opened Wrappers
  import opened Grid
  import opened HueWindow
  import opened IntSort

  /** A pixel position in the ROI-local sample mask. */
  datatype Point = Point(y: int, x: int)

  /** Row-major order. */
  predicate Before(p: Point, q: Point)
  {
    p.y < q.y || (p.y == q.y && p.x < q.x)
  }

  /** The set cells among the first `n` of row `y`, left to right. */
  function RowPoints(row: seq<int>, y: int, n: nat): seq<Point>
    requires n <= |row|
  {
    if n == 0 then [] else RowPoints(row, y, n - 1) + (if row[n - 1] != 0 then [Point(y, n - 1)] else [])
  }

  /** The set cells of the first `rows` rows of the mask, in row-major order. */
  function MaskPoints(mask: Grid, rows: nat): seq<Point>
    requires rows <= |mask|
  {
    if rows == 0 then []
    else MaskPoints(mask, rows - 1) + RowPoints(mask[rows - 1], rows - 1, |mask[rows - 1]|)
  }

  /** A row contributes exactly its set cells, left to right. */
  lemma {:induction false} RowPointsExact(row: seq<int>, y: int, n: nat)
    requires n <= |row|
    ensures forall i :: 0 <= i < |RowPoints(row, y, n)| ==>
      RowPoints(row, y, n)[i].y == y && 0 <= RowPoints(row, y, n)[i].x < n && row[RowPoints(row, y, n)[i].x] != 0
    ensures forall x :: 0 <= x < n && row[x] != 0 ==> Point(y, x) in RowPoints(row, y, n)
    ensures forall i, j :: 0 <= i < j < |RowPoints(row, y, n)| ==> RowPoints(row, y, n)[i].x < RowPoints(row, y, n)[j].x
  {
    if n > 0 {
      RowPointsExact(row, y, n - 1);
    }
  }

  /**
   * The samples are taken at exactly the set cells of the mask, each once,
   * in row-major order.
   */
  lemma {:induction false} MaskPointsExact(mask: Grid, rows: nat)
    requires rows <= |mask|
    ensures forall i :: 0 <= i < |MaskPoints(mask, rows)| ==>
      var p := MaskPoints(mask, rows)[i]; 0 <= p.y < rows && 0 <= p.x < |mask[p.y]| && mask[p.y][p.x] != 0
    ensures forall y, x :: 0 <= y < rows && 0 <= x < |mask[y]| && mask[y][x] != 0 ==> Point(y, x) in MaskPoints(mask, rows)
    ensures forall i, j :: 0 <= i < j < |MaskPoints(mask, rows)| ==> Before(MaskPoints(mask, rows)[i], MaskPoints(mask, rows)[j])
  {
    if rows > 0 {
      MaskPointsExact(mask, rows - 1);
      RowPointsExact(mask[rows - 1], rows - 1, |mask[rows - 1]|);
    }
  }

  /** The ROI lies inside the HSV image. */
  predicate Fits(mask: Grid, hsv: seq<seq<Hsv>>, roiX: nat, roiY: nat)
  {
    roiY + |mask| <= |hsv| && forall y :: 0 <= y < |mask| ==> roiX + |mask[y]| <= |hsv[roiY + y]|
  }

  /** The HSV pixel of the full image under the ROI-local point `p`. */
  function PixelAt(hsv: seq<seq<Hsv>>, roiX: nat, roiY: nat, mask: Grid, p: Point): Hsv
    requires Fits(mask, hsv, roiX, roiY)
    requires 0 <= p.y < |mask| && 0 <= p.x < |mask[p.y]|
  {
    hsv[roiY + p.y][roiX + p.x]
  }

  /** `hues`, `sats` and `vals` hold the channels of the pixels under `pts`, in order. */
  ghost predicate Sampled(hues: seq<int>, sats: seq<int>, vals: seq<int>, pts: seq<Point>,
                          hsv: seq<seq<Hsv>>, roiX: nat, roiY: nat, mask: Grid)
    requires Fits(mask, hsv, roiX, roiY)
  {
    && |hues| == |pts| && |sats| == |pts| && |vals| == |pts|
    && forall i :: 0 <= i < |pts| ==>
         && 0 <= pts[i].y < |mask| && 0 <= pts[i].x < |mask[pts[i].y]|
         && hues[i] == PixelAt(hsv, roiX, roiY, mask, pts[i]).h
         && sats[i] == PixelAt(hsv, roiX, roiY, mask, pts[i]).s
         && vals[i] == PixelAt(hsv, roiX, roiY, mask, pts[i]).v
  }

  /** Sampling one more set pixel extends the three channel lists by its channels. */
  lemma SampledSnoc(hues: seq<int>, sats: seq<int>, vals: seq<int>, pts: seq<Point>,
                    hsv: seq<seq<Hsv>>, roiX: nat, roiY: nat, mask: Grid, p: Point)
    requires Fits(mask, hsv, roiX, roiY)
    requires Sampled(hues, sats, vals, pts, hsv, roiX, roiY, mask)
    requires 0 <= p.y < |mask| && 0 <= p.x < |mask[p.y]|
    ensures var px := PixelAt(hsv, roiX, roiY, mask, p);
      Sampled(hues + [px.h], sats + [px.s], vals + [px.v], pts + [p], hsv, roiX, roiY, mask)
  {
  }

  /** One more column of row `y`, seen after the points `before`. */
  lemma RowPointsStep(before: seq<Point>, row: seq<int>, y: int, x: nat)
    requires x < |row|
    ensures row[x] == 0 ==> before + RowPoints(row, y, x + 1) == before + RowPoints(row, y, x)
    ensures row[x] != 0 ==> before + RowPoints(row, y, x + 1) == (before + RowPoints(row, y, x)) + [Point(y, x)]
  {
    if row[x] != 0 {
      assert before + (RowPoints(row, y, x) + [Point(y, x)]) == (before + RowPoints(row, y, x)) + [Point(y, x)];
    }
  }

  /** The inner loop: the set pixels of row `y`, left to right. */
  method CollectRow(sampleMask: Grid, hsv: seq<seq<Hsv>>, roiX: nat, roiY: nat, y: nat,
                    hues: seq<int>, sats: seq<int>, vals: seq<int>, nPix: nat, ghost before: seq<Point>)
    returns (hues': seq<int>, sats': seq<int>, vals': seq<int>, nPix': nat)
    requires Fits(sampleMask, hsv, roiX, roiY) && y < |sampleMask|
    requires Sampled(hues, sats, vals, before, hsv, roiX, roiY, sampleMask) && nPix == |hues|
    ensures Sampled(hues', sats', vals', before + RowPoints(sampleMask[y], y, |sampleMask[y]|), hsv, roiX, roiY, sampleMask)
    ensures nPix' == |hues'|
  {
    hues', sats', vals', nPix' := hues, sats, vals, nPix;
    for x := 0 to |sampleMask[y]|
      invariant Sampled(hues', sats', vals', before + RowPoints(sampleMask[y], y, x), hsv, roiX, roiY, sampleMask)
      invariant nPix' == |hues'|
    {
      ghost var done := before + RowPoints(sampleMask[y], y, x);
      RowPointsStep(before, sampleMask[y], y, x);
      if sampleMask[y][x] == 0 {
        continue;
      }
      var gx := roiX + x;
      var gy := roiY + y;
      SampledSnoc(hues', sats', vals', done, hsv, roiX, roiY, sampleMask, Point(y, x));
      hues' := hues' + [hsv[gy][gx].h];
      sats' := sats' + [hsv[gy][gx].s];
      vals' := vals' + [hsv[gy][gx].v];
      nPix' := nPix' + 1;
    }
  }

  /**
   * The sampling loop: every set pixel of the sample mask, in row-major
   * order, contributes its hue, saturation and value, read from the full
   * HSV image at the ROI offset.
   */
  method CollectSamples(sampleMask: Grid, hsv: seq<seq<Hsv>>, roiX: nat, roiY: nat)
    returns (hues: seq<int>, sats: seq<int>, vals: seq<int>, nPix: nat)
    requires Fits(sampleMask, hsv, roiX, roiY)
    ensures Sampled(hues, sats, vals, MaskPoints(sampleMask, |sampleMask|), hsv, roiX, roiY, sampleMask)
    ensures nPix == |hues|
  {
    hues, sats, vals, nPix := [], [], [], 0;
    for y := 0 to |sampleMask|
      invariant Sampled(hues, sats, vals, MaskPoints(sampleMask, y), hsv, roiX, roiY, sampleMask)
      invariant nPix == |hues|
    {
      hues, sats, vals, nPix := CollectRow(sampleMask, hsv, roiX, roiY, y, hues, sats, vals, nPix, MaskPoints(sampleMask, y));
    }
  }

  /** The calibrated channel-A window. */
  datatype HueSettings = HueSettings(center: int, tol: int, sMin: int, vMin: int)

  /** Calibration needs more than this many samples. */
  const MinSamples := 20

  /** `Math.min(len - 1, Math.floor(len * 0.8))`. */
  function P80Index(n: nat): (i: nat)
    requires n > 0
    ensures i < n
  {
    Min(n - 1, (4 * n) / 5)
  }

  /** `Math.min(len - 1, Math.floor(len * 0.2))`. */
  function P20Index(n: nat): (i: nat)
    requires n > 0
    ensures i < n
  {
    Min(n - 1, n / 5)
  }

  /**
   * With more than 20 samples the indices are the plain 80th and 20th
   * percentiles: more than 80% of the samples sit at or below the first,
   * and at least 80% at or above the second.
   */
  lemma PercentileIndices(n: nat)
    requires n > MinSamples
    ensures P80Index(n) == (4 * n) / 5 && P20Index(n) == n / 5
    ensures 5 * (P80Index(n) + 1) > 4 * n
    ensures 5 * (n - P20Index(n)) >= 4 * n
  {
  }

  /**
   * `Math.round(meanTheta / (2 * PI) * 180) % 180` for the scaled circular
   * mean `scaled` in `[0, 180)`, which is computed in floating point.
   */
  function HueCenterOf(scaled: real): (c: int)
    requires 0.0 <= scaled < 180.0
    ensures 0 <= c <= 179
  {
    JsRem(RoundReal(scaled), 180)
  }

  /** `hues.map(h => min(|h - c|, 180 - |h - c|))`. */
  function DistancesTo(hues: seq<int>, center: int): (d: seq<int>)
    ensures |d| == |hues|
    ensures forall i :: 0 <= i < |hues| && 0 <= hues[i] <= 179 && 0 <= center <= 179 ==> 0 <= d[i] <= 90
  {
    seq(|hues|, i requires 0 <= i < |hues| => CircularDistance(hues[i], center))
  }

  /** `max(6, min(40, round(p80 || 10)))`: a zero percentile falls back to 10 before the clamp. */
  function HueTolerance(p80: int): (tol: int)
    ensures 6 <= tol <= 40
    ensures p80 == 0 ==> tol == 10
    ensures p80 != 0 ==> tol == Clamp(p80, 6, 40)
  {
    Max(6, Min(40, JsOr(p80, 10)))
  }

  /** `percentile || 40` for the saturation and value minima. */
  function SvMin(p20: int): (m: int)
    ensures p20 == 0 ==> m == 40
    ensures p20 != 0 ==> m == p20
  {
    JsOr(p20, 40)
  }

  /** The calibration the page applies, from the samples and the scaled circular mean. */
  function CalibrationOf(hues: seq<int>, sats: seq<int>, vals: seq<int>, scaled: real): Option<HueSettings>
    requires |sats| == |hues| && |vals| == |hues|
    requires 0.0 <= scaled < 180.0
  {
    var n := |hues|;
    if n <= MinSamples then None
    else
      var center := HueCenterOf(scaled);
      Some(HueSettings(
        center,
        HueTolerance(SortedOf(DistancesTo(hues, center))[P80Index(n)]),
        SvMin(SortedOf(sats)[P20Index(n)]),
        SvMin(SortedOf(vals)[P20Index(n)])))
  }

  /** A fresh array holding `s`. */
  method ToArray(s: seq<int>) returns (a: array<int>)
    ensures fresh(a) && a[..] == s
  {
    a := new int[|s|](i requires 0 <= i < |s| => s[i]);
  }

  /**
   * The calibration step: nothing with 20 samples or fewer; otherwise the
   * distances to the hue centre and copies of the saturations and values
   * are each sorted in place and read at their percentile index.
   */
  method Calibrate(hues: seq<int>, sats: seq<int>, vals: seq<int>, scaled: real) returns (r: Option<HueSettings>)
    requires |sats| == |hues| && |vals| == |hues|
    requires 0.0 <= scaled < 180.0
    ensures r == CalibrationOf(hues, sats, vals, scaled)
  {
    var nPix := |hues|;
    if nPix <= MinSamples {
      return None;
    }
    var hueCenter := HueCenterOf(scaled);
    var circDist := ToArray(DistancesTo(hues, hueCenter));
    SortAscending(circDist);
    var p80 := circDist[Min(circDist.Length - 1, (4 * circDist.Length) / 5)];
    var hueTol := Max(6, Min(40, JsOr(p80, 10)));
    var sortedS := ToArray(sats);
    SortAscending(sortedS);
    var sortedV := ToArray(vals);
    SortAscending(sortedV);
    var sMin := JsOr(sortedS[Min(sortedS.Length - 1, sortedS.Length / 5)], 40);
    var vMin := JsOr(sortedV[Min(sortedV.Length - 1, sortedV.Length / 5)], 40);
    r := Some(HueSettings(hueCenter, hueTol, sMin, vMin));
  }

  /**
   * Calibration happens exactly when there are more than 20 samples, and
   * then yields a centre on the hue circle and a tolerance in `[6, 40]`;
   * for 8-bit samples the minima are between 1 and 255.
   */
  lemma CalibrationRanges(hues: seq<int>, sats: seq<int>, vals: seq<int>, scaled: real)
    requires |sats| == |hues| && |vals| == |hues|
    requires 0.0 <= scaled < 180.0
    requires forall i :: 0 <= i < |hues| ==> 0 <= sats[i] <= 255 && 0 <= vals[i] <= 255
    ensures CalibrationOf(hues, sats, vals, scaled).None? <==> |hues| <= MinSamples
    ensures CalibrationOf(hues, sats, vals, scaled).Some? ==>
      var c := CalibrationOf(hues, sats, vals, scaled).value;
      0 <= c.center <= 179 && 6 <= c.tol <= 40 && 1 <= c.sMin <= 255 && 1 <= c.vMin <= 255
  {
    var n := |hues|;
    if n > MinSamples {
      var ss := SortedOf(sats);
      var sv := SortedOf(vals);
      assert ss[P20Index(n)] in multiset(sats);
      assert sv[P20Index(n)] in multiset(vals);
    }
  }

  /** In a sorted list every entry up to index `k` is at most the entry at `k`. */
  lemma SortedPrefixAtMost(s: seq<int>, k: nat)
    requires SortedAsc(s) && k < |s|
    ensures forall i :: 0 <= i <= k ==> s[i] <= s[k]
  {
  }

  /** In a sorted list every entry from index `k` on is at least the entry at `k`. */
  lemma SortedSuffixAtLeast(s: seq<int>, k: nat)
    requires SortedAsc(s) && k < |s|
    ensures forall i :: k <= i < |s| ==> s[k] <= s[i]
  {
  }

  /** The fields of a calibration, named. */
  lemma CalibrationFields(hues: seq<int>, sats: seq<int>, vals: seq<int>, scaled: real)
    requires |sats| == |hues| && |vals| == |hues| && |hues| > MinSamples
    requires 0.0 <= scaled < 180.0
    ensures CalibrationOf(hues, sats, vals, scaled).Some?
    ensures var c := CalibrationOf(hues, sats, vals, scaled).value;
      && c.center == HueCenterOf(scaled)
      && c.tol == HueTolerance(SortedOf(DistancesTo(hues, HueCenterOf(scaled)))[P80Index(|hues|)])
      && c.sMin == SvMin(SortedOf(sats)[P20Index(|hues|)])
      && c.vMin == SvMin(SortedOf(vals)[P20Index(|hues|)])
  {
  }

  /**
   * Unless the 80th-percentile distance exceeds the clamp, every sample up
   * to that percentile (more than 80% of them) lies within the calibrated
   * tolerance of the centre.
   */
  lemma {:induction false} ToleranceCoversPercentile(hues: seq<int>, sats: seq<int>, vals: seq<int>, scaled: real)
    requires |sats| == |hues| && |vals| == |hues| && |hues| > MinSamples
    requires 0.0 <= scaled < 180.0
    requires SortedOf(DistancesTo(hues, HueCenterOf(scaled)))[P80Index(|hues|)] <= 40
    ensures var c := CalibrationOf(hues, sats, vals, scaled).value;
      forall i :: 0 <= i <= P80Index(|hues|) ==> SortedOf(DistancesTo(hues, c.center))[i] <= c.tol
  {
    CalibrationFields(hues, sats, vals, scaled);
    SortedPrefixAtMost(SortedOf(DistancesTo(hues, HueCenterOf(scaled))), P80Index(|hues|));
  }

  /**
   * A non-zero 20th-percentile saturation becomes the minimum, and every
   * sample from that percentile up (at least 80% of them) meets it; a zero
   * percentile is replaced by 40.
   */
  lemma SaturationCoversPercentile(hues: seq<int>, sats: seq<int>, vals: seq<int>, scaled: real)
    requires |sats| == |hues| && |vals| == |hues| && |hues| > MinSamples
    requires 0.0 <= scaled < 180.0
    ensures var c := CalibrationOf(hues, sats, vals, scaled).value;
      var p := SortedOf(sats)[P20Index(|hues|)];
      && (p != 0 ==> c.sMin == p && forall i :: P20Index(|hues|) <= i < |hues| ==> SortedOf(sats)[i] >= c.sMin)
      && (p == 0 ==> c.sMin == 40)
  {
    CalibrationFields(hues, sats, vals, scaled);
    SortedSuffixAtLeast(SortedOf(sats), P20Index(|hues|));
  }

  /**
   * The calibrated settings meet the hue window's preconditions, so the
   * resulting channel-A mask accepts a pixel exactly when its hue is within
   * the tolerance on the circle and its saturation and value reach the
   * minima.
   */
  lemma CalibratedWindow(hues: seq<int>, sats: seq<int>, vals: seq<int>, scaled: real, p: Hsv)
    requires |sats| == |hues| && |vals| == |hues| && |hues| > MinSamples
    requires 0.0 <= scaled < 180.0
    requires IsHsvPixel(p)
    ensures var c := CalibrationOf(hues, sats, vals, scaled).value;
      var accepted := MaskValue(HueBands(c.center, c.tol, c.sMin, c.vMin), p) == 255;
      accepted <==> CircularDistance(p.h, c.center) <= c.tol && p.s >= c.sMin && p.v >= c.vMin
  {
    var c := CalibrationOf(hues, sats, vals, scaled).value;
    HueWindowCorrect(c.center, c.tol, c.sMin, c.vMin, p);
  }
}
