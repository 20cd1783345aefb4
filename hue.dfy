/**
 * The circular hue window of the colour-split path (`buildHueMask` in
 * src/app/page.tsx). OpenCV's 8-bit HSV stores hue in 0..179, so hue wraps
 * at 180. A window `center +- tol` that runs past either end becomes the
 * union of two inclusive `inRange` bands.
 */
module HueWindow {
  import opened JsNumber
  import Grid

  /** An 8-bit HSV pixel. */
  datatype Hsv = Hsv(h: int, s: int, v: int)

  /** One `cv.inRange` call: inclusive lower and upper bounds on each channel. */
  datatype Band = Band(lo: Hsv, hi: Hsv)

  predicate IsHsvPixel(p: Hsv)
  {
    0 <= p.h <= 179 && 0 <= p.s <= 255 && 0 <= p.v <= 255
  }

  /** `cv.inRange` for one pixel: inclusive on every channel. */
  predicate InBand(p: Hsv, b: Band)
  {
    b.lo.h <= p.h <= b.hi.h && b.lo.s <= p.s <= b.hi.s && b.lo.v <= p.v <= b.hi.v
  }

  /** Distance on the 180-step hue circle: `min(|a - b|, 180 - |a - b|)`. */
  function CircularDistance(a: int, b: int): (d: int)
    ensures 0 <= a <= 179 && 0 <= b <= 179 ==> 0 <= d <= 90
  {
    var d := if a >= b then a - b else b - a;
    Min(d, 180 - d)
  }

  /**
   * The distance is symmetric and wraps: 170 and 10 are 20 apart, and a
   * hue is 0 from itself.
   */
  lemma CircularDistanceProperties(a: int, b: int)
    ensures CircularDistance(a, b) == CircularDistance(b, a)
    ensures CircularDistance(170, 10) == 20 && CircularDistance(10, 10) == 0
  {
  }

  /**
   * The bands built for a window: when `center - tol < 0` or
   * `center + tol > 179` the low band `[0, (center + tol) % 180]` and the
   * high band `[(center - tol + 180) % 180, 179]`; otherwise the single band
   * `[max(0, center - tol), min(179, center + tol)]`. Saturation and value
   * run from the given minima up to 255.
   */
  function HueBands(center: int, tol: int, sMin: int, vMin: int): (bands: seq<Band>)
    ensures 1 <= |bands| <= 2
    ensures forall i :: 0 <= i < |bands| ==>
      bands[i].lo.s == sMin && bands[i].lo.v == vMin && bands[i].hi.s == 255 && bands[i].hi.v == 255
    ensures forall i :: 0 <= i < |bands| ==> 0 <= bands[i].lo.h && bands[i].hi.h <= 179
  {
    if center - tol < 0 || center + tol > 179 then
      [ Band(Hsv(0, sMin, vMin), Hsv(Max(0, JsRem(center + tol, 180)), 255, 255)),
        Band(Hsv(Max(0, JsRem(center - tol + 180, 180)), sMin, vMin), Hsv(179, 255, 255)) ]
    else
      [ Band(Hsv(Max(0, center - tol), sMin, vMin), Hsv(Min(179, center + tol), 255, 255)) ]
  }

  /** The mask value for one pixel: the OR of the bands' `inRange` results. */
  function MaskValue(bands: seq<Band>, p: Hsv): (m: int)
    ensures Grid.IsMaskValue(m)
    ensures m == 255 <==> exists i :: 0 <= i < |bands| && InBand(p, bands[i])
  {
    if |bands| == 0 then 0
    else Grid.ByteOr(if InBand(p, bands[0]) then 255 else 0, MaskValue(bands[1..], p))
  }

  /**
   * The hue window is what it claims to be: for a centre in 0..179 and a
   * tolerance below 90 (the sliders and the calibration keep it in 0..40),
   * an 8-bit HSV pixel is accepted exactly when its hue is within `tol` of
   * the centre around the hue circle and its saturation and value reach
   * the minima.
   */
  lemma {:induction false} HueWindowCorrect(center: int, tol: int, sMin: int, vMin: int, p: Hsv)
    requires 0 <= center <= 179 && 0 <= tol < 90
    requires IsHsvPixel(p)
    ensures MaskValue(HueBands(center, tol, sMin, vMin), p) == 255
      <==> CircularDistance(p.h, center) <= tol && p.s >= sMin && p.v >= vMin
  {
    var bands := HueBands(center, tol, sMin, vMin);
    var accepted := exists i :: 0 <= i < |bands| && InBand(p, bands[i]);
    if center - tol < 0 || center + tol > 179 {
      assert |bands| == 2;
      if center - tol < 0 {
        assert bands[0].hi.h == center + tol;
        assert bands[1].lo.h == center - tol + 180;
      } else {
        assert bands[0].hi.h == center + tol - 180;
        assert bands[1].lo.h == center - tol;
      }
      assert accepted <==> InBand(p, bands[0]) || InBand(p, bands[1]);
    } else {
      assert |bands| == 1;
      assert accepted <==> InBand(p, bands[0]);
    }
  }

  /** `cv.inRange(hsv, lower, upper, dst)` over a whole image. */
  function InRange(img: seq<seq<Hsv>>, b: Band): (dst: Grid.Grid)
    ensures |dst| == |img| && forall y :: 0 <= y < |img| ==> |dst[y]| == |img[y]|
    ensures Grid.IsMask(dst)
    ensures forall y, x :: 0 <= y < |img| && 0 <= x < |img[y]| ==> (dst[y][x] == 255 <==> InBand(img[y][x], b))
  {
    seq(|img|, y requires 0 <= y < |img| =>
      seq(|img[y]|, x requires 0 <= x < |img[y]| => if InBand(img[y][x], b) then 255 else 0))
  }

  /**
   * `buildHueMask(center, tol, sMin, vMin)` over an HSV image: one `inRange`,
   * or the `bitwise_or` of the low and the high `inRange` when the window
   * wraps.
   */
  function BuildHueMask(img: seq<seq<Hsv>>, center: int, tol: int, sMin: int, vMin: int): (mask: Grid.Grid)
    ensures |mask| == |img| && forall y :: 0 <= y < |img| ==> |mask[y]| == |img[y]|
    ensures Grid.IsMask(mask)
    ensures forall y, x :: 0 <= y < |img| && 0 <= x < |img[y]| ==>
      mask[y][x] == MaskValue(HueBands(center, tol, sMin, vMin), img[y][x])
  {
    var bands := HueBands(center, tol, sMin, vMin);
    if |bands| == 2 then
      var low := InRange(img, bands[0]);
      var high := InRange(img, bands[1]);
      Grid.BitwiseOr(low, high)
    else
      InRange(img, bands[0])
  }

  /** Every pixel of an image built by `BuildHueMask` obeys the circular window. */
  lemma HueMaskPixels(img: seq<seq<Hsv>>, center: int, tol: int, sMin: int, vMin: int, y: int, x: int)
    requires 0 <= center <= 179 && 0 <= tol < 90
    requires 0 <= y < |img| && 0 <= x < |img[y]| && IsHsvPixel(img[y][x])
    ensures var p := img[y][x];
      BuildHueMask(img, center, tol, sMin, vMin)[y][x] == 255
      <==> CircularDistance(p.h, center) <= tol && p.s >= sMin && p.v >= vMin
  {
    HueWindowCorrect(center, tol, sMin, vMin, img[y][x]);
  }
}
