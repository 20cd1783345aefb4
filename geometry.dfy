/**
 * Dish localisation, the square region of interest around the dish and the
 * inner counting circle. The same arithmetic is repeated in
 * src/app/page.tsx (processImage, autoTune), src/app/ws-test/page.tsx
 * (runSweep, countAndPreview) and scripts/run-ws-headless.js.
 */
module Geometry {
  import opened JsNumber

  /** A bounding rectangle as `cv.boundingRect` returns it. */
  datatype Rect = Rect(x: int, y: int, width: nat, height: nat)

  /** The dish: centre and radius in source-image pixels. */
  datatype Dish = Dish(cx: int, cy: int, r: int)

  /** `cv.Rect(roiX, roiY, roiW, roiH)` together with the nominal `roiSize`. */
  datatype Roi = Roi(x: int, y: int, w: int, h: int, size: int)

  /** The inner counting circle in ROI-local coordinates. */
  datatype Circle = Circle(cx: int, cy: int, r: int)

  function Area(rc: Rect): nat { rc.width * rc.height }

  predicate InsideImage(rc: Rect, cols: nat, rows: nat)
  {
    0 <= rc.x && rc.x + rc.width <= cols && 0 <= rc.y && rc.y + rc.height <= rows
  }

  /** The dish used when no contour has a positive bounding-box area. */
  function FallbackDish(cols: nat, rows: nat): (d: Dish)
    ensures 0 <= d.cx <= cols && 0 <= d.cy <= rows
    ensures Min(cols, rows) >= 2 ==> d.r > 0
    ensures 0 <= 2 * d.r <= Min(cols, rows)
  {
    Dish(cols / 2, rows / 2, Min(cols, rows) / 2)
  }

  /**
   * The dish read off one rectangle: centre `x + round(w/2)`, `y + round(h/2)`
   * and radius `round(max(w, h)/2)`.
   */
  function DishOf(rc: Rect): (d: Dish)
    ensures rc.x <= d.cx <= rc.x + rc.width && rc.y <= d.cy <= rc.y + rc.height
    ensures 2 * d.r >= Max(rc.width, rc.height) && d.r >= 0
    ensures Area(rc) > 0 ==> d.r > 0
  {
    Dish(rc.x + Round(rc.width, 2), rc.y + Round(rc.height, 2), Round(Max(rc.width, rc.height), 2))
  }

  /** `k` is the first rectangle of strictly largest positive area. */
  ghost predicate IsFirstLargest(rects: seq<Rect>, k: int)
  {
    && 0 <= k < |rects|
    && Area(rects[k]) > 0
    && (forall j :: 0 <= j < |rects| ==> Area(rects[j]) <= Area(rects[k]))
    && (forall j :: 0 <= j < k ==> Area(rects[j]) < Area(rects[k]))
  }

  /**
   * The dish-selection loop: starting from the image-centre fallback with
   * `maxRectArea = 0`, a rectangle replaces the current dish only when its
   * area is strictly larger, so the first rectangle of maximal positive area
   * wins.
   */
  method LocateDish(cols: nat, rows: nat, rects: seq<Rect>) returns (d: Dish)
    ensures (forall j :: 0 <= j < |rects| ==> Area(rects[j]) == 0) ==> d == FallbackDish(cols, rows)
    ensures (exists j :: 0 <= j < |rects| && Area(rects[j]) > 0) ==>
              exists k :: IsFirstLargest(rects, k) && d == DishOf(rects[k])
    ensures Min(cols, rows) >= 2 ==> d.r > 0
    ensures (forall j :: 0 <= j < |rects| ==> InsideImage(rects[j], cols, rows)) ==>
              0 <= d.cx <= cols && 0 <= d.cy <= rows
  {
    d := FallbackDish(cols, rows);
    var maxRectArea := 0;
    ghost var k := -1;
    var i := 0;
    while i < |rects|
      invariant 0 <= i <= |rects|
      invariant -1 <= k < i
      invariant k == -1 ==> maxRectArea == 0 && d == FallbackDish(cols, rows)
      invariant k == -1 ==> forall j :: 0 <= j < i ==> Area(rects[j]) == 0
      invariant k >= 0 ==> maxRectArea == Area(rects[k]) > 0 && d == DishOf(rects[k])
      invariant k >= 0 ==> forall j :: 0 <= j < i ==> Area(rects[j]) <= maxRectArea
      invariant k >= 0 ==> forall j :: 0 <= j < k ==> Area(rects[j]) < maxRectArea
    {
      var rc := rects[i];
      var areaRect := rc.width * rc.height;
      if areaRect > maxRectArea {
        maxRectArea := areaRect;
        d := Dish(rc.x + Round(rc.width, 2), rc.y + Round(rc.height, 2), Round(Max(rc.width, rc.height), 2));
        k := i;
      }
      i := i + 1;
    }
    if k >= 0 {
      assert IsFirstLargest(rects, k);
    }
  }

  /**
   * The square ROI: side `min(cols, rows, round(dishR * 2 * 1.05))`, origin
   * `max(0, round(c - side/2))` per axis, extent clipped to the image.
   * `dishR * 2 * 1.05` is `21 * dishR / 10`.
   */
  function RoiAround(cols: nat, rows: nat, d: Dish): (roi: Roi)
    ensures roi.size <= cols && roi.size <= rows
    ensures roi.x >= 0 && roi.y >= 0
    ensures roi.w <= roi.size && roi.h <= roi.size
    ensures roi.x + roi.w <= cols && roi.y + roi.h <= rows
    ensures roi.x == Max(0, d.cx - roi.size / 2) && roi.y == Max(0, d.cy - roi.size / 2)
  {
    var size := Min(Min(cols, rows), Round(d.r * 21, 10));
    var x := Max(0, Round(2 * d.cx - size, 2));
    var y := Max(0, Round(2 * d.cy - size, 2));
    Roi(x, y, Min(size, cols - x), Min(size, rows - y), size)
  }

  /**
   * Given a dish whose centre lies in the image and whose radius is not
   * negative (as `LocateDish` guarantees for rectangles inside the image),
   * the ROI rectangle lies inside the image and is not empty-sized: its
   * extents are between 0 and `roiSize`, and it contains the dish centre.
   */
  lemma {:induction false} RoiInsideImage(cols: nat, rows: nat, d: Dish)
    requires 0 <= d.cx <= cols && 0 <= d.cy <= rows && d.r >= 0
    ensures var roi := RoiAround(cols, rows, d);
      && 0 <= roi.size
      && 0 <= roi.w <= roi.size && 0 <= roi.h <= roi.size
      && 0 <= roi.x <= d.cx && 0 <= roi.y <= d.cy
      && roi.x + roi.w <= cols && roi.y + roi.h <= rows
  {
    var roi := RoiAround(cols, rows, d);
    assert Round(d.r * 21, 10) >= 0;
  }

  /** The ROI side is at least the dish diameter unless the image is smaller. */
  lemma RoiCoversDiameter(cols: nat, rows: nat, d: Dish)
    requires d.r >= 0
    ensures RoiAround(cols, rows, d).size >= Min(Min(cols, rows), 2 * d.r)
  {
  }

  /**
   * The inner counting circle: radius `round(dishR * pct / 100)` and centre
   * `round(clamp(dishC - roiOrigin, 0, maskExtent))` on each axis.
   */
  function InnerCircle(d: Dish, roiX: int, roiY: int, maskCols: nat, maskRows: nat, pct: int): (c: Circle)
    ensures 0 <= c.cx <= maskCols && 0 <= c.cy <= maskRows
    ensures 0 <= d.cx - roiX <= maskCols ==> c.cx == d.cx - roiX
    ensures 0 <= d.cy - roiY <= maskRows ==> c.cy == d.cy - roiY
    ensures d.cx - roiX < 0 ==> c.cx == 0
    ensures d.cx - roiX > maskCols ==> c.cx == maskCols
    ensures d.cy - roiY < 0 ==> c.cy == 0
    ensures d.cy - roiY > maskRows ==> c.cy == maskRows
    ensures c.r == Round(d.r * pct, 100)
  {
    Circle(Clamp(d.cx - roiX, 0, maskCols), Clamp(d.cy - roiY, 0, maskRows), Round(d.r * pct, 100))
  }

  /** With a percentage in [0, 100] the counting radius lies between 0 and the dish radius. */
  lemma {:induction false} InnerRadiusBounded(d: Dish, roiX: int, roiY: int, maskCols: nat, maskRows: nat, pct: int)
    requires d.r >= 0 && 0 <= pct <= 100
    ensures 0 <= InnerCircle(d, roiX, roiY, maskCols, maskRows, pct).r <= d.r
  {
    assert 0 <= d.r * pct <= d.r * 100 by {
      MulMonotone(d.r, pct, 100);
    }
  }

  /** A larger percentage never gives a smaller counting radius. */
  lemma {:induction false} InnerRadiusMonotone(r: nat, p: int, q: int)
    requires 0 <= p <= q
    ensures Round(r * p, 100) <= Round(r * q, 100)
  {
    MulMonotone(r, p, q);
  }

  lemma MulMonotone(a: nat, p: int, q: int)
    requires 0 <= p <= q
    ensures 0 <= a * p <= a * q
  {
  }
}
