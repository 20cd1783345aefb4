/**
 * Single-channel images as row-major grids, and the simple OpenCV
 * primitives the pipeline composes by hand: binary threshold, absolute
 * difference, `bitwise_and`/`bitwise_or` on 8-bit values and the 3x3
 * rectangular dilation (a maximum filter that ignores cells outside the
 * image).
 */
module Grid {
  import opened JsNumber

  type Grid = seq<seq<int>>

  /** `g` is a `rows` x `cols` rectangle. */
  predicate IsGrid(g: Grid, rows: nat, cols: nat)
  {
    |g| == rows && forall y :: 0 <= y < |g| ==> |g[y]| == cols
  }

  predicate SameShape(a: Grid, b: Grid)
  {
    |a| == |b| && forall y :: 0 <= y < |a| ==> |a[y]| == |b[y]|
  }

  predicate IsByteGrid(g: Grid)
  {
    forall y, x :: 0 <= y < |g| && 0 <= x < |g[y]| ==> 0 <= g[y][x] <= 255
  }

  /** A binary mask: every cell is 0 or 255. */
  predicate IsMask(g: Grid)
  {
    forall y, x :: 0 <= y < |g| && 0 <= x < |g[y]| ==> g[y][x] == 0 || g[y][x] == 255
  }

  /** Every set cell of `a` is set in `b`. */
  predicate MaskSubset(a: Grid, b: Grid)
    requires SameShape(a, b)
  {
    forall y, x :: 0 <= y < |a| && 0 <= x < |a[y]| && a[y][x] != 0 ==> b[y][x] != 0
  }

  /** A value of a binary mask. */
  predicate IsMaskValue(a: int) { a == 0 || a == 255 }

  /** Bitwise AND of two mask values (0 and 255 are the only byte values masks hold). */
  function ByteAnd(a: int, b: int): (r: int)
    requires IsMaskValue(a) && IsMaskValue(b)
    ensures IsMaskValue(r)
    ensures r == 255 <==> a == 255 && b == 255
  {
    if a == 0 then 0 else b
  }

  /** Bitwise OR of two mask values. */
  function ByteOr(a: int, b: int): (r: int)
    requires IsMaskValue(a) && IsMaskValue(b)
    ensures IsMaskValue(r)
    ensures r == 255 <==> a == 255 || b == 255
  {
    if a == 0 then b else 255
  }

  /** `cv.threshold(src, dst, t, 255, THRESH_BINARY)`: 255 where `src > t`. */
  function Threshold(src: Grid, t: int): (dst: Grid)
    ensures SameShape(src, dst) && IsMask(dst)
    ensures forall y, x :: 0 <= y < |src| && 0 <= x < |src[y]| ==> (dst[y][x] == 255 <==> src[y][x] > t)
  {
    seq(|src|, y requires 0 <= y < |src| =>
      seq(|src[y]|, x requires 0 <= x < |src[y]| => if src[y][x] > t then 255 else 0))
  }

  /** `cv.threshold(src, dst, t, 255, THRESH_BINARY_INV)`: 255 where `src <= t`. */
  function ThresholdInv(src: Grid, t: int): (dst: Grid)
    ensures SameShape(src, dst) && IsMask(dst)
    ensures forall y, x :: 0 <= y < |src| && 0 <= x < |src[y]| ==> (dst[y][x] == 255 <==> src[y][x] <= t)
  {
    seq(|src|, y requires 0 <= y < |src| =>
      seq(|src[y]|, x requires 0 <= x < |src[y]| => if src[y][x] <= t then 255 else 0))
  }

  /** `cv.absdiff(a, b, dst)`. */
  function AbsDiff(a: Grid, b: Grid): (dst: Grid)
    requires SameShape(a, b)
    ensures SameShape(a, dst)
    ensures forall y, x :: 0 <= y < |a| && 0 <= x < |a[y]| ==>
      dst[y][x] >= 0 && (dst[y][x] == 0 <==> a[y][x] == b[y][x])
  {
    seq(|a|, y requires 0 <= y < |a| =>
      seq(|a[y]|, x requires 0 <= x < |a[y]| =>
        if a[y][x] >= b[y][x] then a[y][x] - b[y][x] else b[y][x] - a[y][x]))
  }

  /** `cv.bitwise_and(a, b, dst)` on binary masks. */
  function BitwiseAnd(a: Grid, b: Grid): (dst: Grid)
    requires SameShape(a, b) && IsMask(a) && IsMask(b)
    ensures SameShape(a, dst) && IsMask(dst)
    ensures forall y, x :: 0 <= y < |a| && 0 <= x < |a[y]| ==> dst[y][x] == ByteAnd(a[y][x], b[y][x])
  {
    seq(|a|, y requires 0 <= y < |a| =>
      seq(|a[y]|, x requires 0 <= x < |a[y]| => ByteAnd(a[y][x], b[y][x])))
  }

  /** `cv.bitwise_or(a, b, dst)` on binary masks. */
  function BitwiseOr(a: Grid, b: Grid): (dst: Grid)
    requires SameShape(a, b) && IsMask(a) && IsMask(b)
    ensures SameShape(a, dst) && IsMask(dst)
    ensures forall y, x :: 0 <= y < |a| && 0 <= x < |a[y]| ==> dst[y][x] == ByteOr(a[y][x], b[y][x])
  {
    seq(|a|, y requires 0 <= y < |a| =>
      seq(|a[y]|, x requires 0 <= x < |a[y]| => ByteOr(a[y][x], b[y][x])))
  }

  /** The AND of two masks lies inside each of them. */
  lemma AndWithinBoth(a: Grid, b: Grid)
    requires SameShape(a, b) && IsMask(a) && IsMask(b)
    ensures MaskSubset(BitwiseAnd(a, b), a) && MaskSubset(BitwiseAnd(a, b), b)
  {
  }

  /** The value at `(y, x)` if that cell is in the image, else `dflt`. */
  function CellOr(g: Grid, y: int, x: int, dflt: int): int
  {
    if 0 <= y < |g| && 0 <= x < |g[y]| then g[y][x] else dflt
  }

  predicate InBounds(g: Grid, y: int, x: int)
  {
    0 <= y < |g| && 0 <= x < |g[y]|
  }

  /** `(ny, nx)` is one of the nine cells of the 3x3 window around `(y, x)`. */
  predicate InWindow(y: int, x: int, ny: int, nx: int)
  {
    y - 1 <= ny <= y + 1 && x - 1 <= nx <= x + 1
  }

  /**
   * The maximum of the in-bounds cells of the 3x3 window around `(y, x)`.
   * A cell outside the image contributes the centre value, which never
   * changes the maximum.
   */
  function WindowMax(g: Grid, y: int, x: int): (m: int)
    requires InBounds(g, y, x)
    ensures forall ny, nx :: InWindow(y, x, ny, nx) && InBounds(g, ny, nx) ==> g[ny][nx] <= m
    ensures exists ny, nx :: InWindow(y, x, ny, nx) && InBounds(g, ny, nx) && g[ny][nx] == m
    ensures m >= g[y][x]
  {
    var c := g[y][x];
    var top := Max(Max(CellOr(g, y - 1, x - 1, c), CellOr(g, y - 1, x, c)), CellOr(g, y - 1, x + 1, c));
    var mid := Max(Max(CellOr(g, y, x - 1, c), c), CellOr(g, y, x + 1, c));
    var bot := Max(Max(CellOr(g, y + 1, x - 1, c), CellOr(g, y + 1, x, c)), CellOr(g, y + 1, x + 1, c));
    var m := Max(Max(top, mid), bot);
    assert forall ny, nx :: InWindow(y, x, ny, nx) ==>
      ny == y - 1 || ny == y || ny == y + 1;
    m
  }

  /** `cv.dilate(src, dst, 3x3 rectangle)` with the default border (ignored). */
  function Dilate3x3(g: Grid): (dst: Grid)
    ensures SameShape(g, dst)
    ensures forall y, x :: 0 <= y < |g| && 0 <= x < |g[y]| ==> dst[y][x] == WindowMax(g, y, x)
  {
    seq(|g|, y requires 0 <= y < |g| =>
      seq(|g[y]|, x requires 0 <= x < |g[y]| => WindowMax(g, y, x)))
  }
}
