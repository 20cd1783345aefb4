/**
 * The integer semantics of the few JavaScript number operations the
 * pipeline applies by hand: `Math.round`, `Math.min`/`Math.max`, the
 * truncating remainder `%`, and the 32-bit conversion behind `n | 1`.
 */
module JsNumber {

  function Min(a: int, b: int): int { if a <= b then a else b }
  function Max(a: int, b: int): int { if a >= b then a else b }

  /** `Math.min(hi, Math.max(lo, v))`, the `clamp` helper of the sources. */
  function Clamp(v: int, lo: int, hi: int): (r: int)
    requires lo <= hi
    ensures lo <= r <= hi
    ensures lo <= v <= hi ==> r == v
    ensures v < lo ==> r == lo
    ensures v > hi ==> r == hi
  {
    Min(hi, Max(lo, v))
  }

  /**
   * `Math.round(num / den)` for a positive integer denominator: the nearest
   * integer, halves rounded up (towards +infinity).
   */
  function Round(num: int, den: int): (r: int)
    requires den > 0
    ensures 2 * den * r <= 2 * num + den < 2 * den * (r + 1)
  {
    (2 * num + den) / (2 * den)
  }

  /** `Math.round(x)` on an exactly represented real value. */
  function RoundReal(x: real): (r: int)
    ensures r as real <= x + 0.5 < r as real + 1.0
  {
    (x + 0.5).Floor
  }

  /** JavaScript's `a % b` for `b > 0`: the remainder takes the sign of `a`. */
  function JsRem(a: int, b: int): (r: int)
    requires b > 0
    ensures a >= 0 ==> r == a % b
    ensures a < 0 ==> -b < r <= 0
  {
    if a >= 0 then a % b else -((-a) % b)
  }

  const TwoTo31: int := 0x8000_0000
  const TwoTo32: int := 0x1_0000_0000

  /** ECMAScript ToInt32: the operand of every bitwise operator. */
  function ToInt32(n: int): (r: int)
    ensures -TwoTo31 <= r < TwoTo31
    ensures (n - r) % TwoTo32 == 0
    ensures -TwoTo31 <= n < TwoTo31 ==> r == n
  {
    var m := n % TwoTo32;
    if m >= TwoTo31 then m - TwoTo32 else m
  }

  /**
   * `n | 1`: in two's complement, setting bit 0 of the 32-bit value turns an
   * even value into the next odd one and leaves an odd value alone.
   */
  function OrOne(n: int): (r: int)
    ensures r % 2 == 1
    ensures -TwoTo31 <= r < TwoTo31
    ensures r == ToInt32(n) || r == ToInt32(n) + 1
  {
    var m := ToInt32(n);
    if m % 2 == 0 then m + 1 else m
  }

  /** `x || d` on a number: the default `d` replaces a 0. */
  function JsOr(x: int, d: int): (r: int)
    ensures x != 0 ==> r == x
    ensures x == 0 ==> r == d
  {
    if x != 0 then x else d
  }
}
