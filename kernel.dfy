/**
 * Kernel-size normalisation. The pages force a size odd with `n | 1`
 * (src/app/page.tsx, src/app/ws-test/page.tsx); the headless script uses
 * its own `ensureOdd`. Both are then floored at 1 (blur, morphology,
 * erosion/dilation, peak cleanup) or at 3 (adaptive block size).
 */
module Kernel {
  import opened JsNumber

  /** `Math.max(1, n | 1)`. */
  function KernelSize(n: int): (k: int)
  {
    Max(1, OrOne(n))
  }

  /** `Math.max(3, n | 1)`. */
  function BlockSize(n: int): (k: int)
  {
    Max(3, OrOne(n))
  }

  /** `ensureOdd(n)` of the headless script: `n % 2 === 0 ? n + 1 : n`. */
  function EnsureOdd(n: int): (r: int)
    ensures r % 2 == 1
    ensures r == n || r == n + 1
  {
    if n % 2 == 0 then n + 1 else n
  }

  /** `Math.max(1, ensureOdd(n))`: the headless blur, morphology and peak sizes. */
  function OddKernelSize(n: int): (k: int)
  {
    Max(1, EnsureOdd(n))
  }

  /** `Math.max(3, ensureOdd(n))`: the headless adaptive block size. */
  function OddBlockSize(n: int): (k: int)
  {
    Max(3, EnsureOdd(n))
  }

  /**
   * A size forced by `Math.max(1, n | 1)` is odd, at least 1, and for a
   * non-negative 32-bit `n` it is `n` itself when `n` is odd and `n + 1`
   * otherwise, so never smaller than `n`.
   */
  lemma KernelSizeOdd(n: int)
    ensures KernelSize(n) % 2 == 1 && KernelSize(n) >= 1
    ensures 0 <= n < TwoTo31 ==> KernelSize(n) == (if n % 2 == 1 then n else n + 1)
    ensures 0 <= n < TwoTo31 ==> KernelSize(n) >= n
  {
  }

  /** A block size forced by `Math.max(3, n | 1)` is odd and at least 3. */
  lemma BlockSizeOdd(n: int)
    ensures BlockSize(n) % 2 == 1 && BlockSize(n) >= 3
    ensures 3 <= n < TwoTo31 ==> BlockSize(n) == (if n % 2 == 1 then n else n + 1)
  {
  }

  /** `ensureOdd` is idempotent and fixes every odd number, negative ones too. */
  lemma EnsureOddIdempotent(n: int)
    ensures EnsureOdd(EnsureOdd(n)) == EnsureOdd(n)
    ensures n % 2 == 1 ==> EnsureOdd(n) == n
  {
  }

  /** The documented values: 4 becomes 5, 5 stays, and -2 becomes -1 (no clamping). */
  lemma EnsureOddExamples()
    ensures EnsureOdd(4) == 5 && EnsureOdd(5) == 5 && EnsureOdd(-2) == -1
  {
  }

  /** The headless sizes are odd with the same floors as the pages' sizes. */
  lemma OddSizesFloors(n: int)
    ensures OddKernelSize(n) % 2 == 1 && OddKernelSize(n) >= 1
    ensures OddBlockSize(n) % 2 == 1 && OddBlockSize(n) >= 3
    ensures n >= 1 ==> OddKernelSize(n) == EnsureOdd(n)
  {
  }

  /**
   * On 32-bit inputs the two normalisations agree: `n | 1 == ensureOdd(n)`,
   * so the page and the headless script pick the same kernel sizes.
   */
  lemma OrOneIsEnsureOdd(n: int)
    requires -TwoTo31 <= n < TwoTo31
    ensures OrOne(n) == EnsureOdd(n)
    ensures KernelSize(n) == OddKernelSize(n) && BlockSize(n) == OddBlockSize(n)
  {
  }
}
