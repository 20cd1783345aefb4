# Bacteria colony counting: the integer bookkeeping around OpenCV.js

This project models the hand-written logic of a browser app that counts
bacterial colonies in photos of Petri dishes. It also covers the app's two
watershed parameter sweeps. The image operators themselves come from
OpenCV.js: blur, Canny edges, contours, thresholds, morphology, distance
transform, connected components and watershed. In this model their outputs
are inputs. What is modelled and proved is the code the authors wrote around
those operators:

- **Kernel sizes.** `Math.max(1, n | 1)`, `Math.max(3, n | 1)` and the
  headless `ensureOdd`: sizes are always odd, with a floor of 1 or 3, and the
  two normalisations agree on 32-bit inputs (module `Kernel`, over the
  JavaScript number semantics in `JsNumber`).
- **Dish, ROI and inner circle.** The dish is read off the first strictly
  largest bounding rectangle, or an image-centre fallback. From it come the
  square region of interest (ROI) around the dish and the inner counting
  circle (module `Geometry`).
- **Colour-split hue window.** The window wraps around OpenCV's 0..179 hue
  circle. A pixel is accepted exactly when its circular hue distance is
  within the tolerance (module `HueWindow`, over the mask grids of `Grid`).
- **Area-filtered counting.** Labels `1 .. n-1` with area at least
  `minArea` are counted, both singly and per colour class (module
  `Counting`).
- **Watershed glue.** The distance threshold, the regional-maximum peak
  mask, the peak-cleanup choice, and the label-to-mask conversion of the
  watershed result (module `Watershed`).
- **Parameter search.** The auto-tuner's grid search and seed-size search
  keep the first candidate of strictly maximal count. The winner is then
  written back into the page settings (module `AutoTune`).
- **Colour calibration.** Sampling the masked pixels in row-major order,
  then the percentile-based hue tolerance and saturation/value minima
  (module `Calibration`, with the ascending sort of `IntSort`).
- **The two watershed sweeps.** These are the five nested loops of the test
  page and of the headless script. One record is pushed per combination,
  the test page reports progress, and both sort by count; the headless
  script then prints the runs that beat the baseline (modules `Sweep`,
  `WsTest`, `Headless`, with the generic in-place insertion sort of
  `Sorting` and the list helpers of `Seqs`).

Where the source loops over pixels, labels or parameters, the model is a
method with a loop, proved against a function that specifies it. Where the
source only computes values, the model is a function with lemmas.

## Model

| member | source | states |
|---|---|---|
| JsNumber.Clamp | scripts/run-ws-headless.js:57 | the result lies in `[lo, hi]`, equals `v` inside, and equals the violated bound outside |
| JsNumber.Round | src/app/page.tsx:560-562 | `Math.round(num/den)` is the nearest integer with halves rounded up: `2den*r <= 2num+den < 2den*(r+1)` |
| JsNumber.RoundReal | src/app/ws-test/page.tsx:226 | `Math.round(x)` is the integer `r` with `r <= x + 0.5 < r + 1` |
| JsNumber.JsRem | src/app/page.tsx:688-689 | JavaScript `%` with a positive divisor: Euclidean for non-negative operands, in `(-b, 0]` for negative ones |
| JsNumber.ToInt32 | src/app/page.tsx:541 | the 32-bit operand of a bitwise OR: in the signed 32-bit range, congruent to `n` mod 2^32, and `n` itself when it fits |
| JsNumber.OrOne | src/app/page.tsx:541 | `n OR 1` (bitwise) is odd, 32-bit, and equals `ToInt32(n)` or `ToInt32(n) + 1` |
| JsNumber.JsOr | src/app/page.tsx:320 | the default `x OR d` on a number is `x` unless `x` is 0, and then `d` |
| Kernel.EnsureOdd | scripts/run-ws-headless.js:58 | `ensureOdd(n)` is odd and equals `n` or `n + 1` |
| Kernel.KernelSizeOdd | src/app/page.tsx:541 | `Math.max(1, n OR 1)` is odd and at least 1; for non-negative 32-bit `n` it is `n` if odd, else `n + 1`, so never below `n` |
| Kernel.BlockSizeOdd | src/app/page.tsx:586 | `Math.max(3, n OR 1)` is odd and at least 3, and is `n` or `n + 1` for 32-bit `n >= 3` |
| Kernel.EnsureOddIdempotent | scripts/run-ws-headless.js:58 | `ensureOdd` is idempotent and fixes every odd number |
| Kernel.EnsureOddExamples | scripts/run-ws-headless.js:58 | 4 becomes 5, 5 stays 5, -2 becomes -1 (negative sizes are not clamped by `ensureOdd` itself) |
| Kernel.OddSizesFloors | scripts/run-ws-headless.js:82 | the headless blur/morph/peak sizes are odd and at least 1, its block size odd and at least 3 |
| Kernel.OrOneIsEnsureOdd | scripts/run-ws-headless.js:58 | on 32-bit inputs bitwise `n OR 1` equals `ensureOdd(n)`, so the pages and the headless script choose the same kernel and block sizes |
| Geometry.FallbackDish | src/app/page.tsx:550-552 | the image-centre dish lies in the image, its diameter fits the shorter side, and its radius is positive once the image is at least 2 pixels |
| Geometry.DishOf | src/app/page.tsx:560-562 | the dish read off a rectangle is centred inside it, its diameter covers the longer side, and its radius is positive for a non-empty rectangle |
| Geometry.LocateDish | src/app/page.tsx:550-565 | no rectangle of positive area gives the fallback; otherwise the dish of the first rectangle of strictly largest area; the radius is positive on images of at least 2 pixels, and the centre is in the image when the rectangles are |
| Geometry.RoiAround | src/app/page.tsx:576-581 | the ROI side is at most the image's sides, its origin is `max(0, centre - side/2)` per axis, and its clipped extent stays in the image |
| Geometry.RoiInsideImage | src/app/page.tsx:576-581 | for a located dish the ROI rectangle has extents in `[0, roiSize]`, starts at or before the dish centre on each axis, and lies in the image |
| Geometry.RoiCoversDiameter | src/app/page.tsx:576 | the ROI side is at least the dish diameter, unless the image is smaller |
| Geometry.InnerCircle | src/app/page.tsx:669-671 | the inner circle's centre is clamped into the mask and equals the ROI-local dish centre when that lies in the mask |
| Geometry.InnerRadiusBounded | src/app/page.tsx:669 | with a percentage in `[0, 100]` the counting radius lies between 0 and the dish radius |
| Geometry.InnerRadiusMonotone | src/app/page.tsx:669 | a larger effective-radius percentage never gives a smaller counting radius |
| Grid.Threshold | src/app/ws-test/page.tsx:228 | `THRESH_BINARY` at 255: a 0/255 mask of the same shape, 255 exactly where the source exceeds `t` |
| Grid.ThresholdInv | src/app/ws-test/page.tsx:223 | `THRESH_BINARY_INV`: 255 exactly where the source is at most `t` |
| Grid.AbsDiff | src/app/ws-test/page.tsx:221 | the cell-wise absolute difference, same shape |
| Grid.BitwiseAnd | src/app/ws-test/page.tsx:229 | a 0/255 mask that is 255 exactly where both operands are 255 |
| Grid.BitwiseOr | src/app/page.tsx:693 | a 0/255 mask that is 255 exactly where either operand is 255 |
| Grid.AndWithinBoth | src/app/ws-test/page.tsx:259 | the AND of two masks lies inside each of them |
| Grid.WindowMax | src/app/ws-test/page.tsx:217-219 | the maximum over the in-bounds 3x3 window: an upper bound of the window, attained in it, and at least the centre |
| Grid.Dilate3x3 | src/app/ws-test/page.tsx:217-219 | dilation with a 3x3 rectangle puts each cell's window maximum in place |
| HueWindow.CircularDistance | src/app/page.tsx:459-461 | the distance on the 180-step hue circle lies in `[0, 90]` for hues in 0..179 |
| HueWindow.CircularDistanceProperties | src/app/page.tsx:459-461 | the distance is symmetric and wraps (170 and 10 are 20 apart) |
| HueWindow.HueBands | src/app/page.tsx:684-704 | one band, or two when the window crosses 0 or 179; each band's hue range lies in 0..179 and its S/V ranges run from the minima to 255 |
| HueWindow.MaskValue | src/app/page.tsx:691-693 | the pixel is 255 exactly when some band accepts it |
| HueWindow.HueWindowCorrect | src/app/page.tsx:681-707 | for a centre in 0..179 and tolerance below 90, a pixel is accepted exactly when its circular hue distance is at most `tol` and S, V reach the minima |
| HueWindow.InRange | src/app/page.tsx:703 | `inRange` gives a same-shape 0/255 mask, 255 exactly on the pixels inside the band |
| HueWindow.BuildHueMask | src/app/page.tsx:681-707 | every pixel of the built mask is the OR of the bands' results |
| HueWindow.HueMaskPixels | src/app/page.tsx:681-717 | every pixel of the mask obeys the circular window |
| Counting.KeptLabels | src/app/page.tsx:809-814 | a label is kept exactly when it lies in `1 .. n-1` (not the background) and its area reaches `minArea` |
| Counting.CountColonies | src/app/page.tsx:809-814 | the loop's count is the number of kept labels |
| Counting.CountBounded | src/app/page.tsx:809-814 | the count never exceeds the number of non-background labels |
| Counting.CountMonotone | src/app/page.tsx:809-814 | raising `minArea` keeps a subset of the labels, so never raises the count |
| Counting.CountColourClasses | src/app/page.tsx:747-767 | A and B counts are each the kept labels of their own labelling, and the total is their sum |
| Counting.KeptSeqMembers | src/app/ws-test/page.tsx:137-141 | after the loop has reached `hi`, a label is in `idxs` exactly when it is in `1 .. hi-1` and its area reaches the minimum |
| Counting.KeptSeqIncreasing | src/app/ws-test/page.tsx:137-141 | the labels are pushed in strictly increasing order |
| Counting.KeptSeqLength | src/app/ws-test/page.tsx:137-141 | `idxs` has as many entries as there are kept labels |
| Counting.CountAndPreview | src/app/ws-test/page.tsx:136-142 | `idxs` holds exactly the labels with area at least 93, in increasing order, and the count is their number |
| Watershed.AlphaThreshold | src/app/ws-test/page.tsx:226 | the alpha threshold `round((0.02 + 0.38 alpha) * 255)` clamped to `[0, 255]` |
| Watershed.AlphaThresholdRange | src/app/ws-test/page.tsx:226 | for alpha in `[0, 1]` the threshold lies in `[5, 102]` and grows with alpha |
| Watershed.PageThreshold | src/app/ws-test/page.tsx:225-226 | absolute mode uses the given level (default 100), alpha mode yields a level in `[0, 255]` |
| Watershed.HeadlessThreshold | scripts/run-ws-headless.js:186 | absolute mode uses `dtAbs` as given, alpha mode yields a level in `[0, 255]` |
| Watershed.ThresholdDefaults | src/app/ws-test/page.tsx:225-226 | a missing alpha is 0.2 on the page (level 24) but 0 in the script (level 5); a missing absolute level is 100 |
| Watershed.PeakMask | src/app/ws-test/page.tsx:216-229 | the peak mask is a 0/255 mask of the distance image's shape |
| Watershed.PeakMaskExact | src/app/ws-test/page.tsx:216-229 | a pixel is a peak exactly when it equals its 3x3 neighbourhood maximum and exceeds the threshold |
| Watershed.PeaksWithinForeground | src/app/ws-test/page.tsx:227-229 | peaks lie inside the distance foreground |
| Watershed.PeaksShrink | src/app/ws-test/page.tsx:226-229 | raising the threshold only removes peaks |
| Watershed.CleanupFor | src/app/ws-test/page.tsx:233-239 | the peaks are opened with a `size`-wide ellipse exactly when `size >= 3`, else copied |
| Watershed.PagePeakCleanup | src/app/ws-test/page.tsx:231-239 | an opening size is odd and at least 3; copying happens exactly when the forced size is 1 |
| Watershed.HeadlessPeakCleanup | scripts/run-ws-headless.js:190-198 | the same for the script's `ensureOdd` size |
| Watershed.SweepCleanupSizes | src/app/ws-test/page.tsx:188 | the swept sizes 1, 3, 5 mean copy, open 3x3, open 5x5 in both sweeps |
| Watershed.LabelsToMask | src/app/ws-test/page.tsx:249-256 | the new mask has the label map's shape and is 255 exactly where the label exceeds 1, 0 on boundaries and background |
| Watershed.SeparateWithinForeground | src/app/ws-test/page.tsx:249-259 | the separated mask is 255 exactly where the label exceeds 1 and the foreground is set, so it lies inside the foreground |
| Sorting.SortBy | src/app/ws-test/page.tsx:318 | the in-place sort leaves a permutation of the array sorted by the key |
| Sweep.IdOf | src/app/ws-test/page.tsx:287 | alpha runs get ids starting with `a`, absolute runs ids starting with `t` |
| Sweep.IdInjective | src/app/ws-test/page.tsx:287-303 | different parameter sets get different ids |
| Sweep.SweepOrderLength | src/app/ws-test/page.tsx:189 | the loops visit the product of the list lengths, with the alphas and absolute levels added, as `totalCombos` says |
| Sweep.TotalCombos | src/app/ws-test/page.tsx:189 | the `totalCombos` product equals the number of combinations the loops visit |
| Sweep.SweepOrderDistinct | src/app/ws-test/page.tsx:280-315 | with duplicate-free lists no combination is visited twice and all ids differ |
| Sweep.SortRecords | src/app/ws-test/page.tsx:318 | `sort((a, b) => b.count - a.count)` yields the same records by non-increasing count |
| WsTest.FixedBlockSize | src/app/ws-test/page.tsx:107 | the base block `Math.max(3, 33 OR 1)` is 33 |
| WsTest.ProgressMarks | src/app/ws-test/page.tsx:292-296 | reported values are in `1..n`, strictly increasing, each a multiple of 25 or the total |
| WsTest.ProgressClosedForm | src/app/ws-test/page.tsx:292-311 | the reports are 25, 50, ... and finally the total if it is not a multiple of 25 |
| WsTest.ProgressEndsAtTotal | src/app/ws-test/page.tsx:293 | with a positive total the last report is the total |
| WsTest.ListsDistinct | src/app/ws-test/page.tsx:181-188 | none of the page's five sweep lists repeats a value |
| WsTest.SweepConstants | src/app/ws-test/page.tsx:181-189 | `totalCombos` is 108 and the loops visit 108 distinct combinations |
| WsTest.ProgressAt108 | src/app/ws-test/page.tsx:292-296 | with 108 combinations progress is reported at 25, 50, 75, 100 and 108 |
| WsTest.RunSweep | src/app/ws-test/page.tsx:280-318 | the results are a permutation of one record per combination in loop order, sorted by non-increasing count, and the reports are the progress marks of the total |
| Headless.FixedSizes | scripts/run-ws-headless.js:82 | blur 7, morphology 5 and block 33 survive `ensureOdd` unchanged |
| Headless.ListsDistinct | scripts/run-ws-headless.js:40-44 | none of the script's five sweep lists repeats a value |
| Headless.SweepConstants | scripts/run-ws-headless.js:40-44 | the product formula gives 324 and the loops visit 324 distinct combinations |
| Headless.RunSweep | scripts/run-ws-headless.js:220-239 | the results are a permutation of one record per combination in loop order, sorted by non-increasing count |
| Headless.AboveMembers | scripts/run-ws-headless.js:255 | the filter keeps exactly the runs whose count beats the baseline |
| Headless.Improved | scripts/run-ws-headless.js:255 | at most 15 runs are printed, each a result that beats the baseline |
| Headless.AboveSortedIsPrefix | scripts/run-ws-headless.js:239-255 | on sorted results the improving runs are a prefix and everything after it is at most the baseline |
| Headless.ImprovedIsTop | scripts/run-ws-headless.js:239-265 | the printed runs are the first `min(15, k)` results; no omitted improving run counts more than the last printed one |
| AutoTune.BlockList | src/app/page.tsx:277 | Otsu tries `[0]`, an adaptive mode its own blocks or `[17]` |
| AutoTune.CList | src/app/page.tsx:278 | Otsu tries `[0]`, an adaptive mode its own Cs or `[-4]` |
| AutoTune.RecordAsWritten | src/app/page.tsx:320 | the recorded best as the source writes it: block defaulting to 17 and C to -4 when 0 |
| AutoTune.RecordOf | src/app/page.tsx:319-321 | the recorded best keeps an adaptive candidate's C (see Findings) and the candidate's other settings |
| AutoTune.SelectBest | src/app/page.tsx:94-321 | for any record builder that keeps the count: no candidates leave `{count: -1, current settings}`; otherwise the stored best is the record of the first candidate of maximal count |
| AutoTune.SelectBestAsWritten | src/app/page.tsx:94-321 | the search as the page runs it stores `RecordAsWritten` of the first candidate of maximal count, so an adaptive winner with C = 0 is applied with C = -4 |
| AutoTune.SelectBestIntended | src/app/page.tsx:94-321 | the corrected search stores `RecordOf` of the first candidate of maximal count, so an adaptive winner is applied with exactly the settings it was evaluated with |
| AutoTune.SelectSeeds | src/app/page.tsx:181-205 | no pairs keep the current sizes; otherwise the first erode/dilate pair of maximal A+B count |
| AutoTune.SeedOrderPairs | src/app/page.tsx:181-185 | the seed loops try every erode size with every dilate size, and no other pair |
| AutoTune.SearchSeeds | src/app/page.tsx:181-205 | over the page's sizes the first pair of maximal A+B count wins; it is a tried pair and its sizes are already odd |
| AutoTune.Apply | src/app/page.tsx:503-510 | blur, morphology, mode and inversion are written back; block and C only for adaptive modes |
| AutoTune.ApplyRoundTrip | src/app/page.tsx:503-510 | an adaptive winner is applied exactly as evaluated, so processing uses the same block size |
| AutoTune.ApplyOtsuKeepsAdaptive | src/app/page.tsx:505-508 | an Otsu winner leaves the adaptive block and C unchanged |
| AutoTune.ZeroCIsTried | src/app/page.tsx:86-93 | adaptive mean with block 11 and C 0 is among the searched candidates |
| AutoTune.ZeroCRecordedAsMinusFour | src/app/page.tsx:320 | as written, that winner is applied with C = -4; the corrected record applies C = 0 |
| AutoTune.TriedSizesAreOdd | src/app/page.tsx:181-187 | the tried erode, dilate, blur and morphology sizes are already odd, so forcing them odd changes nothing |
| IntSort.Insert | src/app/page.tsx:462 | insertion into a sorted list keeps it sorted and adds exactly the element |
| IntSort.SortedOf | src/app/page.tsx:462 | the reference sort: sorted, a permutation, same length |
| IntSort.SortedUnique | src/app/page.tsx:462 | two sorted permutations of one list are equal |
| IntSort.SortAscending | src/app/page.tsx:467-468 | `.sort((a, b) => a - b)` in place yields exactly `SortedOf` of the old contents |
| Calibration.RowPointsExact | src/app/page.tsx:426-427 | a row contributes exactly its set cells, left to right |
| Calibration.MaskPointsExact | src/app/page.tsx:425-427 | the sampled points are exactly the set mask cells, in row-major order |
| Calibration.CollectRow | src/app/page.tsx:426-441 | the inner loop appends the channels of the row's set pixels and counts them |
| Calibration.CollectSamples | src/app/page.tsx:421-442 | hue, saturation and value lists hold the channels at the ROI offset of every set mask pixel, in row-major order; `nPix` is their number |
| Calibration.P80Index | src/app/page.tsx:463 | the 80th-percentile index lies in the list |
| Calibration.P20Index | src/app/page.tsx:469 | the 20th-percentile index lies in the list |
| Calibration.PercentileIndices | src/app/page.tsx:463-470 | the indices are `floor(4n/5)` and `floor(n/5)`; more than 80% of entries lie at or below the first and at least 80% at or above the second |
| Calibration.HueCenterOf | src/app/page.tsx:455 | the hue centre lies in 0..179 |
| Calibration.DistancesTo | src/app/page.tsx:458-462 | one circular distance per hue, each in `[0, 90]` |
| Calibration.HueTolerance | src/app/page.tsx:463-464 | the tolerance is in `[6, 40]`: 10 for a zero percentile, else the percentile clamped |
| Calibration.SvMin | src/app/page.tsx:469-470 | the minimum is the percentile, or 40 when it is 0 |
| Calibration.Calibrate | src/app/page.tsx:444-470 | the in-place sorts and percentile reads yield exactly `CalibrationOf` |
| Calibration.CalibrationRanges | src/app/page.tsx:444-480 | calibration happens exactly with more than 20 samples; centre in 0..179, tolerance in `[6, 40]`, minima in `[1, 255]` |
| Calibration.ToleranceCoversPercentile | src/app/page.tsx:457-464 | unless clamped, every distance up to the 80th percentile is within the tolerance |
| Calibration.SaturationCoversPercentile | src/app/page.tsx:466-469 | a non-zero 20th-percentile saturation becomes the minimum and every sample from it up meets it; zero becomes 40 |
| Calibration.CalibratedWindow | src/app/page.tsx:476-480 | the calibrated settings give a channel-A mask accepting exactly the pixels within the circular window |

## Left out

- OpenCV operators are not modelled; their results are inputs. This covers
  grey/HSV conversion, Gaussian blur, Canny, `findContours` and
  `boundingRect`, Otsu and adaptive thresholds, ellipse morphology (opening,
  erosion, dilation), `distanceTransform` and `normalize`,
  `connectedComponentsWithStats` and `watershed`. Component areas are a
  `seq<int>`, label maps an `array2<int>`, and the 8-bit distance image a
  grid.
- The quantisation `round(v * 255)` of the float distance image is left out
  (floating point). The 8-bit result is the input of `Watershed.PeakMask`.
- The circular mean of the hues (`atan2` of cosine and sine sums) is left
  out. `Calibration.HueCenterOf` takes the already scaled mean in
  `[0, 180)`. The representative RGB averages and their hex rendering are
  also left out.
- The page's watershed branch erodes the distance image with a
  `minDistance` ellipse instead of the test page's regional-maximum peaks.
  Only its kernel size (`Kernel.KernelSizeOdd`) and its label-to-mask loop
  (`Watershed.LabelsToMask`) are modelled.
- Circle rasterisation (`cv.circle`) is not modelled. The inner mask is
  described by its centre and radius (`Geometry.InnerCircle`), and the
  counting works on the already masked labelling.
- Run ids are kept as their components (`Sweep.RunId`). The decimal text
  rendering of numbers in the id string is not modelled.
- `Array.prototype.sort` is modelled by an insertion sort. Stability and the
  engine's actual algorithm are not captured. The contracts state only
  sortedness and permutation, so the order among runs of equal count is not
  modelled. That order decides which tied runs the headless script prints
  in its top 15 (scripts/run-ws-headless.js:255), since the engine's stable
  sort keeps them in loop order.
- React state, rendering, canvases, previews and `console.log` are not
  modelled. This includes colour parsing, marker drawing, the Playwright
  launch, file I/O and the `/api/ws-report` route. Progress reports are a
  returned list.
- The auto-tuner's nested loops (`blur > mode > block > C > inv > morph`,
  and `erode > dilate`) are flattened into candidate lists built in the same
  order (`AutoTune.TuneOrder`, `AutoTune.SeedOrder`). Each candidate's
  component areas come from a function parameter standing for the OpenCV
  pipeline.
- Each loop level of the watershed sweeps is a method of its own
  (`WsTest.RunModes`, `RunPks`, `RunMasks`, and the same in `Headless`). The
  loop structure and the order of the pushed records are the source's.
- The headless script counts the watershed labels inside the ROI without
  intersecting them with the foreground, unlike the test page. The count is
  an input to both sweeps, so this difference shows only in
  `Watershed.SeparateWithinForeground`, which the test page alone uses.
- Headless.Improved: the ensures states only the bound and the membership;
  the exact prefix shape is proved separately in `Headless.ImprovedIsTop`
  for sorted input, which is what the script passes.
- Integer sizes beyond 32 bits are modelled through `JsNumber.ToInt32` only
  where the source uses a bitwise operator. Other integer arithmetic is on
  unbounded integers, which JavaScript numbers match for the pixel-sized
  values involved. The three members below compute on exact reals.
- Watershed.AlphaThreshold: computes `(0.02 + 0.38 alpha) * 255` on exact
  reals, where the source uses IEEE doubles (src/app/ws-test/page.tsx:226).
  For every swept alpha (two decimals) the exact value is a multiple of
  1/1000 at least 0.02 away from a .5 rounding boundary, so the double
  result rounds to the same level. For other alphas a value within
  rounding error of a .5 boundary could round differently.
- JsNumber.RoundReal: is `Math.round` on an exact real. The source applies
  it to doubles, which the model does not represent.
- Calibration.HueCenterOf: takes the scaled mean angle as an exact real.
  The source's value comes from double-precision `atan2`, `cos` and `sin`
  (src/app/page.tsx:448-455), which are left out, so a mean within
  rounding error of a .5 boundary may round differently.

## Findings

| source | as written | input that shows it | evidently intended | confidence | as-written member | corrected member |
|---|---|---|---|---|---|---|
| src/app/page.tsx:320 | the best is recorded with C defaulted to -4 when it is 0, so an adaptive winner with C = 0 is stored and then applied (page.tsx:508) and reused for calibration (page.tsx:392) with C = -4 | `Candidate(5, AdaptiveMean, 11, 0, true, 3)`, which is in the searched list (C 0 is one of `[-6, -4, -2, 0, 2]`, and the C slider runs from -20 to 20) | the adaptive winner's own C is kept; the -4 default only stands in for Otsu's placeholder 0 | not executed | AutoTune.RecordAsWritten, AutoTune.SelectBestAsWritten, AutoTune.ZeroCRecordedAsMinusFour | AutoTune.RecordOf, AutoTune.SelectBestIntended |
