/**
 * `autoTune` in src/app/page.tsx: the grid search over blur, threshold
 * mode, adaptive block and C, inversion and morphology size, the optional
 * search over seed erosion/dilation sizes, and the write-back of the winner
 * into the page settings. Each candidate's colony count comes from the
 * OpenCV pipeline; here it is the area-filtered count of the component
 * areas that pipeline produces for the candidate, given as a function.
 */
module AutoTune {
  import opened Wrappers
  import opened JsNumber
  import opened Seqs
  import Kernel
  import Counting

  datatype ThresholdMode = Otsu | AdaptiveMean | AdaptiveGaussian

  /** One entry of `tryModes`: a mode and its optional block and C lists. */
  datatype ModeSpec = ModeSpec(mode: ThresholdMode, blocks: Option<seq<int>>, cs: Option<seq<int>>)

  /** The threshold settings of the page that the search reads and writes. */
  datatype Settings = Settings(blur: int, morph: int, mode: ThresholdMode, block: int, c: int, inv: bool)

  /** The running best: a count and the settings it was reached with. */
  datatype Best = Best(count: int, settings: Settings)

  /** One combination tried by the search. */
  datatype Candidate = Candidate(blur: int, mode: ThresholdMode, block: int, c: int, inv: bool, morph: int)

  const TryBlurSizes: seq<int> := [5, 9, 13]
  const TryMorphSizes: seq<int> := [3, 5, 7]
  const TryModes: seq<ModeSpec> := [
    ModeSpec(Otsu, None, None),
    ModeSpec(AdaptiveMean, Some([11, 17, 23]), Some([-6, -4, -2, 0, 2])),
    ModeSpec(AdaptiveGaussian, Some([11, 17, 23]), Some([-6, -4, -2, 0, 2]))
  ]
  const Invert: seq<bool> := [true, false]
  const TryErode: seq<int> := [1, 3, 5, 7]
  const TryDilate: seq<int> := [3, 5, 7, 9]

  /** `mode === "otsu" ? [0] : (blocks ?? [17])`. */
  function BlockList(ms: ModeSpec): (r: seq<int>)
    ensures ms.mode == Otsu ==> r == [0]
    ensures ms.mode != Otsu && ms.blocks.Some? ==> r == ms.blocks.value
    ensures ms.mode != Otsu && ms.blocks.None? ==> r == [17]
  {
    if ms.mode == Otsu then [0] else if ms.blocks.Some? then ms.blocks.value else [17]
  }

  /** `mode === "otsu" ? [0] : (Cs ?? [-4])`. */
  function CList(ms: ModeSpec): (r: seq<int>)
    ensures ms.mode == Otsu ==> r == [0]
    ensures ms.mode != Otsu && ms.cs.Some? ==> r == ms.cs.value
    ensures ms.mode != Otsu && ms.cs.None? ==> r == [-4]
  {
    if ms.mode == Otsu then [0] else if ms.cs.Some? then ms.cs.value else [-4]
  }

  function MorphRuns(b: int, mode: ThresholdMode, blk: int, c: int, inv: bool, morphs: seq<int>): seq<Candidate>
  {
    seq(|morphs|, i requires 0 <= i < |morphs| => Candidate(b, mode, blk, c, inv, morphs[i]))
  }

  function InvStep(b: int, mode: ThresholdMode, blk: int, c: int, morphs: seq<int>): bool -> seq<Candidate>
  {
    inv => MorphRuns(b, mode, blk, c, inv, morphs)
  }

  function CStep(b: int, mode: ThresholdMode, blk: int, invs: seq<bool>, morphs: seq<int>): int -> seq<Candidate>
  {
    c => FlatMap(invs, InvStep(b, mode, blk, c, morphs))
  }

  function BlockStep(b: int, ms: ModeSpec, invs: seq<bool>, morphs: seq<int>): int -> seq<Candidate>
  {
    blk => FlatMap(CList(ms), CStep(b, ms.mode, blk, invs, morphs))
  }

  function ModeStep(b: int, invs: seq<bool>, morphs: seq<int>): ModeSpec -> seq<Candidate>
  {
    ms => FlatMap(BlockList(ms), BlockStep(b, ms, invs, morphs))
  }

  function BlurStep(modes: seq<ModeSpec>, invs: seq<bool>, morphs: seq<int>): int -> seq<Candidate>
  {
    b => FlatMap(modes, ModeStep(b, invs, morphs))
  }

  /** The candidates in the order of the loops `blur > mode > block > C > inv > morph`. */
  function TuneOrder(blurs: seq<int>, modes: seq<ModeSpec>, invs: seq<bool>, morphs: seq<int>): seq<Candidate>
  {
    FlatMap(blurs, BlurStep(modes, invs, morphs))
  }

  function DilateRuns(dilates: seq<int>): int -> seq<(int, int)>
  {
    e => seq(|dilates|, j requires 0 <= j < |dilates| => (e, dilates[j]))
  }

  /** The seed-size pairs in the order of the loops `erode > dilate`. */
  function SeedOrder(erodes: seq<int>, dilates: seq<int>): seq<(int, int)>
  {
    FlatMap(erodes, DilateRuns(dilates))
  }

  /** The seed loops try every erode size with every dilate size, and nothing else. */
  lemma SeedOrderPairs(erodes: seq<int>, dilates: seq<int>)
    ensures |SeedOrder(erodes, dilates)| == |erodes| * |dilates|
    ensures forall e, d :: (e, d) in SeedOrder(erodes, dilates) <==> e in erodes && d in dilates
  {
    var f := DilateRuns(dilates);
    FlatMapLength(erodes, f, |dilates|);
    forall e, d
      ensures (e, d) in SeedOrder(erodes, dilates) <==> e in erodes && d in dilates
    {
      if (e, d) in SeedOrder(erodes, dilates) {
        FlatMapMember(erodes, f, (e, d));
        var i :| 0 <= i < |erodes| && (e, d) in f(erodes[i]);
        var j :| 0 <= j < |dilates| && f(erodes[i])[j] == (e, d);
        assert e == erodes[i] && d == dilates[j];
      }
      if e in erodes && d in dilates {
        var i :| 0 <= i < |erodes| && erodes[i] == e;
        var j :| 0 <= j < |dilates| && dilates[j] == d;
        assert f(erodes[i])[j] == (e, d);
        FlatMapContains(erodes, f, i, (e, d));
      }
    }
  }

  /** `k` is the first index whose score is maximal. */
  ghost predicate IsFirstMax<T>(xs: seq<T>, score: T -> int, k: int)
  {
    && 0 <= k < |xs|
    && (forall i :: 0 <= i < |xs| ==> score(xs[i]) <= score(xs[k]))
    && (forall i :: 0 <= i < k ==> score(xs[i]) < score(xs[k]))
  }

  /**
   * The record written when a candidate beats the best, as the source
   * writes it: `block: blk || 17, C: c || -4`.
   */
  function RecordAsWritten(cand: Candidate, count: int): (b: Best)
    ensures b.count == count && b.settings.blur == cand.blur && b.settings.morph == cand.morph
    ensures b.settings.mode == cand.mode && b.settings.inv == cand.inv
    ensures b.settings.block == JsOr(cand.block, 17) && b.settings.c == JsOr(cand.c, -4)
  {
    Best(count, Settings(cand.blur, cand.morph, cand.mode, JsOr(cand.block, 17), JsOr(cand.c, -4), cand.inv))
  }

  /**
   * The record as evidently intended: the `|| 17` and `|| -4` defaults only
   * stand in for Otsu's placeholder block and C, which are never applied;
   * an adaptive candidate's own block and C are kept.
   */
  function RecordOf(cand: Candidate, count: int): (b: Best)
    ensures b.count == count && b.settings.blur == cand.blur && b.settings.morph == cand.morph
    ensures b.settings.mode == cand.mode && b.settings.inv == cand.inv
    ensures cand.mode != Otsu ==> b.settings.block == JsOr(cand.block, 17) && b.settings.c == cand.c
  {
    if cand.mode == Otsu then RecordAsWritten(cand, count)
    else Best(count, Settings(cand.blur, cand.morph, cand.mode, JsOr(cand.block, 17), cand.c, cand.inv))
  }

  /**
   * The write-back after the search: blur, morphology, mode and inversion
   * always; block and C only for the adaptive modes.
   */
  function Apply(current: Settings, best: Best): (s: Settings)
    ensures s.blur == best.settings.blur && s.morph == best.settings.morph
    ensures s.mode == best.settings.mode && s.inv == best.settings.inv
    ensures best.settings.mode != Otsu ==> s.block == best.settings.block && s.c == best.settings.c
    ensures best.settings.mode == Otsu ==> s.block == current.block && s.c == current.c
  {
    var s := current.(blur := best.settings.blur, morph := best.settings.morph,
                      mode := best.settings.mode, inv := best.settings.inv);
    if best.settings.mode != Otsu then s.(block := best.settings.block, c := best.settings.c) else s
  }

  /** A candidate's count: components of its opened mask with area at least `minArea`. */
  function CountOf(areas: Candidate -> seq<int>, minArea: int, cand: Candidate): nat
  {
    |Counting.KeptLabels(areas(cand), minArea)|
  }

  /**
   * The main search loop: starting from `{count: -1, ...current}`, a
   * candidate replaces the best only when its count is strictly greater, so
   * the first candidate of maximal count in loop order wins. `record` builds
   * the stored best from the winning candidate and its count.
   */
  method SelectBest(cands: seq<Candidate>, areas: Candidate -> seq<int>, minArea: int, current: Settings,
                    record: (Candidate, int) -> Best)
    returns (best: Best)
    requires forall cand, n :: record(cand, n).count == n
    ensures |cands| == 0 ==> best == Best(-1, current)
    ensures |cands| > 0 ==> exists k :: IsFirstMax(cands, c => CountOf(areas, minArea, c), k)
                                     && best == record(cands[k], CountOf(areas, minArea, cands[k]))
  {
    best := Best(-1, current);
    ghost var k := -1;
    ghost var score := c => CountOf(areas, minArea, c);
    for i := 0 to |cands|
      invariant -1 <= k < i || (k == -1 && i == 0)
      invariant i == 0 <==> k == -1
      invariant k == -1 ==> best == Best(-1, current)
      invariant k >= 0 ==> best == record(cands[k], score(cands[k]))
      invariant k >= 0 ==> forall j :: 0 <= j < i ==> score(cands[j]) <= best.count
      invariant k >= 0 ==> forall j :: 0 <= j < k ==> score(cands[j]) < best.count
    {
      var count := Counting.CountColonies(areas(cands[i]), minArea);
      if count > best.count {
        best := record(cands[i], count);
        k := i;
      }
    }
    if k >= 0 {
      assert IsFirstMax(cands, score, k);
    }
  }

  /**
   * The search as the page runs it, storing `RecordAsWritten`: a winning
   * adaptive candidate with C = 0 is stored, and then applied, with C = -4.
   */
  method SelectBestAsWritten(cands: seq<Candidate>, areas: Candidate -> seq<int>, minArea: int, current: Settings)
    returns (best: Best)
    ensures |cands| == 0 ==> best == Best(-1, current)
    ensures |cands| > 0 ==> exists k :: IsFirstMax(cands, c => CountOf(areas, minArea, c), k)
                                     && best == RecordAsWritten(cands[k], CountOf(areas, minArea, cands[k]))
                                     && (cands[k].mode != Otsu && cands[k].c == 0 ==> Apply(current, best).c == -4)
  {
    best := SelectBest(cands, areas, minArea, current, RecordAsWritten);
  }

  /**
   * The search with the corrected record: an adaptive winner is applied
   * with exactly the settings it was evaluated with.
   */
  method SelectBestIntended(cands: seq<Candidate>, areas: Candidate -> seq<int>, minArea: int, current: Settings)
    returns (best: Best)
    ensures |cands| == 0 ==> best == Best(-1, current)
    ensures |cands| > 0 ==> exists k :: IsFirstMax(cands, c => CountOf(areas, minArea, c), k)
                                     && best == RecordOf(cands[k], CountOf(areas, minArea, cands[k]))
                                     && (cands[k].mode != Otsu && cands[k].block != 0 ==>
                                           Apply(current, best) == Settings(cands[k].blur, cands[k].morph, cands[k].mode,
                                                                            cands[k].block, cands[k].c, cands[k].inv))
  {
    best := SelectBest(cands, areas, minArea, current, RecordOf);
  }

  /** A seed pair's count: A-class plus B-class components of at least `minArea`. */
  function SeedCountOf(areasA: (int, int) -> seq<int>, areasB: (int, int) -> seq<int>, minArea: int, ed: (int, int)): nat
  {
    |Counting.KeptLabels(areasA(ed.0, ed.1), minArea)| + |Counting.KeptLabels(areasB(ed.0, ed.1), minArea)|
  }

  /**
   * The seed-size search (colour-split mode): the same strict-improvement
   * rule over the erode/dilate pairs, starting from the current sizes.
   */
  method SelectSeeds(pairs: seq<(int, int)>, areasA: (int, int) -> seq<int>, areasB: (int, int) -> seq<int>,
                     minArea: int, erodeSize: int, dilateSize: int)
    returns (erode: int, dilate: int)
    ensures |pairs| == 0 ==> erode == erodeSize && dilate == dilateSize
    ensures |pairs| > 0 ==> exists k :: IsFirstMax(pairs, ed => SeedCountOf(areasA, areasB, minArea, ed), k)
                                     && (erode, dilate) == pairs[k]
  {
    var bestCount: int := -1;
    erode, dilate := erodeSize, dilateSize;
    ghost var k := -1;
    ghost var score := ed => SeedCountOf(areasA, areasB, minArea, ed);
    for i := 0 to |pairs|
      invariant i == 0 <==> k == -1
      invariant -1 <= k < i || (k == -1 && i == 0)
      invariant k == -1 ==> bestCount == -1 && erode == erodeSize && dilate == dilateSize
      invariant k >= 0 ==> bestCount == score(pairs[k]) && (erode, dilate) == pairs[k]
      invariant k >= 0 ==> forall j :: 0 <= j < i ==> score(pairs[j]) <= bestCount
      invariant k >= 0 ==> forall j :: 0 <= j < k ==> score(pairs[j]) < bestCount
    {
      var eSize := pairs[i].0;
      var dSize := pairs[i].1;
      var aCount := Counting.CountColonies(areasA(eSize, dSize), minArea);
      var bCount := Counting.CountColonies(areasB(eSize, dSize), minArea);
      var count := aCount + bCount;
      if count > bestCount {
        bestCount := count;
        erode, dilate := eSize, dSize;
        k := i;
      }
    }
    if k >= 0 {
      assert IsFirstMax(pairs, score, k);
    }
  }

  /**
   * The seed search over the page's sizes: the winner is a tried pair,
   * already odd, so the structuring elements it was counted with are the
   * ones its sizes name.
   */
  method SearchSeeds(areasA: (int, int) -> seq<int>, areasB: (int, int) -> seq<int>,
                     minArea: int, erodeSize: int, dilateSize: int)
    returns (erode: int, dilate: int)
    ensures exists k :: IsFirstMax(SeedOrder(TryErode, TryDilate), ed => SeedCountOf(areasA, areasB, minArea, ed), k)
                     && (erode, dilate) == SeedOrder(TryErode, TryDilate)[k]
    ensures erode in TryErode && dilate in TryDilate
    ensures Kernel.KernelSize(erode) == erode && Kernel.KernelSize(dilate) == dilate
  {
    SeedOrderPairs(TryErode, TryDilate);
    erode, dilate := SelectSeeds(SeedOrder(TryErode, TryDilate), areasA, areasB, minArea, erodeSize, dilateSize);
    TriedSizesAreOdd();
  }

  /**
   * The write-back closes the loop for an adaptive winner: the page is left
   * with exactly the blur, morphology, mode, inversion, block and C that
   * were evaluated, so the re-run of `processImage` uses the same adaptive
   * block size.
   */
  lemma ApplyRoundTrip(current: Settings, cand: Candidate, count: int)
    requires cand.mode != Otsu && cand.block != 0
    ensures Apply(current, RecordOf(cand, count)) ==
      Settings(cand.blur, cand.morph, cand.mode, cand.block, cand.c, cand.inv)
    ensures Kernel.BlockSize(Apply(current, RecordOf(cand, count)).block) == Kernel.BlockSize(cand.block)
  {
  }

  /** An Otsu winner leaves the adaptive block and C as they were. */
  lemma ApplyOtsuKeepsAdaptive(current: Settings, cand: Candidate, count: int)
    requires cand.mode == Otsu
    ensures Apply(current, RecordOf(cand, count)).block == current.block
    ensures Apply(current, RecordOf(cand, count)).c == current.c
    ensures Apply(current, RecordOf(cand, count)).mode == Otsu
  {
  }

  /** Adaptive mean with block 11 and C 0 is one of the combinations the search tries. */
  lemma ZeroCIsTried(cand: Candidate)
    requires cand == Candidate(5, AdaptiveMean, 11, 0, true, 3)
    ensures cand in TuneOrder(TryBlurSizes, TryModes, Invert, TryMorphSizes)
  {
    var ms := TryModes[1];
    assert cand == MorphRuns(5, AdaptiveMean, 11, 0, true, TryMorphSizes)[0];
    FlatMapContains(Invert, InvStep(5, AdaptiveMean, 11, 0, TryMorphSizes), 0, cand);
    assert CList(ms)[3] == 0;
    FlatMapContains(CList(ms), CStep(5, AdaptiveMean, 11, Invert, TryMorphSizes), 3, cand);
    assert BlockList(ms)[0] == 11;
    FlatMapContains(BlockList(ms), BlockStep(5, ms, Invert, TryMorphSizes), 0, cand);
    FlatMapContains(TryModes, ModeStep(5, Invert, TryMorphSizes), 1, cand);
    FlatMapContains(TryBlurSizes, BlurStep(TryModes, Invert, TryMorphSizes), 0, cand);
  }

  /**
   * As written, a winning adaptive candidate with C = 0 is written back with
   * C = -4: the page then thresholds with a C that was never the winner.
   */
  lemma ZeroCRecordedAsMinusFour(current: Settings, count: int)
    ensures Candidate(5, AdaptiveMean, 11, 0, true, 3) in TuneOrder(TryBlurSizes, TryModes, Invert, TryMorphSizes)
    ensures Apply(current, RecordAsWritten(Candidate(5, AdaptiveMean, 11, 0, true, 3), count)).c == -4
    ensures Apply(current, RecordOf(Candidate(5, AdaptiveMean, 11, 0, true, 3), count)).c == 0
  {
    ZeroCIsTried(Candidate(5, AdaptiveMean, 11, 0, true, 3));
  }

  /** The swept seed sizes and blur/morph sizes are already odd, so forcing them odd changes nothing. */
  lemma TriedSizesAreOdd()
    ensures forall i :: 0 <= i < |TryErode| ==> Kernel.KernelSize(TryErode[i]) == TryErode[i]
    ensures forall i :: 0 <= i < |TryDilate| ==> Kernel.KernelSize(TryDilate[i]) == TryDilate[i]
    ensures forall i :: 0 <= i < |TryBlurSizes| ==> Kernel.KernelSize(TryBlurSizes[i]) == TryBlurSizes[i]
    ensures forall i :: 0 <= i < |TryMorphSizes| ==> Kernel.KernelSize(TryMorphSizes[i]) == TryMorphSizes[i]
  {
  }
}
