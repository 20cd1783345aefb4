/**
 * The in-browser watershed sweep of src/app/ws-test/page.tsx (`runSweep`):
 * the swept constants, the five nested loops that push one record per
 * combination while reporting progress every 25 runs, and the final sort
 * by count.
 */
module WsTest {
  import opened Seqs
  import opened Sweep
  import Kernel

  const DistTypes: seq<DistType> := [L2]
  const DistMasks: seq<int> := [3, 5]
  const Alphas: seq<real> := [0.0, 0.02, 0.05, 0.08, 0.1, 0.12, 0.15, 0.18, 0.2]
  const AbsTs: seq<int> := [5, 10, 15, 20, 25, 30, 40, 50, 60]
  const PkSizes: seq<int> := [1, 3, 5]

  /** The fixed count parameters of the page: minimum area 93, inner radius 84%. */
  const MinArea := 93
  const EffectiveRadiusPct := 84

  /** The base binarisation's block `Math.max(3, 33 | 1)` is 33. */
  lemma FixedBlockSize()
    ensures Kernel.BlockSize(33) == 33
  {
  }

  /** Progress is reported after every 25th run and after the last one. */
  const ProgressEvery := 25

  /**
   * The progress values reported once `n` runs are done, as the loop reports
   * them: run `k` reports `k` when `k % 25 == 0 || k == total`.
   */
  function ProgressMarks(total: nat, n: nat): (marks: seq<nat>)
    ensures forall i :: 0 <= i < |marks| ==> 1 <= marks[i] <= n
    ensures forall i :: 0 <= i < |marks| ==> marks[i] % ProgressEvery == 0 || marks[i] == total
    ensures forall i, j :: 0 <= i < j < |marks| ==> marks[i] < marks[j]
  {
    if n == 0 then []
    else ProgressMarks(total, n - 1) + (if n % ProgressEvery == 0 || n == total then [n] else [])
  }

  /**
   * Up to the total, the reports are the multiples of 25 and, at the end,
   * the total itself when it is not one.
   */
  lemma {:induction false} ProgressClosedForm(total: nat, n: nat)
    requires n <= total
    ensures ProgressMarks(total, n) ==
      seq(n / ProgressEvery, i requires 0 <= i < n / ProgressEvery => ProgressEvery * (i + 1))
        + (if n == total && n % ProgressEvery != 0 then [n] else [])
  {
    if n > 0 {
      ProgressClosedForm(total, n - 1);
      var q := (n - 1) / ProgressEvery;
      var prev := seq(q, i requires 0 <= i < q => ProgressEvery * (i + 1));
      if n % ProgressEvery == 0 {
        assert n / ProgressEvery == q + 1;
        assert seq(q + 1, i requires 0 <= i < q + 1 => ProgressEvery * (i + 1)) == prev + [n];
      } else {
        assert n / ProgressEvery == q;
      }
    }
  }

  /** With a positive total the last report is the total: the bar ends full. */
  lemma ProgressEndsAtTotal(total: nat)
    requires total > 0
    ensures |ProgressMarks(total, total)| > 0
    ensures ProgressMarks(total, total)[|ProgressMarks(total, total)| - 1] == total
  {
    assert ProgressMarks(total, total) == ProgressMarks(total, total - 1) + [total];
  }

  /** No swept list repeats a value. */
  lemma ListsDistinct()
    ensures Distinct(DistTypes) && Distinct(DistMasks) && Distinct(PkSizes)
    ensures Distinct(Alphas) && Distinct(AbsTs)
  {
  }

  /** `totalCombos` for the swept constants is 108, and the 108 combinations are distinct. */
  lemma SweepConstants()
    ensures TotalCombos(DistTypes, DistMasks, PkSizes, Alphas, AbsTs) == 108
    ensures |SweepOrder(DistTypes, DistMasks, PkSizes, Alphas, AbsTs)| == 108
    ensures Distinct(SweepOrder(DistTypes, DistMasks, PkSizes, Alphas, AbsTs))
  {
    ListsDistinct();
    SweepOrderDistinct(DistTypes, DistMasks, PkSizes, Alphas, AbsTs);
  }

  /** With 108 runs progress is reported at 25, 50, 75, 100 and 108. */
  lemma ProgressAt108()
    ensures ProgressMarks(108, 108) == [25, 50, 75, 100, 108]
  {
    ProgressClosedForm(108, 108);
    var q := seq(108 / ProgressEvery, i requires 0 <= i < 108 / ProgressEvery => ProgressEvery * (i + 1));
    assert q == [25, 50, 75, 100];
  }

  /** What the loop has done after running the combinations `pushed`. */
  datatype Progress = Progress(processed: nat, reports: seq<nat>, localResults: seq<SweepResult>)

  ghost predicate Done(st: Progress, pushed: seq<WsParams>, total: nat, score: WsParams -> int)
  {
    && st.processed == |pushed|
    && st.reports == ProgressMarks(total, |pushed|)
    && Records(st.localResults, pushed, score)
  }

  /** One run: push its record, count it, report progress when due. */
  method Push(p: WsParams, total: nat, score: WsParams -> int, st: Progress, ghost pushed: seq<WsParams>)
    returns (st': Progress)
    requires Done(st, pushed, total, score)
    ensures Done(st', pushed + [p], total, score)
  {
    var processed := st.processed + 1;
    var reports := st.reports;
    if processed % ProgressEvery == 0 || processed == total {
      reports := reports + [processed];
    }
    st' := Progress(processed, reports, st.localResults + [SweepResult(IdOf(p), p, score(p))]);
  }

  /** The two innermost loops: every alpha, then every absolute level. */
  method RunModes(dt: DistType, dm: int, pk: int, alphas: seq<real>, absTs: seq<int>,
                  total: nat, score: WsParams -> int, st: Progress, ghost pushed: seq<WsParams>)
    returns (st': Progress)
    requires Done(st, pushed, total, score)
    ensures Done(st', pushed + ModeRuns(dt, dm, pk, alphas, absTs), total, score)
  {
    st' := st;
    for d := 0 to |alphas|
      invariant Done(st', pushed + AlphaRuns(dt, dm, pk, alphas[..d]), total, score)
    {
      var p := WsParams(AlphaSplit(alphas[d]), dt, dm, pk);
      st' := Push(p, total, score, st', pushed + AlphaRuns(dt, dm, pk, alphas[..d]));
      AlphaRunsStep(pushed, dt, dm, pk, alphas, d);
    }
    ghost var mid := pushed + AlphaRuns(dt, dm, pk, alphas[..|alphas|]);
    for e := 0 to |absTs|
      invariant Done(st', mid + AbsoluteRuns(dt, dm, pk, absTs[..e]), total, score)
    {
      var p := WsParams(AbsoluteSplit(absTs[e]), dt, dm, pk);
      st' := Push(p, total, score, st', mid + AbsoluteRuns(dt, dm, pk, absTs[..e]));
      AbsoluteRunsStep(mid, dt, dm, pk, absTs, e);
    }
    ModeRunsAfter(pushed, dt, dm, pk, alphas, absTs);
  }

  /** The `peakCleanupSize` loop for one distance type and mask. */
  method RunPks(dt: DistType, dm: int, pks: seq<int>, alphas: seq<real>, absTs: seq<int>,
                total: nat, score: WsParams -> int, st: Progress, ghost pushed: seq<WsParams>)
    returns (st': Progress)
    requires Done(st, pushed, total, score)
    ensures Done(st', pushed + FlatMap(pks, PkStep(dt, dm, alphas, absTs)), total, score)
  {
    st' := st;
    for c := 0 to |pks|
      invariant Done(st', pushed + FlatMap(pks[..c], PkStep(dt, dm, alphas, absTs)), total, score)
    {
      ghost var before := pushed + FlatMap(pks[..c], PkStep(dt, dm, alphas, absTs));
      st' := RunModes(dt, dm, pks[c], alphas, absTs, total, score, st', before);
      FlatMapStepAfter(pushed, pks, PkStep(dt, dm, alphas, absTs), c);
    }
    assert pks[..|pks|] == pks;
  }

  /** The `distMask` loop for one distance type. */
  method RunMasks(dt: DistType, dms: seq<int>, pks: seq<int>, alphas: seq<real>, absTs: seq<int>,
                  total: nat, score: WsParams -> int, st: Progress, ghost pushed: seq<WsParams>)
    returns (st': Progress)
    requires Done(st, pushed, total, score)
    ensures Done(st', pushed + FlatMap(dms, MaskStep(dt, pks, alphas, absTs)), total, score)
  {
    st' := st;
    for b := 0 to |dms|
      invariant Done(st', pushed + FlatMap(dms[..b], MaskStep(dt, pks, alphas, absTs)), total, score)
    {
      ghost var before := pushed + FlatMap(dms[..b], MaskStep(dt, pks, alphas, absTs));
      st' := RunPks(dt, dms[b], pks, alphas, absTs, total, score, st', before);
      FlatMapStepAfter(pushed, dms, MaskStep(dt, pks, alphas, absTs), b);
    }
    assert dms[..|dms|] == dms;
  }

  /**
   * `runSweep`'s loops followed by `localResults.sort(...)`: one record per
   * combination, the progress values reported on the way, and the records
   * sorted by non-increasing count. `score(p)` is the watershed count that
   * `runWs` produces for the parameters `p`.
   */
  method RunSweep(dts: seq<DistType>, dms: seq<int>, pks: seq<int>, alphas: seq<real>, absTs: seq<int>,
                  score: WsParams -> int)
    returns (results: seq<SweepResult>, reports: seq<nat>)
    ensures multiset(results) == multiset(RecordsOf(SweepOrder(dts, dms, pks, alphas, absTs), score))
    ensures SortedByCountDesc(results)
    ensures reports == ProgressMarks(TotalCombos(dts, dms, pks, alphas, absTs), TotalCombos(dts, dms, pks, alphas, absTs))
  {
    var totalCombos := TotalCombos(dts, dms, pks, alphas, absTs);
    ghost var order := SweepOrder(dts, dms, pks, alphas, absTs);
    var st := Progress(0, [], []);
    for a := 0 to |dts|
      invariant Done(st, FlatMap(dts[..a], DistStep(dms, pks, alphas, absTs)), totalCombos, score)
    {
      ghost var before := FlatMap(dts[..a], DistStep(dms, pks, alphas, absTs));
      st := RunMasks(dts[a], dms, pks, alphas, absTs, totalCombos, score, st, before);
      FlatMapSnoc(dts, DistStep(dms, pks, alphas, absTs), a);
    }
    assert dts[..|dts|] == dts;
    assert st.localResults == RecordsOf(order, score);
    reports := st.reports;
    results := SortRecords(st.localResults);
  }
}
