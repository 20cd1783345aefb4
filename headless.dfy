/**
 * The sweep of scripts/run-ws-headless.js: the swept constants, the five
 * nested loops (one record per combination, no progress reporting), the
 * sort by count and the summary of the runs that beat the baseline.
 */
module Headless {
  import opened JsNumber
  import opened Seqs
  import opened Sweep
  import Kernel

  const DistTypes: seq<DistType> := [L1, L2, C]
  const DistMasks: seq<int> := [3, 5]
  const Alphas: seq<real> := [0.0, 0.05, 0.1, 0.15, 0.2, 0.25, 0.3, 0.35, 0.4, 0.45, 0.5, 0.55, 0.6]
  const AbsTs: seq<int> := [60, 80, 100, 120, 140]
  const PkSizes: seq<int> := [1, 3, 5]

  /** The fixed parameters: minimum area 93, inner radius 84%, blur 7, morphology 5, block 33, C 0. */
  const MinArea := 93
  const EffectiveRadiusPct := 84
  const BlurSize := 7
  const MorphSize := 5
  const AdaptiveBlock := 33

  /** `ensureOdd` leaves the fixed sizes as they are. */
  lemma FixedSizes()
    ensures Kernel.OddKernelSize(BlurSize) == 7
    ensures Kernel.OddKernelSize(MorphSize) == 5
    ensures Kernel.OddBlockSize(AdaptiveBlock) == 33
  {
  }

  /** At most this many improving runs are printed. */
  const TopImproving := 15

  /** No swept list repeats a value. */
  lemma ListsDistinct()
    ensures Distinct(DistTypes) && Distinct(DistMasks) && Distinct(PkSizes)
    ensures Distinct(Alphas) && Distinct(AbsTs)
  {
  }

  /** The script runs 324 distinct combinations. */
  lemma SweepConstants()
    ensures TotalCombos(DistTypes, DistMasks, PkSizes, Alphas, AbsTs) == 324
    ensures |SweepOrder(DistTypes, DistMasks, PkSizes, Alphas, AbsTs)| == 324
    ensures Distinct(SweepOrder(DistTypes, DistMasks, PkSizes, Alphas, AbsTs))
  {
    ListsDistinct();
    SweepOrderDistinct(DistTypes, DistMasks, PkSizes, Alphas, AbsTs);
  }

  /** The two innermost loops for one distance type, mask and cleanup size. */
  method RunModes(dt: DistType, dm: int, pk: int, alphas: seq<real>, absTs: seq<int>,
                  score: WsParams -> int, results: seq<SweepResult>, ghost pushed: seq<WsParams>)
    returns (results': seq<SweepResult>)
    requires Records(results, pushed, score)
    ensures Records(results', pushed + ModeRuns(dt, dm, pk, alphas, absTs), score)
  {
    results' := results;
    for i := 0 to |alphas|
      invariant Records(results', pushed + AlphaRuns(dt, dm, pk, alphas[..i]), score)
    {
      var p := WsParams(AlphaSplit(alphas[i]), dt, dm, pk);
      results' := results' + [SweepResult(IdOf(p), p, score(p))];
      AlphaRunsStep(pushed, dt, dm, pk, alphas, i);
    }
    ghost var mid := pushed + AlphaRuns(dt, dm, pk, alphas[..|alphas|]);
    for i := 0 to |absTs|
      invariant Records(results', mid + AbsoluteRuns(dt, dm, pk, absTs[..i]), score)
    {
      var p := WsParams(AbsoluteSplit(absTs[i]), dt, dm, pk);
      results' := results' + [SweepResult(IdOf(p), p, score(p))];
      AbsoluteRunsStep(mid, dt, dm, pk, absTs, i);
    }
    ModeRunsAfter(pushed, dt, dm, pk, alphas, absTs);
  }

  /** The `pk` loop. */
  method RunPks(dt: DistType, dm: int, pks: seq<int>, alphas: seq<real>, absTs: seq<int>,
                score: WsParams -> int, results: seq<SweepResult>, ghost pushed: seq<WsParams>)
    returns (results': seq<SweepResult>)
    requires Records(results, pushed, score)
    ensures Records(results', pushed + FlatMap(pks, PkStep(dt, dm, alphas, absTs)), score)
  {
    results' := results;
    for c := 0 to |pks|
      invariant Records(results', pushed + FlatMap(pks[..c], PkStep(dt, dm, alphas, absTs)), score)
    {
      ghost var before := pushed + FlatMap(pks[..c], PkStep(dt, dm, alphas, absTs));
      results' := RunModes(dt, dm, pks[c], alphas, absTs, score, results', before);
      FlatMapStepAfter(pushed, pks, PkStep(dt, dm, alphas, absTs), c);
    }
    assert pks[..|pks|] == pks;
  }

  /** The `dm` loop. */
  method RunMasks(dt: DistType, dms: seq<int>, pks: seq<int>, alphas: seq<real>, absTs: seq<int>,
                  score: WsParams -> int, results: seq<SweepResult>, ghost pushed: seq<WsParams>)
    returns (results': seq<SweepResult>)
    requires Records(results, pushed, score)
    ensures Records(results', pushed + FlatMap(dms, MaskStep(dt, pks, alphas, absTs)), score)
  {
    results' := results;
    for b := 0 to |dms|
      invariant Records(results', pushed + FlatMap(dms[..b], MaskStep(dt, pks, alphas, absTs)), score)
    {
      ghost var before := pushed + FlatMap(dms[..b], MaskStep(dt, pks, alphas, absTs));
      results' := RunPks(dt, dms[b], pks, alphas, absTs, score, results', before);
      FlatMapStepAfter(pushed, dms, MaskStep(dt, pks, alphas, absTs), b);
    }
    assert dms[..|dms|] == dms;
  }

  /**
   * The `dt` loop followed by `results.sort(...)`: one record per
   * combination, sorted by non-increasing count. `score(p)` is the count
   * `runWs` returns for the parameters `p`.
   */
  method RunSweep(dts: seq<DistType>, dms: seq<int>, pks: seq<int>, alphas: seq<real>, absTs: seq<int>,
                  score: WsParams -> int)
    returns (results: seq<SweepResult>)
    ensures multiset(results) == multiset(RecordsOf(SweepOrder(dts, dms, pks, alphas, absTs), score))
    ensures SortedByCountDesc(results)
  {
    var pushedResults: seq<SweepResult> := [];
    for a := 0 to |dts|
      invariant Records(pushedResults, FlatMap(dts[..a], DistStep(dms, pks, alphas, absTs)), score)
    {
      ghost var before := FlatMap(dts[..a], DistStep(dms, pks, alphas, absTs));
      pushedResults := RunMasks(dts[a], dms, pks, alphas, absTs, score, pushedResults, before);
      FlatMapSnoc(dts, DistStep(dms, pks, alphas, absTs), a);
    }
    assert dts[..|dts|] == dts;
    assert pushedResults == RecordsOf(SweepOrder(dts, dms, pks, alphas, absTs), score);
    results := SortRecords(pushedResults);
  }

  /** `results.filter(r => r.count > baseline)`. */
  function Above(rs: seq<SweepResult>, baseline: int): (out: seq<SweepResult>)
    ensures |out| <= |rs|
  {
    if |rs| == 0 then []
    else (if rs[0].count > baseline then [rs[0]] else []) + Above(rs[1..], baseline)
  }

  /** The filter keeps exactly the runs whose count beats the baseline. */
  lemma {:induction false} AboveMembers(rs: seq<SweepResult>, baseline: int)
    ensures forall r :: r in Above(rs, baseline) <==> r in rs && r.count > baseline
  {
    if |rs| > 0 {
      AboveMembers(rs[1..], baseline);
      assert rs == [rs[0]] + rs[1..];
    }
  }

  /** `.slice(0, 15)` of the runs above the baseline. */
  function Improved(rs: seq<SweepResult>, baseline: int): (out: seq<SweepResult>)
    ensures |out| <= TopImproving
    ensures forall r :: r in out ==> r in rs && r.count > baseline
  {
    var above := Above(rs, baseline);
    AboveMembers(rs, baseline);
    above[..Min(TopImproving, |above|)]
  }

  /** In a list sorted by non-increasing count, the runs above the baseline are a prefix. */
  lemma {:induction false} AboveSortedIsPrefix(rs: seq<SweepResult>, baseline: int)
    requires SortedByCountDesc(rs)
    ensures Above(rs, baseline) == rs[..|Above(rs, baseline)|]
    ensures forall i :: |Above(rs, baseline)| <= i < |rs| ==> rs[i].count <= baseline
  {
    if |rs| > 0 {
      var tail := rs[1..];
      SortedTail(rs);
      AboveSortedIsPrefix(tail, baseline);
      var m := |Above(tail, baseline)|;
      if rs[0].count > baseline {
        assert Above(rs, baseline) == [rs[0]] + tail[..m];
        assert rs[..m + 1] == [rs[0]] + tail[..m];
        forall i | m + 1 <= i < |rs|
          ensures rs[i].count <= baseline
        {
          assert rs[i] == tail[i - 1];
        }
      } else {
        AboveMembers(tail, baseline);
        assert m == 0;
        forall i | 0 <= i < |rs|
          ensures rs[i].count <= baseline
        {
          if i > 0 {
            assert rs[i] == tail[i - 1];
          }
        }
      }
    }
  }

  /** Dropping the first record keeps the order. */
  lemma SortedTail(rs: seq<SweepResult>)
    requires SortedByCountDesc(rs) && |rs| > 0
    ensures SortedByCountDesc(rs[1..])
  {
  }

  /**
   * On the sorted results the printed list is the first `min(15, k)`
   * records, where `k` runs beat the baseline: the best improving runs, in
   * order, and every omitted improving run counts no more than the last
   * printed one.
   */
  lemma ImprovedIsTop(rs: seq<SweepResult>, baseline: int)
    requires SortedByCountDesc(rs)
    ensures Improved(rs, baseline) == rs[..|Improved(rs, baseline)|]
    ensures |Improved(rs, baseline)| == Min(TopImproving, |Above(rs, baseline)|)
    ensures forall i :: |Improved(rs, baseline)| <= i < |rs| && rs[i].count > baseline ==>
              0 < |Improved(rs, baseline)| && rs[i].count <= Improved(rs, baseline)[|Improved(rs, baseline)| - 1].count
  {
    AboveSortedIsPrefix(rs, baseline);
  }
}
