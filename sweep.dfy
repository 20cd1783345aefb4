/**
 * What the two watershed parameter sweeps share (`runSweep` in
 * src/app/ws-test/page.tsx and the sweep of scripts/run-ws-headless.js):
 * the parameter record of one run, its id, the order in which the nested
 * loops visit the combinations, and the in-place sort by count.
 */
module Sweep {
  import opened Seqs
  import opened Sorting

  datatype DistType = L1 | L2 | C

  /** The split setting of one run: an alpha strength or an absolute level. */
  datatype Split = AlphaSplit(alpha: real) | AbsoluteSplit(t: int)

  datatype WsParams = WsParams(split: Split, distType: DistType, distMask: int, pk: int)

  /**
   * The run id `a-<dist>-<mask>-<pk>-<alpha>` or `t-<dist>-<mask>-<pk>-<T>`,
   * kept as its components.
   */
  datatype RunId = RunId(prefix: char, distType: DistType, distMask: int, pk: int, value: real)

  datatype SweepResult = SweepResult(id: RunId, params: WsParams, count: int)

  function IdOf(p: WsParams): (id: RunId)
    ensures id.prefix == (if p.split.AlphaSplit? then 'a' else 't')
  {
    match p.split
    case AlphaSplit(a) => RunId('a', p.distType, p.distMask, p.pk, a)
    case AbsoluteSplit(t) => RunId('t', p.distType, p.distMask, p.pk, t as real)
  }

  /** Different parameter sets get different ids. */
  lemma IdInjective(p: WsParams, q: WsParams)
    requires IdOf(p) == IdOf(q)
    ensures p == q
  {
  }

  /** The record pushed for one run whose watershed count is `score(p)`. */
  function ResultOf(p: WsParams, score: WsParams -> int): (r: SweepResult)
  {
    SweepResult(IdOf(p), p, score(p))
  }

  /** The records pushed for the runs `ps`, in order. */
  function RecordsOf(ps: seq<WsParams>, score: WsParams -> int): (rs: seq<SweepResult>)
  {
    seq(|ps|, k requires 0 <= k < |ps| => ResultOf(ps[k], score))
  }

  /** `results[k]` is the record of `pushed[k]`, for every `k`. */
  predicate Records(results: seq<SweepResult>, pushed: seq<WsParams>, score: WsParams -> int)
  {
    |results| == |pushed| && forall k :: 0 <= k < |pushed| ==> results[k] == ResultOf(pushed[k], score)
  }

  function AlphaRuns(dt: DistType, dm: int, pk: int, alphas: seq<real>): seq<WsParams>
  {
    seq(|alphas|, i requires 0 <= i < |alphas| => WsParams(AlphaSplit(alphas[i]), dt, dm, pk))
  }

  function AbsoluteRuns(dt: DistType, dm: int, pk: int, absTs: seq<int>): seq<WsParams>
  {
    seq(|absTs|, i requires 0 <= i < |absTs| => WsParams(AbsoluteSplit(absTs[i]), dt, dm, pk))
  }

  /** The innermost two loops: every alpha, then every absolute level. */
  function ModeRuns(dt: DistType, dm: int, pk: int, alphas: seq<real>, absTs: seq<int>): seq<WsParams>
  {
    AlphaRuns(dt, dm, pk, alphas) + AbsoluteRuns(dt, dm, pk, absTs)
  }

  /** One more alpha run, seen after the runs `pushed`. */
  lemma AlphaRunsStep(pushed: seq<WsParams>, dt: DistType, dm: int, pk: int, alphas: seq<real>, i: nat)
    requires i < |alphas|
    ensures pushed + AlphaRuns(dt, dm, pk, alphas[..i + 1])
         == (pushed + AlphaRuns(dt, dm, pk, alphas[..i])) + [WsParams(AlphaSplit(alphas[i]), dt, dm, pk)]
  {
    assert AlphaRuns(dt, dm, pk, alphas[..i + 1])
        == AlphaRuns(dt, dm, pk, alphas[..i]) + [WsParams(AlphaSplit(alphas[i]), dt, dm, pk)];
  }

  /** One more absolute-level run, seen after the runs `pushed`. */
  lemma AbsoluteRunsStep(pushed: seq<WsParams>, dt: DistType, dm: int, pk: int, absTs: seq<int>, i: nat)
    requires i < |absTs|
    ensures pushed + AbsoluteRuns(dt, dm, pk, absTs[..i + 1])
         == (pushed + AbsoluteRuns(dt, dm, pk, absTs[..i])) + [WsParams(AbsoluteSplit(absTs[i]), dt, dm, pk)]
  {
    assert AbsoluteRuns(dt, dm, pk, absTs[..i + 1])
        == AbsoluteRuns(dt, dm, pk, absTs[..i]) + [WsParams(AbsoluteSplit(absTs[i]), dt, dm, pk)];
  }

  /** The alpha runs followed by the absolute runs are the mode runs. */
  lemma ModeRunsAfter(pushed: seq<WsParams>, dt: DistType, dm: int, pk: int, alphas: seq<real>, absTs: seq<int>)
    ensures (pushed + AlphaRuns(dt, dm, pk, alphas[..|alphas|])) + AbsoluteRuns(dt, dm, pk, absTs[..|absTs|])
         == pushed + ModeRuns(dt, dm, pk, alphas, absTs)
  {
    assert alphas[..|alphas|] == alphas && absTs[..|absTs|] == absTs;
  }

  function PkStep(dt: DistType, dm: int, alphas: seq<real>, absTs: seq<int>): int -> seq<WsParams>
  {
    pk => ModeRuns(dt, dm, pk, alphas, absTs)
  }

  function MaskStep(dt: DistType, pks: seq<int>, alphas: seq<real>, absTs: seq<int>): int -> seq<WsParams>
  {
    dm => FlatMap(pks, PkStep(dt, dm, alphas, absTs))
  }

  function DistStep(dms: seq<int>, pks: seq<int>, alphas: seq<real>, absTs: seq<int>): DistType -> seq<WsParams>
  {
    dt => FlatMap(dms, MaskStep(dt, pks, alphas, absTs))
  }

  /** The combinations in the order of the loops `distType > distMask > pk > (alphas, absTs)`. */
  function SweepOrder(dts: seq<DistType>, dms: seq<int>, pks: seq<int>, alphas: seq<real>, absTs: seq<int>): seq<WsParams>
  {
    FlatMap(dts, DistStep(dms, pks, alphas, absTs))
  }

  /** The sweep visits `|distTypes| * |distMasks| * |pkSizes| * (|alphas| + |absTs|)` combinations. */
  lemma {:induction false} SweepOrderLength(dts: seq<DistType>, dms: seq<int>, pks: seq<int>, alphas: seq<real>, absTs: seq<int>)
    ensures |SweepOrder(dts, dms, pks, alphas, absTs)| == |dts| * (|dms| * (|pks| * (|alphas| + |absTs|)))
  {
    var n := |alphas| + |absTs|;
    forall dt: DistType, dm: int
      ensures |FlatMap(pks, PkStep(dt, dm, alphas, absTs))| == |pks| * n
    {
      FlatMapLength(pks, PkStep(dt, dm, alphas, absTs), n);
    }
    forall dt: DistType
      ensures |FlatMap(dms, MaskStep(dt, pks, alphas, absTs))| == |dms| * (|pks| * n)
    {
      FlatMapLength(dms, MaskStep(dt, pks, alphas, absTs), |pks| * n);
    }
    FlatMapLength(dts, DistStep(dms, pks, alphas, absTs), |dms| * (|pks| * n));
  }

  /**
   * `totalCombos`, the product
   * `distTypes.length * distMasks.length * pkSizes.length * (alphas.length + absTs.length)`,
   * is exactly the number of combinations the loops visit.
   */
  function TotalCombos(dts: seq<DistType>, dms: seq<int>, pks: seq<int>, alphas: seq<real>, absTs: seq<int>): (n: nat)
    ensures n == |SweepOrder(dts, dms, pks, alphas, absTs)|
  {
    SweepOrderLength(dts, dms, pks, alphas, absTs);
    MulAssoc(|dts|, |dms|, |pks|, |alphas| + |absTs|);
    |dts| * |dms| * |pks| * (|alphas| + |absTs|)
  }

  lemma MulAssoc(a: nat, b: nat, c: nat, d: nat)
    ensures a * b * c * d == a * (b * (c * d))
  {
  }

  lemma ModeRunsDistinct(dt: DistType, dm: int, pk: int, alphas: seq<real>, absTs: seq<int>)
    requires Distinct(alphas) && Distinct(absTs)
    ensures Distinct(ModeRuns(dt, dm, pk, alphas, absTs))
    ensures forall p :: p in ModeRuns(dt, dm, pk, alphas, absTs) ==> p.distType == dt && p.distMask == dm && p.pk == pk
  {
    var a := AlphaRuns(dt, dm, pk, alphas);
    var b := AbsoluteRuns(dt, dm, pk, absTs);
    assert forall u :: u in a ==> u.split.AlphaSplit?;
    assert forall u :: u in b ==> u.split.AbsoluteSplit?;
    DistinctAppend(a, b);
  }

  lemma PksDistinct(dt: DistType, dm: int, pks: seq<int>, alphas: seq<real>, absTs: seq<int>)
    requires Distinct(pks) && Distinct(alphas) && Distinct(absTs)
    ensures Distinct(FlatMap(pks, PkStep(dt, dm, alphas, absTs)))
    ensures forall p :: p in FlatMap(pks, PkStep(dt, dm, alphas, absTs)) ==> p.distType == dt && p.distMask == dm
  {
    var f := PkStep(dt, dm, alphas, absTs);
    forall i | 0 <= i < |pks|
      ensures Distinct(f(pks[i]))
      ensures forall p :: p in f(pks[i]) ==> p.distType == dt && p.distMask == dm && p.pk == pks[i]
    {
      ModeRunsDistinct(dt, dm, pks[i], alphas, absTs);
    }
    FlatMapDistinct(pks, f);
    forall p: WsParams | p in FlatMap(pks, f)
      ensures p.distType == dt && p.distMask == dm
    {
      FlatMapMember(pks, f, p);
    }
  }

  lemma MasksDistinct(dt: DistType, dms: seq<int>, pks: seq<int>, alphas: seq<real>, absTs: seq<int>)
    requires Distinct(dms) && Distinct(pks) && Distinct(alphas) && Distinct(absTs)
    ensures Distinct(FlatMap(dms, MaskStep(dt, pks, alphas, absTs)))
    ensures forall p :: p in FlatMap(dms, MaskStep(dt, pks, alphas, absTs)) ==> p.distType == dt
  {
    var f := MaskStep(dt, pks, alphas, absTs);
    forall i | 0 <= i < |dms|
      ensures Distinct(f(dms[i]))
      ensures forall p :: p in f(dms[i]) ==> p.distType == dt && p.distMask == dms[i]
    {
      PksDistinct(dt, dms[i], pks, alphas, absTs);
    }
    FlatMapDistinct(dms, f);
    forall p: WsParams | p in FlatMap(dms, f)
      ensures p.distType == dt
    {
      FlatMapMember(dms, f, p);
    }
  }

  /**
   * With repeat-free lists (as the swept constants are) no combination is
   * visited twice, so no id is pushed twice.
   */
  lemma SweepOrderDistinct(dts: seq<DistType>, dms: seq<int>, pks: seq<int>, alphas: seq<real>, absTs: seq<int>)
    requires Distinct(dts) && Distinct(dms) && Distinct(pks) && Distinct(alphas) && Distinct(absTs)
    ensures Distinct(SweepOrder(dts, dms, pks, alphas, absTs))
    ensures forall i, j :: 0 <= i < j < |SweepOrder(dts, dms, pks, alphas, absTs)| ==>
      IdOf(SweepOrder(dts, dms, pks, alphas, absTs)[i]) != IdOf(SweepOrder(dts, dms, pks, alphas, absTs)[j])
  {
    var f := DistStep(dms, pks, alphas, absTs);
    forall i | 0 <= i < |dts|
      ensures Distinct(f(dts[i]))
      ensures forall p :: p in f(dts[i]) ==> p.distType == dts[i]
    {
      MasksDistinct(dts[i], dms, pks, alphas, absTs);
    }
    FlatMapDistinct(dts, f);
    var order := SweepOrder(dts, dms, pks, alphas, absTs);
    forall i, j | 0 <= i < j < |order|
      ensures IdOf(order[i]) != IdOf(order[j])
    {
      if IdOf(order[i]) == IdOf(order[j]) {
        IdInjective(order[i], order[j]);
      }
    }
  }

  /** Non-increasing by count: the order of the comparator `(a, b) => b.count - a.count`. */
  predicate SortedByCountDesc(s: seq<SweepResult>)
  {
    forall i, j :: 0 <= i < j < |s| ==> s[i].count >= s[j].count
  }

  /** The comparator `b.count - a.count` sorts by the key `-count`. */
  function NegCount(r: SweepResult): int
  {
    -r.count
  }

  /**
   * `results.sort((a, b) => b.count - a.count)` on a fresh array holding
   * the pushed records: the same records, by non-increasing count.
   */
  method SortRecords(s: seq<SweepResult>) returns (r: seq<SweepResult>)
    ensures SortedByCountDesc(r)
    ensures multiset(r) == multiset(s)
    ensures |r| == |s|
  {
    var a := new SweepResult[|s|](k requires 0 <= k < |s| => s[k]);
    assert a[..] == s;
    SortBy(a, NegCount);
    r := a[..];
    assert forall i, j :: 0 <= i < j < |r| ==> NegCount(r[i]) <= NegCount(r[j]);
    assert |r| == |multiset(r)| == |multiset(s)| == |s|;
  }
}
