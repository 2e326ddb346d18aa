/**
  utils/map.py, `voc_ap` and the precision/recall part of `eval_mAP`. The reference definition of
  average precision adds, over the true positives, the best precision from there on, divided by the
  number of ground-truth boxes; the code gets there through sentinels, an in-place envelope and a
  sum over the points where recall changes.
*/
module AveragePrecision {
  import opened Rounding
  import opened Ordering
  import opened Matching

  // ---------- cumulative sums, in place ----------

  method CumulativeSum(a: array<int>)
    modifies a
    ensures forall i :: 0 <= i < a.Length ==> a[i] == SumTo(old(a[..]), i + 1)
  {
    ghost var was := a[..];
    var cumsum := 0;
    for idx := 0 to a.Length
      invariant cumsum == SumTo(was, idx)
      invariant forall i :: 0 <= i < idx ==> a[i] == SumTo(was, i + 1)
      invariant forall i :: idx <= i < a.Length ==> a[i] == was[i]
    {
      var val := a[idx];
      a[idx] := a[idx] + cumsum;
      cumsum := cumsum + val;
    }
  }

  // ---------- the envelope, in place ----------

  /** The largest value from position i on. */
  function SuffixMax(s: seq<real>, i: nat): real
    requires i < |s|
    decreases |s| - i
  {
    if i + 1 == |s| then s[i] else MaxReal(s[i], SuffixMax(s, i + 1))
  }

  lemma {:induction false} SuffixMaxIsMax(s: seq<real>, i: nat)
    requires i < |s|
    ensures forall j :: i <= j < |s| ==> s[j] <= SuffixMax(s, i)
    ensures exists j :: i <= j < |s| && s[j] == SuffixMax(s, i)
    decreases |s| - i
  {
    if i + 1 < |s| {
      SuffixMaxIsMax(s, i + 1);
      var j :| i + 1 <= j < |s| && s[j] == SuffixMax(s, i + 1);
      assert s[i] == SuffixMax(s, i) || s[j] == SuffixMax(s, i);
    } else {
      assert s[i] == SuffixMax(s, i);
    }
  }

  method Envelope(mpre: array<real>)
    modifies mpre
    ensures forall i :: 0 <= i < mpre.Length ==> mpre[i] == SuffixMax(old(mpre[..]), i)
  {
    ghost var was := mpre[..];
    var i := mpre.Length - 1;
    while i > 0
      invariant mpre.Length > 0 ==> 0 <= i < mpre.Length
      invariant forall k :: 0 <= k < i ==> mpre[k] == was[k]
      invariant forall k :: 0 <= i <= k < mpre.Length ==> mpre[k] == SuffixMax(was, k)
    {
      mpre[i - 1] := MaxReal(mpre[i - 1], mpre[i]);
      i := i - 1;
    }
  }

  // ---------- area under the envelope ----------

  /** The best precision from position i on; nothing is left after the last. */
  function Peak(prec: seq<real>, i: nat): real
    requires i <= |prec|
    decreases |prec| - i
  {
    if i == |prec| then 0.0 else MaxReal(prec[i], Peak(prec, i + 1))
  }

  function Before(rec: seq<real>, i: nat): real
    requires i <= |rec|
  {
    if i == 0 then 0.0 else rec[i - 1]
  }

  function Strip(rec: seq<real>, prec: seq<real>, i: nat): real
    requires |rec| == |prec| && i < |rec|
  {
    (rec[i] - Before(rec, i)) * Peak(prec, i)
  }

  /**
    Interpolated average precision of any recall/precision curve: each rise in recall at the best precision
    from there on.
  */
  function AreaFrom(rec: seq<real>, prec: seq<real>, i: nat): real
    requires |rec| == |prec| && i <= |rec|
    decreases |rec| - i
  {
    if i == |rec| then 0.0 else Strip(rec, prec, i) + AreaFrom(rec, prec, i + 1)
  }

  /** What the code sums: the steps at which mrec changes. */
  function StepSum(mrec: seq<real>, mpre: seq<real>, i: nat): real
    requires |mrec| == |mpre| && i < |mrec|
    decreases |mrec| - i
  {
    if i + 1 == |mrec| then 0.0
    else (if mrec[i + 1] != mrec[i] then (mrec[i + 1] - mrec[i]) * mpre[i + 1] else 0.0) + StepSum(mrec, mpre, i + 1)
  }

  method VocAp(rec: seq<real>, prec: seq<real>) returns (ap: real, mrec: seq<real>, mpre: array<real>)
    requires |rec| == |prec|
    ensures ap == AreaFrom(rec, prec, 0)
    ensures mrec == [0.0] + rec + [1.0]
    ensures fresh(mpre) && mpre.Length == |mrec|
    ensures forall i :: 0 <= i <= |prec| ==> mpre[i + 1] == Peak(prec, i)
  {
    mrec := [0.0] + rec + [1.0];
    var padded := [0.0] + prec + [0.0];
    mpre := new real[|padded|](i requires 0 <= i < |padded| => padded[i]);
    assert mpre[..] == padded;
    Envelope(mpre);
    ap := StepSum(mrec, mpre[..], 0);

    forall i: nat | i <= |prec| ensures mpre[i + 1] == Peak(prec, i) { PaddedPeak(prec, i); }
    StepSumIsArea(rec, prec, mrec, mpre[..], 0);
  }

  lemma {:induction false} PaddedPeak(prec: seq<real>, i: nat)
    requires i <= |prec|
    ensures SuffixMax([0.0] + prec + [0.0], i + 1) == Peak(prec, i)
    decreases |prec| - i
  {
    if i < |prec| {
      PaddedPeak(prec, i + 1);
      assert ([0.0] + prec + [0.0])[i + 1] == prec[i];
    }
  }

  /** The 1.0 sentinel costs nothing, and skipping equal recalls skips only zero-width strips. */
  lemma {:induction false} StepSumIsArea(rec: seq<real>, prec: seq<real>, mrec: seq<real>, mpre: seq<real>, i: nat)
    requires |rec| == |prec| && i <= |rec|
    requires mrec == [0.0] + rec + [1.0] && |mpre| == |mrec|
    requires forall k :: 0 <= k <= |prec| ==> mpre[k + 1] == Peak(prec, k)
    ensures StepSum(mrec, mpre, i) == AreaFrom(rec, prec, i)
    decreases |rec| - i
  {
    assert mrec[i] == Before(rec, i);
    if i < |rec| {
      StepSumIsArea(rec, prec, mrec, mpre, i + 1);
      assert mrec[i + 1] == rec[i];
    } else {
      assert mpre[i + 1] == 0.0;
    }
  }

  // ---------- from flags to average precision ----------

  function Recalls(tp: seq<int>, npos: nat): (rec: seq<real>)
    requires npos > 0
    ensures |rec| == |tp|
  {
    if tp == [] then [] else Recalls(tp[..|tp| - 1], npos) + [SumTo(tp, |tp|) as real / npos as real]
  }

  lemma {:induction false} RecallsAt(tp: seq<int>, npos: nat, i: nat)
    requires npos > 0 && i < |tp|
    ensures Recalls(tp, npos)[i] == SumTo(tp, i + 1) as real / npos as real
  {
    var n := |tp| - 1;
    if i < n {
      RecallsAt(tp[..n], npos, i);
      SumOfPrefix(tp[..n], tp, i + 1);
    }
  }

  const EPSILON := 0.000001

  function PrecisionAt(tp: seq<int>, fp: seq<int>, i: nat): real
    requires |tp| == |fp| && i < |tp|
    requires SumTo(fp, i + 1) >= 0 && SumTo(tp, i + 1) >= 0
  {
    SumTo(tp, i + 1) as real / ((SumTo(fp, i + 1) + SumTo(tp, i + 1)) as real + EPSILON)
  }

  ghost predicate AreFlags(s: seq<int>) { forall i :: 0 <= i < |s| ==> s[i] == 0 || s[i] == 1 }

  lemma {:induction false} FlagSums(s: seq<int>, n: nat)
    requires AreFlags(s) && n <= |s|
    ensures 0 <= SumTo(s, n) <= n
    ensures forall m: nat :: m <= n ==> SumTo(s, m) <= SumTo(s, n)
  {
    if n > 0 { FlagSums(s, n - 1); }
  }

  ghost function Precisions(tp: seq<int>, fp: seq<int>): (prec: seq<real>)
    requires |tp| == |fp| && AreFlags(tp) && AreFlags(fp)
    ensures |prec| == |tp|
  {
    seq(|tp|, i requires 0 <= i < |tp| => FlagSums(tp, i + 1); FlagSums(fp, i + 1); PrecisionAt(tp, fp, i))
  }

  /** Precision is the share of hits among the detections so far, with 0.000001 added to their number. */
  ghost predicate AreShares(prec: seq<real>, tp: seq<int>, fp: seq<int>)
  {
    && |prec| == |tp| == |fp|
    && forall i: nat :: i < |prec| ==> IsShare(prec[i], SumTo(tp, i + 1), SumTo(fp, i + 1))
  }

  predicate IsShare(p: real, hits: int, misses: int)
  {
    p * ((hits + misses) as real + 0.000001) == hits as real
  }

  /** Recall is the share of the ground-truth boxes hit so far. */
  ghost predicate AreRecalls(rec: seq<real>, tp: seq<int>, npos: nat)
  {
    |rec| == |tp| && forall i: nat :: i < |rec| ==> IsPart(rec[i], SumTo(tp, i + 1), npos)
  }

  predicate IsPart(r: real, hits: int, npos: nat) { r * npos as real == hits as real }

  lemma QuotientBack(a: real, b: real)
    requires b != 0.0
    ensures a / b * b == a
  {
  }

  lemma PrecisionsAreShares(tp: seq<int>, fp: seq<int>)
    requires |tp| == |fp| && AreFlags(tp) && AreFlags(fp)
    ensures AreShares(Precisions(tp, fp), tp, fp)
  {
    var prec := Precisions(tp, fp);
    forall i: nat | i < |tp|
      ensures IsShare(prec[i], SumTo(tp, i + 1), SumTo(fp, i + 1))
    {
      FlagSums(tp, i + 1);
      FlagSums(fp, i + 1);
      QuotientBack(SumTo(tp, i + 1) as real, (SumTo(fp, i + 1) + SumTo(tp, i + 1)) as real + EPSILON);
    }
  }

  lemma RecallsAreShares(tp: seq<int>, npos: nat)
    requires npos > 0
    ensures AreRecalls(Recalls(tp, npos), tp, npos)
  {
    forall i: nat | i < |tp| ensures IsPart(Recalls(tp, npos)[i], SumTo(tp, i + 1), npos) {
      RecallIsPart(tp, npos, i);
    }
  }

  lemma RecallIsPart(tp: seq<int>, npos: nat, i: nat)
    requires npos > 0 && i < |tp|
    ensures IsPart(Recalls(tp, npos)[i], SumTo(tp, i + 1), npos)
  {
    RecallsAt(tp, npos, i);
    QuotientIsPart(Recalls(tp, npos)[i], SumTo(tp, i + 1), npos);
  }

  lemma QuotientIsPart(r: real, hits: int, npos: nat)
    requires npos > 0 && r == hits as real / npos as real
    ensures IsPart(r, hits, npos)
  {
    QuotientBack(hits as real, npos as real);
  }

  /** The added 0.000001 takes precision down from the true share, by less than itself. */
  lemma PrecisionIsNearShare(prec: seq<real>, tp: seq<int>, fp: seq<int>, i: nat, hits: nat, all: nat)
    requires AreShares(prec, tp, fp) && AreFlags(tp) && AreFlags(fp) && i < |tp|
    requires hits == SumTo(tp, i + 1) && all == hits + SumTo(fp, i + 1) && all > 0
    ensures IsNearShare(prec[i], hits, all)
  {
    FlagSumAt(fp, i + 1);
    NearShare(hits, all, prec[i]);
  }

  /** p is at most the share hits / all, and less than 0.000001 below it. */
  predicate IsNearShare(p: real, hits: nat, all: nat)
  {
    p * all as real <= hits as real < (p + 0.000001) * all as real
  }

  lemma NearShare(hits: nat, all: nat, p: real)
    requires hits <= all && all > 0 && IsShare(p, hits, all - hits)
    ensures IsNearShare(p, hits, all)
  {
    ShareBounds(p, hits, all - hits);
    Distribute(p, all as real, 0.000001);
    ShareExceeded(p, hits as real, all as real, p * all as real);
  }

  lemma ShareExceeded(p: real, hits: real, all: real, product: real)
    requires 0.0 <= p < 1.0 <= all && product == p * all && product + p * 0.000001 == hits
    ensures product <= hits < (p + 0.000001) * all
  {
  }

  lemma ShareBounds(p: real, hits: nat, misses: nat)
    requires IsShare(p, hits, misses)
    ensures 0.0 <= p < 1.0
  {
    var m := (hits + misses) as real + 0.000001;
    if p < 0.0 { Ordered(p, 0.0, m); }
    if p >= 1.0 { Ordered(1.0, p, m); }
  }

  lemma FlagSumAt(s: seq<int>, n: nat)
    requires AreFlags(s) && n <= |s|
    ensures 0 <= SumTo(s, n) <= n
  {
    FlagSums(s, n);
  }

  lemma Ordered(a: real, b: real, m: real)
    requires a <= b && m > 0.0
    ensures a * m <= b * m && (a < b ==> a * m < b * m)
  {
    assert (b - a) * m >= 0.0;
    assert a < b ==> (b - a) * m > 0.0;
  }

  /** The reference definition, times npos: over the true positives from i on, the best precision from there on. */
  ghost function PeaksAtHits(tp: seq<int>, prec: seq<real>, i: nat): real
    requires |tp| == |prec| && i <= |tp|
    decreases |tp| - i
  {
    if i == |tp| then 0.0 else (if tp[i] == 1 then Peak(prec, i) else 0.0) + PeaksAtHits(tp, prec, i + 1)
  }

  function SumFrom(s: seq<real>, i: nat): real
    requires i <= |s|
    decreases |s| - i
  {
    if i == |s| then 0.0 else s[i] + SumFrom(s, i + 1)
  }

  lemma {:induction false} AreaIsSum(rec: seq<real>, prec: seq<real>, strips: seq<real>, i: nat)
    requires |rec| == |prec| == |strips| && i <= |rec|
    requires forall k: nat :: k < |strips| ==> strips[k] == Strip(rec, prec, k)
    ensures AreaFrom(rec, prec, i) == SumFrom(strips, i)
    decreases |rec| - i
  {
    if i < |rec| { AreaIsSum(rec, prec, strips, i + 1); }
  }

  /** Every hit contributes its peak, times the same unit of recall. */
  ghost predicate AreUnitStrips(strips: seq<real>, tp: seq<int>, prec: seq<real>, unit: real)
  {
    && |strips| == |tp| == |prec|
    && forall k :: 0 <= k < |tp| ==> strips[k] == if tp[k] == 1 then unit * Peak(prec, k) else 0.0
  }

  lemma {:induction false} UnitStripsAddUp(strips: seq<real>, tp: seq<int>, prec: seq<real>, unit: real, i: nat)
    requires AreUnitStrips(strips, tp, prec, unit) && i <= |tp|
    ensures SumFrom(strips, i) == unit * PeaksAtHits(tp, prec, i)
    decreases |tp| - i
  {
    if i < |tp| {
      UnitStripsAddUp(strips, tp, prec, unit, i + 1);
      Distribute(unit, if tp[i] == 1 then Peak(prec, i) else 0.0, PeaksAtHits(tp, prec, i + 1));
    }
  }

  lemma Distribute(u: real, a: real, b: real)
    ensures u * (a + b) == u * a + u * b
  {
  }

  /** Recall rises by the same unit at every hit, and not at all at a miss. */
  ghost predicate StepsAtHits(rec: seq<real>, tp: seq<int>, unit: real)
  {
    && |rec| == |tp|
    && forall k {:trigger tp[k]} :: 0 <= k < |tp| ==> rec[k] - Before(rec, k) == if tp[k] == 1 then unit else 0.0
  }

  lemma RecallSteps(tp: seq<int>, npos: nat, unit: real)
    requires npos > 0 && AreFlags(tp) && unit == 1.0 / npos as real
    ensures StepsAtHits(Recalls(tp, npos), tp, unit)
  {
    var rec := Recalls(tp, npos);
    forall k: nat | k < |tp| ensures rec[k] - Before(rec, k) == if tp[k] == 1 then unit else 0.0 {
      RecallsAt(tp, npos, k);
      if k > 0 { RecallsAt(tp, npos, k - 1); }
      assert SumTo(tp, k + 1) as real == SumTo(tp, k) as real + tp[k] as real;
      FractionStep(SumTo(tp, k) as real, tp[k] as real, npos as real);
    }
  }

  lemma FractionStep(a: real, d: real, n: real)
    requires n > 0.0
    ensures (a + d) / n - a / n == d / n && 0.0 / n == 0.0
  {
  }

  lemma StripValue(strip: real, after: real, before: real, peak: real, hit: bool, unit: real)
    requires strip == (after - before) * peak && after - before == (if hit then unit else 0.0)
    ensures strip == if hit then unit * peak else 0.0
  {
  }

  lemma AreaOfUnits(rec: seq<real>, tp: seq<int>, prec: seq<real>, unit: real, i: nat)
    requires |tp| == |prec| && i <= |tp| && StepsAtHits(rec, tp, unit)
    ensures AreaFrom(rec, prec, i) == unit * PeaksAtHits(tp, prec, i)
  {
    var strips := seq(|rec|, k requires 0 <= k < |rec| => Strip(rec, prec, k));
    forall k: nat | k < |tp| ensures strips[k] == if tp[k] == 1 then unit * Peak(prec, k) else 0.0 {
      StripValue(strips[k], rec[k], Before(rec, k), Peak(prec, k), tp[k] == 1, unit);
    }
    AreaIsSum(rec, prec, strips, i);
    UnitStripsAddUp(strips, tp, prec, unit, i);
  }

  lemma TimesUnit(a: real, n: real, unit: real)
    requires n > 0.0 && unit == 1.0 / n
    ensures unit * a == a / n
  {
  }

  lemma AreaIsPeaksAtHits(tp: seq<int>, prec: seq<real>, npos: nat, i: nat)
    requires |tp| == |prec| && AreFlags(tp) && npos > 0 && i <= |tp|
    ensures AreaFrom(Recalls(tp, npos), prec, i) == PeaksAtHits(tp, prec, i) / npos as real
  {
    var unit := 1.0 / npos as real;
    RecallSteps(tp, npos, unit);
    AreaOfUnits(Recalls(tp, npos), tp, prec, unit, i);
    TimesUnit(PeaksAtHits(tp, prec, i), npos as real, unit);
  }

  lemma {:induction false} PeakBounds(prec: seq<real>, i: nat)
    requires i <= |prec| && forall k :: 0 <= k < |prec| ==> 0.0 <= prec[k] <= 1.0
    ensures 0.0 <= Peak(prec, i) <= 1.0
    decreases |prec| - i
  {
    if i < |prec| { PeakBounds(prec, i + 1); }
  }

  lemma {:induction false} HitsBoundPeaks(tp: seq<int>, prec: seq<real>, i: nat)
    requires |tp| == |prec| && AreFlags(tp) && i <= |tp|
    requires forall k :: 0 <= k < |prec| ==> 0.0 <= prec[k] <= 1.0
    ensures 0.0 <= PeaksAtHits(tp, prec, i) <= (SumTo(tp, |tp|) - SumTo(tp, i)) as real
    decreases |tp| - i
  {
    if i < |tp| {
      HitsBoundPeaks(tp, prec, i + 1);
      PeakBounds(prec, i);
    }
  }

  lemma PrecisionBounds(tp: seq<int>, fp: seq<int>)
    requires |tp| == |fp| && AreFlags(tp) && AreFlags(fp)
    ensures forall k :: 0 <= k < |tp| ==> 0.0 <= Precisions(tp, fp)[k] <= 1.0
  {
    forall k: nat | k < |tp| ensures 0.0 <= Precisions(tp, fp)[k] <= 1.0 {
      FlagSums(tp, k + 1);
      FlagSums(fp, k + 1);
      var hits, all := SumTo(tp, k + 1) as real, (SumTo(fp, k + 1) + SumTo(tp, k + 1)) as real + EPSILON;
      QuotientBounds(hits, all);
    }
  }

  lemma QuotientBounds(a: real, b: real)
    requires 0.0 <= a <= b && b > 0.0
    ensures 0.0 <= a / b <= 1.0
  {
    var q := a / b;
    assert q * b == a;
  }

  ghost function AveragePrecision(tp: seq<int>, fp: seq<int>, npos: nat): real
    requires |tp| == |fp| && AreFlags(tp) && AreFlags(fp) && npos > 0
  {
    PeaksAtHits(tp, Precisions(tp, fp), 0) / npos as real
  }

  /** Average precision never exceeds the final recall. */
  lemma AtMostFinalRecall(tp: seq<int>, fp: seq<int>, npos: nat)
    requires |tp| == |fp| && AreFlags(tp) && AreFlags(fp) && npos > 0
    ensures 0.0 <= AveragePrecision(tp, fp, npos) <= SumTo(tp, |tp|) as real / npos as real
  {
    PrecisionBounds(tp, fp);
    HitsBoundPeaks(tp, Precisions(tp, fp), 0);
    Divided(PeaksAtHits(tp, Precisions(tp, fp), 0), SumTo(tp, |tp|) as real, npos as real);
  }

  lemma Divided(a: real, b: real, n: real)
    requires 0.0 <= a <= b && n > 0.0
    ensures 0.0 <= a / n <= b / n
  {
    var p, q := a / n, b / n;
    assert p * n == a && q * n == b;
  }

  /** Misses ranked below everything else cost nothing. */
  lemma TrailingMissIsFree(tp: seq<int>, fp: seq<int>, npos: nat)
    requires |tp| == |fp| && AreFlags(tp) && AreFlags(fp) && npos > 0
    ensures AreFlags(tp + [0]) && AreFlags(fp + [1])
    ensures AveragePrecision(tp + [0], fp + [1], npos) == AveragePrecision(tp, fp, npos)
  {
    var prec, prec' := Precisions(tp, fp), Precisions(tp + [0], fp + [1]);
    forall k: nat | k < |tp| ensures prec'[k] == prec[k] {
      SumOfPrefix(tp, tp + [0], k + 1);
      SumOfPrefix(fp, fp + [1], k + 1);
    }
    PrecisionBounds(tp + [0], fp + [1]);
    PrecisionsAreShares(tp, fp);
    PrecisionsAreShares(tp + [0], fp + [1]);
    if |tp| > 0 { LastPrecisionFalls(tp, fp, prec, prec'); }
    PeaksUnmoved(tp, prec, prec', 0);
  }

  // ---------- a ranking whose hits come last ----------

  /** f misses, and then nothing but hits. */
  ghost predicate IsHitsAfterMisses(tp: seq<int>, fp: seq<int>, f: nat)
  {
    && |tp| == |fp| && f < |tp|
    && forall i :: 0 <= i < |tp| ==> tp[i] == (if i < f then 0 else 1) && fp[i] == 1 - tp[i]
  }

  lemma {:induction false} SumsAfterMisses(tp: seq<int>, fp: seq<int>, f: nat, n: nat)
    requires IsHitsAfterMisses(tp, fp, f) && n <= |tp|
    ensures SumTo(tp, n) == (if n <= f then 0 else n - f) && SumTo(fp, n) == n - SumTo(tp, n)
  {
    if n > 0 { SumsAfterMisses(tp, fp, f, n - 1); }
  }

  /** With more hits among the detections, and no more misses, precision rises. */
  lemma ShareRises(k: real, t: real, rest: real, p: real, q: real)
    requires 0.0 <= k <= t && rest > 0.0 && p * (k + rest) == k && q * (t + rest) == t
    ensures p <= q
  {
    var m := (k + rest) * (t + rest);
    assert m > 0.0;
    CrossProducts(k, t, rest, p, q);
    if p > q { Ordered(q, p, m); }
  }

  lemma CrossProducts(k: real, t: real, rest: real, p: real, q: real)
    requires 0.0 <= k <= t && rest > 0.0 && p * (k + rest) == k && q * (t + rest) == t
    ensures p * ((k + rest) * (t + rest)) <= q * ((k + rest) * (t + rest))
  {
    assert p * ((k + rest) * (t + rest)) == k * (t + rest);
    assert q * ((k + rest) * (t + rest)) == t * (k + rest);
    Ordered(k, t, rest);
  }

  lemma {:induction false} PeakIsLast(prec: seq<real>, i: nat)
    requires i < |prec| && forall j :: i <= j < |prec| ==> 0.0 <= prec[j] <= prec[|prec| - 1]
    ensures Peak(prec, i) == prec[|prec| - 1]
    decreases |prec| - i
  {
    if i + 1 < |prec| { PeakIsLast(prec, i + 1); }
  }

  lemma {:induction false} PeaksAreLast(tp: seq<int>, fp: seq<int>, prec: seq<real>, f: nat, i: nat)
    requires IsHitsAfterMisses(tp, fp, f) && |prec| == |tp| && i <= |tp|
    requires forall j :: 0 <= j < |prec| ==> 0.0 <= prec[j] <= prec[|prec| - 1]
    ensures i >= f ==> PeaksAtHits(tp, prec, i) == (|tp| - i) as real * prec[|prec| - 1]
    ensures i <= f ==> PeaksAtHits(tp, prec, i) == (|tp| - f) as real * prec[|prec| - 1]
    decreases |tp| - i
  {
    if i < |tp| {
      PeaksAreLast(tp, fp, prec, f, i + 1);
      if i >= f {
        PeakIsLast(prec, i);
        OneMore(|tp| - i, prec[|prec| - 1]);
      }
    }
  }

  lemma OneMore(n: nat, p: real)
    ensures n as real * p == p + (n - 1) as real * p
  {
  }

  lemma PrecisionsRise(tp: seq<int>, fp: seq<int>, prec: seq<real>, f: nat, j: nat)
    requires IsHitsAfterMisses(tp, fp, f) && AreShares(prec, tp, fp) && j < |tp|
    ensures prec[j] <= prec[|tp| - 1]
  {
    var n := |tp|;
    SumsAfterMisses(tp, fp, f, j + 1);
    SumsAfterMisses(tp, fp, f, n);
    var t := (n - f) as real;
    if j < f {
      assert prec[j] * ((j + 1) as real + 0.000001) == 0.0;
      assert prec[n - 1] * (t + f as real + 0.000001) == t;
      ShareRises(0.0, t, f as real + 0.000001, 0.0, prec[n - 1]);
      OnlyZero(prec[j], (j + 1) as real + 0.000001);
    } else {
      ShareRises((j + 1 - f) as real, t, f as real + 0.000001, prec[j], prec[n - 1]);
    }
  }

  lemma LastIsLargest(tp: seq<int>, fp: seq<int>, prec: seq<real>, f: nat)
    requires IsHitsAfterMisses(tp, fp, f) && AreShares(prec, tp, fp)
    ensures forall j :: 0 <= j < |prec| ==> prec[j] <= prec[|prec| - 1]
  {
    forall j: nat | j < |prec| ensures prec[j] <= prec[|prec| - 1] {
      PrecisionsRise(tp, fp, prec, f, j);
    }
  }

  lemma OnlyZero(p: real, m: real)
    requires p * m == 0.0 && m > 0.0
    ensures p == 0.0
  {
  }

  /** Average precision of t hits ranked behind f misses: the t-th part of each, at the final precision. */
  lemma HitsAfterMisses(tp: seq<int>, fp: seq<int>, f: nat, npos: nat)
    requires IsHitsAfterMisses(tp, fp, f) && AreFlags(tp) && AreFlags(fp) && npos > 0
    ensures var t := |tp| - f;
            AveragePrecision(tp, fp, npos) == t as real / npos as real * (t as real / (|tp| as real + 0.000001))
  {
    var t := |tp| - f;
    var p := PeaksOfHits(tp, fp, f);
    ShareOfAll(PeaksAtHits(tp, Precisions(tp, fp), 0), t, |tp|, npos as real, p);
  }

  lemma PeaksOfHits(tp: seq<int>, fp: seq<int>, f: nat) returns (p: real)
    requires IsHitsAfterMisses(tp, fp, f) && AreFlags(tp) && AreFlags(fp)
    ensures PeaksAtHits(tp, Precisions(tp, fp), 0) == (|tp| - f) as real * p && IsShare(p, |tp| - f, f)
  {
    var prec := Precisions(tp, fp);
    p := prec[|tp| - 1];
    PrecisionsAreShares(tp, fp);
    PrecisionBounds(tp, fp);
    LastIsLargest(tp, fp, prec, f);
    PeaksAreLast(tp, fp, prec, f, 0);
    LastShare(tp, fp, prec, f);
  }

  lemma LastShare(tp: seq<int>, fp: seq<int>, prec: seq<real>, f: nat)
    requires IsHitsAfterMisses(tp, fp, f) && AreShares(prec, tp, fp)
    ensures IsShare(prec[|tp| - 1], |tp| - f, f)
  {
    SumsAfterMisses(tp, fp, f, |tp|);
    assert IsShare(prec[|tp| - 1], SumTo(tp, |tp|), SumTo(fp, |tp|));
  }

  lemma ShareOfAll(peaks: real, t: nat, n: nat, npos: real, p: real)
    requires npos > 0.0 && t <= n && peaks == t as real * p && IsShare(p, t, n - t)
    ensures peaks / npos == t as real / npos * (t as real / (n as real + 0.000001))
  {
    QuotientBack(t as real, n as real + 0.000001);
    SameFactor(p, t as real / (n as real + 0.000001), n as real + 0.000001);
    ProductOverQuotient(t as real, p, npos);
  }

  lemma SameFactor(p: real, q: real, m: real)
    requires m > 0.0 && p * m == q * m
    ensures p == q
  {
    if p < q { Ordered(p, q, m); } else if q < p { Ordered(q, p, m); }
  }

  lemma ProductOverQuotient(a: real, p: real, n: real)
    requires n > 0.0
    ensures a * p / n == a / n * p
  {
    QuotientBack(a, n);
    QuotientBack(a * p, n);
    assert a / n * p * n == a * p;
    SameFactor(a * p / n, a / n * p, n);
  }

  /** A ranking without misses that finds all boxes. */
  lemma PerfectRanking(tp: seq<int>, fp: seq<int>, npos: nat)
    requires IsHitsAfterMisses(tp, fp, 0) && AreFlags(tp) && AreFlags(fp) && |tp| == npos
    ensures AveragePrecision(tp, fp, npos) == npos as real / (npos as real + 0.000001)
  {
    HitsAfterMisses(tp, fp, 0, npos);
    assert npos as real / npos as real == 1.0;
  }

  /** One more miss takes precision down. */
  lemma LastPrecisionFalls(tp: seq<int>, fp: seq<int>, prec: seq<real>, prec': seq<real>)
    requires AreShares(prec, tp, fp) && AreShares(prec', tp + [0], fp + [1]) && tp != []
    requires AreFlags(tp) && AreFlags(fp)
    ensures prec'[|tp|] <= prec[|tp| - 1]
  {
    var n := |tp|;
    FlagSumAt(tp, n);
    FlagSumAt(fp, n);
    SumOfPrefix(tp, tp + [0], n);
    SumOfPrefix(fp, fp + [1], n);
    assert IsShare(prec[n - 1], SumTo(tp, n), SumTo(fp, n));
    assert IsShare(prec'[n], SumTo(tp + [0], n + 1), SumTo(fp + [1], n + 1));
    ShareFalls(prec[n - 1], prec'[n], SumTo(tp, n), SumTo(fp, n));
  }

  lemma ShareFalls(p: real, q: real, hits: nat, misses: nat)
    requires IsShare(p, hits, misses) && IsShare(q, hits, misses + 1)
    ensures q <= p
  {
    var m := (hits + misses) as real + 0.000001;
    ShareBounds(q, hits, misses + 1);
    assert (hits + (misses + 1)) as real + 0.000001 == m + 1.0;
    Distribute(q, m, 1.0);
    if q > p { Ordered(p, q, m); }
  }

  lemma {:induction false} PeaksUnmoved(tp: seq<int>, prec: seq<real>, prec': seq<real>, i: nat)
    requires |tp| == |prec| && |prec'| == |prec| + 1 && prec' == prec + [prec'[|prec|]] && i <= |tp|
    requires |prec| > 0 ==> 0.0 <= prec'[|prec|] <= prec[|prec| - 1]
    ensures PeaksAtHits(tp + [0], prec', i) == PeaksAtHits(tp, prec, i)
    ensures i < |tp| ==> Peak(prec', i) == Peak(prec, i)
    decreases |tp| - i
  {
    var n := |tp|;
    if i < n {
      PeaksUnmoved(tp, prec, prec', i + 1);
      assert (tp + [0])[i] == tp[i] && prec'[i] == prec[i];
      assert Peak(prec', n + 1) == 0.0 && Peak(prec, n) == 0.0;
      assert Peak(prec', n) == MaxReal(prec'[n], 0.0);
      assert Peak(prec', i) == MaxReal(prec'[i], Peak(prec', i + 1));
      assert Peak(prec, i) == MaxReal(prec[i], Peak(prec, i + 1));
    } else {
      assert (tp + [0])[n] == 0 && PeaksAtHits(tp + [0], prec', n + 1) == 0.0;
    }
  }

  // ---------- one class, from detections to average precision ----------

  method EvaluateClass(store: Store, detections: seq<Detection>, c: Setting, gtCount: nat)
    returns (ap: real, rec: seq<real>, prec: seq<real>, hits: seq<int>, misses: seq<int>)
    requires c.minOverlap > -1.0
    requires forall d :: d in detections ==> d.fileId in store.files
    requires AllUnused(store.files, c.className)
    requires gtCount == |Positives(store.files, c.className)| > 0
    modifies store
    ensures var ranked := SortBy(detections, (d: Detection) => -d.confidence);
            && |ranked| == |rec| == |prec| && (forall d :: d in ranked ==> d.fileId in old(store.files))
            && (forall i, j :: 0 <= i < j < |ranked| ==> ranked[i].confidence >= ranked[j].confidence)
            && Scored(old(store.files), ClaimsOf(old(store.files), ranked, c), hits, misses, |ranked|)
            && Marked(old(store.files), store.files, ClaimsOf(old(store.files), ranked, c), |ranked|)
    ensures AreFlags(hits) && AreFlags(misses) && |hits| == |misses|
    ensures rec == Recalls(hits, gtCount) && prec == Precisions(hits, misses)
    ensures AreRecalls(rec, hits, gtCount) && AreShares(prec, hits, misses)
    ensures ap == AveragePrecision(hits, misses, gtCount)
    ensures forall i, j :: 0 <= i <= j < |rec| ==> 0.0 <= rec[i] <= rec[j] <= 1.0
    ensures 0.0 <= ap <= if rec == [] then 0.0 else rec[|rec| - 1]
  {
    var drData := SortBy(detections, (d: Detection) => -d.confidence);
    RankedSame(detections);
    RankedDescends(detections);
    var count;
    ghost var start := store.files;
    hits, misses, count := store.AssignDetections(drData, c);
    FlagsScored(start, ClaimsOf(start, drData, c), hits, misses);
    HitsAreUsedBoxes(start, store.files, drData, c, hits, misses);
    ap, rec, prec := PrecisionRecall(hits, misses, gtCount);
    AtMostFinalRecall(hits, misses, gtCount);
    if hits != [] { RecallsAt(hits, gtCount, |hits| - 1); }
    RecallsRise(hits, gtCount);
  }

  lemma FlagsScored(files: Files, cs: seq<Claim>, tp: seq<int>, fp: seq<int>)
    requires Scored(files, cs, tp, fp, |cs|)
    ensures AreFlags(tp) && AreFlags(fp) && |tp| == |fp| == |cs|
  {
  }

  method PrecisionRecall(hits: seq<int>, misses: seq<int>, gtCount: nat)
    returns (ap: real, rec: seq<real>, prec: seq<real>)
    requires |hits| == |misses| && AreFlags(hits) && AreFlags(misses) && gtCount > 0
    ensures rec == Recalls(hits, gtCount) && prec == Precisions(hits, misses)
    ensures AreRecalls(rec, hits, gtCount) && AreShares(prec, hits, misses)
    ensures ap == AveragePrecision(hits, misses, gtCount)
  {
    var nd := |hits|;
    var tp, fp := new int[nd], new int[nd];
    for i := 0 to nd
      invariant hits[..i] == tp[..i] && misses[..i] == fp[..i]
    {
      tp[i], fp[i] := hits[i], misses[i];
    }
    assert tp[..] == hits && fp[..] == misses;
    CumulativeSum(fp);
    CumulativeSum(tp);
    rec := seq(nd, i requires 0 <= i < nd reads tp => tp[i] as real / gtCount as real);
    forall i: nat | i < nd ensures rec[i] == Recalls(hits, gtCount)[i] { RecallsAt(hits, gtCount, i); }
    assert rec == Recalls(hits, gtCount);
    forall i: nat | i < nd ensures 0 <= fp[i] && 0 <= tp[i] { FlagSums(hits, i + 1); FlagSums(misses, i + 1); }
    prec := seq(nd, i requires 0 <= i < nd && tp[i] >= 0 && fp[i] >= 0 reads tp, fp =>
      tp[i] as real / ((fp[i] + tp[i]) as real + EPSILON));
    assert prec == Precisions(hits, misses);
    var mrec, mpre;
    ap, mrec, mpre := VocAp(rec, prec);
    AreaIsPeaksAtHits(hits, prec, gtCount, 0);
    RecallsAreShares(hits, gtCount);
    PrecisionsAreShares(hits, misses);
  }

  lemma RankedDescends(detections: seq<Detection>)
    ensures var ranked := SortBy(detections, (d: Detection) => -d.confidence);
            forall i, j :: 0 <= i < j < |ranked| ==> ranked[i].confidence >= ranked[j].confidence
  {
    var key := (d: Detection) => -d.confidence;
    var ranked := SortBy(detections, key);
    SortBySorts(detections, key);
    forall i, j | 0 <= i < j < |ranked| ensures ranked[i].confidence >= ranked[j].confidence {
      assert key(ranked[i]) <= key(ranked[j]);
    }
  }

  lemma RankedSame(detections: seq<Detection>)
    ensures forall d :: d in SortBy(detections, (d: Detection) => -d.confidence) <==> d in detections
  {
    var key := (d: Detection) => -d.confidence;
    SortBySorts(detections, key);
    forall d ensures d in SortBy(detections, key) <==> d in detections {
      assert d in multiset(SortBy(detections, key)) <==> d in multiset(detections);
    }
  }

  /** Recall only rises along the ranking, and never above 1. */
  lemma RecallsRise(tp: seq<int>, npos: nat)
    requires AreFlags(tp) && npos > 0 && SumTo(tp, |tp|) <= npos
    ensures forall i, j :: 0 <= i <= j < |tp| ==> 0.0 <= Recalls(tp, npos)[i] <= Recalls(tp, npos)[j] <= 1.0
  {
    forall i: nat, j: nat | i <= j < |tp| ensures 0.0 <= Recalls(tp, npos)[i] <= Recalls(tp, npos)[j] <= 1.0 {
      RecallsAt(tp, npos, i);
      RecallsAt(tp, npos, j);
      FlagSums(tp, j + 1);
      FlagSums(tp, i + 1);
      FlagSums(tp, |tp|);
      Divided(SumTo(tp, i + 1) as real, SumTo(tp, j + 1) as real, npos as real);
      QuotientBounds(SumTo(tp, j + 1) as real, npos as real);
    }
  }

  // ---------- all classes ----------

  /** A class: its threshold and overlap, its detections, and its ground-truth count from reading the files. */
  datatype Task = Task(setting: Setting, detections: seq<Detection>, gtCount: nat)

  function RankedOf(t: Task): seq<Detection> { SortBy(t.detections, (d: Detection) => -d.confidence) }

  ghost predicate IsTask(files: Files, t: Task)
  {
    && t.setting.minOverlap > -1.0
    && (forall d :: d in t.detections ==> d.fileId in files)
    && t.gtCount == |Positives(files, t.setting.className)| > 0
  }

  ghost function HitsOf(files: Files, cs: seq<Claim>): (tp: seq<int>)
    ensures |tp| == |cs| && AreFlags(tp)
  {
    seq(|cs|, i requires 0 <= i < |cs| => if IsTruePositive(files, cs, i) then 1 else 0)
  }

  ghost function MissesOf(files: Files, cs: seq<Claim>): (fp: seq<int>)
    ensures |fp| == |cs| && AreFlags(fp)
  {
    seq(|cs|, i requires 0 <= i < |cs| => if IsTruePositive(files, cs, i) || IsIgnored(files, cs, i) then 0 else 1)
  }

  ghost function ClaimsFor(files: Files, t: Task): seq<Claim>
    requires IsTask(files, t)
  {
    RankedSame(t.detections);
    ClaimsOf(files, RankedOf(t), t.setting)
  }

  /** The average precision a class gets when it is the only one. */
  ghost function ApAlone(files: Files, t: Task): real
    requires IsTask(files, t)
  {
    var cs := ClaimsFor(files, t);
    AveragePrecision(HitsOf(files, cs), MissesOf(files, cs), t.gtCount)
  }

  ghost predicate AreTasks(files: Files, tasks: seq<Task>)
  {
    && (forall i :: 0 <= i < |tasks| ==> IsTask(files, tasks[i]) && AllUnused(files, tasks[i].setting.className))
    && (forall i, j :: 0 <= i < j < |tasks| ==> tasks[i].setting.className != tasks[j].setting.className)
  }

  lemma SameBoxesSameClaim(a: Files, b: Files, d: Detection, c: Setting)
    requires SameBoxes(a, b) && d.fileId in a
    ensures ClaimOf(a, d, c) == ClaimOf(b, d, c)
  {
    if k: nat :| IsBest(a[d.fileId], d.bbox, c, k) {
      SameBoxesSameBest(a, b, d.fileId, d.bbox, c, k);
      ClaimOfBest(a, d, c, k);
      ClaimOfBest(b, d, c, k);
      assert a[d.fileId][k].(used := false) == b[d.fileId][k].(used := false);
    } else {
      forall k: nat ensures !IsBest(b[d.fileId], d.bbox, c, k) {
        if IsBest(b[d.fileId], d.bbox, c, k) {
          SameBoxesSymmetric(a, b);
          SameBoxesSameBest(b, a, d.fileId, d.bbox, c, k);
        }
      }
    }
  }

  lemma SameBoxesSymmetric(a: Files, b: Files)
    requires SameBoxes(a, b)
    ensures SameBoxes(b, a)
  {
  }

  lemma SameBoxesTransitive(a: Files, b: Files, c: Files)
    requires SameBoxes(a, b) && SameBoxes(b, c)
    ensures SameBoxes(a, c)
  {
    forall f | f in a
      ensures |a[f]| == |c[f]| && forall k :: 0 <= k < |a[f]| ==> a[f][k].(used := false) == c[f][k].(used := false)
    {
      forall k | 0 <= k < |a[f]| ensures a[f][k].(used := false) == c[f][k].(used := false) {
        assert a[f][k].(used := false) == b[f][k].(used := false);
      }
    }
  }

  lemma SameBoxesSamePositives(a: Files, b: Files, className: string)
    requires SameBoxes(a, b)
    ensures Positives(a, className) == Positives(b, className)
    ensures forall t :: IsDifficult(a, t) <==> IsDifficult(b, t)
  {
    forall f, k | f in a && 0 <= k < |a[f]|
      ensures a[f][k].className == b[f][k].className && a[f][k].difficult == b[f][k].difficult
    {
      assert a[f][k].(used := false) == b[f][k].(used := false);
    }
  }

  /** Only boxes, classes and difficulty matter, not what other classes have marked. */
  lemma SameBoxesSameAp(a: Files, b: Files, t: Task)
    requires SameBoxes(a, b) && IsTask(a, t)
    ensures IsTask(b, t) && ApAlone(b, t) == ApAlone(a, t)
  {
    SameBoxesSamePositives(a, b, t.setting.className);
    RankedSame(t.detections);
    var ranked := RankedOf(t);
    forall i | 0 <= i < |ranked| ensures ClaimsFor(a, t)[i] == ClaimsFor(b, t)[i] {
      SameBoxesSameClaim(a, b, ranked[i], t.setting);
    }
    assert ClaimsFor(a, t) == ClaimsFor(b, t);
    SameFlags(a, b, ClaimsFor(a, t));
  }

  lemma SameFlags(a: Files, b: Files, cs: seq<Claim>)
    requires forall t :: IsDifficult(a, t) <==> IsDifficult(b, t)
    ensures HitsOf(a, cs) == HitsOf(b, cs) && MissesOf(a, cs) == MissesOf(b, cs)
  {
    forall i: nat | i < |cs|
      ensures IsTruePositive(a, cs, i) == IsTruePositive(b, cs, i) && IsIgnored(a, cs, i) == IsIgnored(b, cs, i)
    {
    }
  }

  lemma ScoredFlags(files: Files, cs: seq<Claim>, tp: seq<int>, fp: seq<int>)
    requires Scored(files, cs, tp, fp, |cs|)
    ensures tp == HitsOf(files, cs) && fp == MissesOf(files, cs)
  {
  }

  ghost function ApsAlone(files: Files, tasks: seq<Task>): (aps: seq<real>)
    requires forall i :: 0 <= i < |tasks| ==> IsTask(files, tasks[i])
    ensures |aps| == |tasks|
  {
    if tasks == [] then [] else ApsAlone(files, tasks[..|tasks| - 1]) + [ApAlone(files, tasks[|tasks| - 1])]
  }

  lemma {:induction false} ApsAloneAt(files: Files, tasks: seq<Task>, i: nat)
    requires i < |tasks| && forall k :: 0 <= k < |tasks| ==> IsTask(files, tasks[k])
    ensures ApsAlone(files, tasks)[i] == ApAlone(files, tasks[i])
  {
    if i < |tasks| - 1 { ApsAloneAt(files, tasks[..|tasks| - 1], i); }
  }

  function SumOf(s: seq<real>): real { if s == [] then 0.0 else SumOf(s[..|s| - 1]) + s[|s| - 1] }

  /** No class but the given one has lost its being unused. */
  ghost predicate OthersKept(before: Files, after: Files, className: string)
  {
    forall other: string :: other != className && AllUnused(before, other) ==> AllUnused(after, other)
  }

  /** One class in the loop over classes gets what it would get alone, and leaves the other classes as they were. */
  method EvaluateTask(store: Store, tasks: seq<Task>, i: nat, ghost start: Files) returns (ap: real)
    requires SameBoxes(start, store.files) && i < |tasks| && (forall k :: 0 <= k < |tasks| ==> IsTask(start, tasks[k]))
    requires AllUnused(store.files, tasks[i].setting.className)
    modifies store
    ensures ap == ApsAlone(start, tasks)[i] && 0.0 <= ap <= 1.0
    ensures SameBoxes(start, store.files)
    ensures OthersKept(old(store.files), store.files, tasks[i].setting.className)
  {
    var t := tasks[i];
    ghost var before := store.files;
    ApsAloneAt(start, tasks, i);
    SameBoxesSameAp(start, before, t);
    RankedSame(t.detections);
    var rec, prec, hits, misses;
    ap, rec, prec, hits, misses := EvaluateClass(store, t.detections, t.setting, t.gtCount);
    ScoredFlags(before, ClaimsFor(before, t), hits, misses);
    SameBoxesTransitive(start, before, store.files);
    forall other: string | other != t.setting.className && AllUnused(before, other)
      ensures AllUnused(store.files, other)
    {
      OtherClassesUntouched(before, store.files, RankedOf(t), t.setting, other);
    }
  }

  ghost predicate ClassesUnused(files: Files, tasks: seq<Task>, from: nat)
  {
    forall k :: from <= k < |tasks| ==> AllUnused(files, tasks[k].setting.className)
  }

  lemma NextClass(before: Files, after: Files, tasks: seq<Task>, i: nat)
    requires i < |tasks| && ClassesUnused(before, tasks, i) && OthersKept(before, after, tasks[i].setting.className)
    requires forall k :: i < k < |tasks| ==> tasks[k].setting.className != tasks[i].setting.className
    ensures ClassesUnused(after, tasks, i + 1)
  {
  }

  /** The loop over classes: every class gets what it would get alone, so the order of the classes does not matter. */
  method EvaluateAll(store: Store, tasks: seq<Task>) returns (aps: seq<real>, mAP: real)
    requires tasks != [] && AreTasks(store.files, tasks)
    modifies store
    ensures aps == ApsAlone(old(store.files), tasks)
    ensures mAP == SumOf(aps) / |tasks| as real && 0.0 <= mAP <= 1.0
  {
    ghost var start := store.files;
    ghost var alone := ApsAlone(start, tasks);
    var sumAp := 0.0;
    aps := [];
    for i := 0 to |tasks|
      invariant SameBoxes(start, store.files) && ClassesUnused(store.files, tasks, i)
      invariant aps == alone[..i] && sumAp == SumOf(aps) && AreRatios(aps)
    {
      ghost var before := store.files;
      var ap := EvaluateTask(store, tasks, i, start);
      NextClass(before, store.files, tasks, i);
      NextAp(alone, aps, ap, i);
      aps := aps + [ap];
      sumAp := sumAp + ap;
    }
    assert alone[..|tasks|] == alone;
    mAP := sumAp / |tasks| as real;
    MeanOfRatios(aps);
  }

  lemma NextAp(alone: seq<real>, aps: seq<real>, ap: real, i: nat)
    requires i < |alone| && aps == alone[..i] && ap == alone[i] && AreRatios(aps) && 0.0 <= ap <= 1.0
    ensures aps + [ap] == alone[..i + 1] && SumOf(aps + [ap]) == SumOf(aps) + ap && AreRatios(aps + [ap])
  {
    assert (aps + [ap])[..i] == aps;
  }

  lemma MeanOfRatios(s: seq<real>)
    requires s != [] && AreRatios(s)
    ensures 0.0 <= SumOf(s) / |s| as real <= 1.0
  {
    SumOfRatios(s);
    QuotientBounds(SumOf(s), |s| as real);
  }

  ghost predicate AreRatios(s: seq<real>) { forall i :: 0 <= i < |s| ==> 0.0 <= s[i] <= 1.0 }

  lemma {:induction false} SumOfRatios(s: seq<real>)
    requires AreRatios(s)
    ensures 0.0 <= SumOf(s) <= |s| as real
  {
    if s != [] { SumOfRatios(s[..|s| - 1]); }
  }

  // ---------- the order of the classes ----------

  ghost function SumBy<T>(s: seq<T>, f: T -> real): real
  {
    if s == [] then 0.0 else SumBy(s[..|s| - 1], f) + f(s[|s| - 1])
  }

  lemma {:induction false} SumByWithout<T>(s: seq<T>, f: T -> real, k: nat)
    requires k < |s|
    ensures SumBy(s, f) == SumBy(s[..k] + s[k + 1..], f) + f(s[k])
  {
    var n := |s| - 1;
    if k < n {
      SumByWithout(s[..n], f, k);
      var rest := s[..k] + s[k + 1..];
      assert rest[..n - 1] == s[..n][..k] + s[..n][k + 1..];
    } else {
      assert s[..k] + s[k + 1..] == s[..n];
    }
  }

  lemma Removed<T>(a: seq<T>, k: nat)
    requires k < |a|
    ensures multiset(a[..k] + a[k + 1..]) == multiset(a) - multiset{a[k]}
  {
    assert a == a[..k] + [a[k]] + a[k + 1..];
  }

  lemma {:induction false} SumByPermuted<T>(a: seq<T>, b: seq<T>, f: T -> real)
    requires multiset(a) == multiset(b)
    ensures SumBy(a, f) == SumBy(b, f) && |a| == |b|
  {
    assert |multiset(a)| == |a| && |multiset(b)| == |b|;
    if a != [] {
      var n := |a| - 1;
      assert a[n] in multiset(b);
      var k :| 0 <= k < |b| && b[k] == a[n];
      Removed(a, n);
      Removed(b, k);
      assert a[..n] + a[n + 1..] == a[..n];
      SumByPermuted(a[..n], b[..k] + b[k + 1..], f);
      SumByWithout(b, f, k);
    }
  }

  lemma {:induction false} SumOfAps(files: Files, tasks: seq<Task>, f: Task -> real)
    requires forall i :: 0 <= i < |tasks| ==> IsTask(files, tasks[i]) && f(tasks[i]) == ApAlone(files, tasks[i])
    ensures SumOf(ApsAlone(files, tasks)) == SumBy(tasks, f)
  {
    if tasks != [] {
      var n := |tasks| - 1;
      SumOfAps(files, tasks[..n], f);
      assert ApsAlone(files, tasks)[..n] == ApsAlone(files, tasks[..n]);
    }
  }

  /** The mean is the same for any order of the classes. */
  lemma OrderDoesNotMatter(files: Files, tasks: seq<Task>, others: seq<Task>)
    requires forall i :: 0 <= i < |tasks| ==> IsTask(files, tasks[i])
    requires forall i :: 0 <= i < |others| ==> IsTask(files, others[i])
    requires multiset(tasks) == multiset(others)
    ensures SumOf(ApsAlone(files, tasks)) == SumOf(ApsAlone(files, others)) && |tasks| == |others|
  {
    var f := (t: Task) => if IsTask(files, t) then ApAlone(files, t) else 0.0;
    SumOfAps(files, tasks, f);
    SumOfAps(files, others, f);
    SumByPermuted(tasks, others, f);
  }
}
