/**
  utils/lbr.py, `calc_wave_gaps_along_short_midline`: sample the mask along the scan line, find the
  stripes, and turn the gaps between them into metres. The GeoTIFF's line length is a parameter.
*/
module WaveGaps {
  import opened Rounding
  import opened Options
  import opened Ordering
  import opened Bresenham
  import opened Stripes

  function Clip(v: int, lo: int, hi: int): int { Max(lo, Min(v, hi)) }

  predicate IsMask(mask: seq<seq<int>>)
  {
    |mask| > 0 && |mask[0]| > 0 && forall y :: 0 <= y < |mask| ==> |mask[y]| == |mask[0]|
  }

  /** The 0/1 samples along a pixel line, pixels outside the mask read at its nearest edge. */
  function Samples(mask: seq<seq<int>>, xs: seq<int>, ys: seq<int>): (vals: seq<Bit>)
    requires IsMask(mask) && |xs| == |ys|
    ensures |vals| == |xs|
  {
    seq(|xs|, i requires 0 <= i < |xs| =>
      if mask[Clip(ys[i], 0, |mask| - 1)][Clip(xs[i], 0, |mask[0]| - 1)] > 0 then 1 else 0)
  }

  /** The row or column of n nearest to v: v itself, if there is one. */
  predicate IsNearestIndex(k: int, v: int, n: nat)
  {
    0 <= k < n && (k == v || (v < 0 && k == 0) || (v >= n && k == n - 1))
  }

  /** A sample is foreground exactly if the mask is positive at its pixel, or at the nearest one inside. */
  lemma SampleAt(mask: seq<seq<int>>, xs: seq<int>, ys: seq<int>, i: nat)
    requires IsMask(mask) && |xs| == |ys| && i < |xs|
    ensures forall row, col :: IsNearestIndex(row, ys[i], |mask|) && IsNearestIndex(col, xs[i], |mask[0]|) ==>
      (Samples(mask, xs, ys)[i] == 1 <==> mask[row][col] > 0)
    ensures 0 <= ys[i] < |mask| && 0 <= xs[i] < |mask[0]| ==>
      (Samples(mask, xs, ys)[i] == 1 <==> mask[ys[i]][xs[i]] > 0)
  {
  }

  // ---------- gaps, in steps ----------

  function SumInt(s: seq<int>): int { if s == [] then 0 else s[0] + SumInt(s[1..]) }

  function Sum(s: seq<real>): real { if s == [] then 0.0 else s[0] + Sum(s[1..]) }

  function Covered(stripes: seq<Run>): int
  {
    if stripes == [] then 0 else stripes[0].end - stripes[0].start + Covered(stripes[1..])
  }

  function Gaps(stripes: seq<Run>): (gaps: seq<int>)
  {
    if |stripes| < 2 then [] else [stripes[1].start - stripes[0].end] + Gaps(stripes[1..])
  }

  /** The positive-gap filter never fires: a gap is at least two steps, and there is one per neighbouring pair. */
  method GapSteps(stripes: seq<Run>) returns (gapSteps: seq<int>)
    requires InOrder(stripes)
    ensures gapSteps == Gaps(stripes)
    ensures |gapSteps| == Max(0, |stripes| - 1)
    ensures forall k :: 0 <= k < |gapSteps| ==> gapSteps[k] == stripes[k + 1].start - stripes[k].end >= 2
  {
    gapSteps := [];
    for k := 0 to Max(0, |stripes| - 1)
      invariant |gapSteps| == k
      invariant forall j :: 0 <= j < k ==> gapSteps[j] == stripes[j + 1].start - stripes[j].end >= 2
    {
      var endK := stripes[k].end;
      var startNext := stripes[k + 1].start;
      var gap := Max(0, startNext - endK);
      if gap > 0 {
        gapSteps := gapSteps + [gap];
      }
    }
    GapsAt(stripes, gapSteps);
  }

  lemma {:induction false} GapsAt(stripes: seq<Run>, gaps: seq<int>)
    requires |gaps| == Max(0, |stripes| - 1)
    requires forall k :: 0 <= k < |gaps| ==> gaps[k] == stripes[k + 1].start - stripes[k].end
    ensures gaps == Gaps(stripes)
  {
    if |stripes| >= 2 {
      GapsAt(stripes[1..], gaps[1..]);
      assert gaps == [gaps[0]] + gaps[1..];
    }
  }

  /** Nothing is lost or counted twice: gaps and stripes together make up the span from the first to the last. */
  lemma {:induction false} GapsConserveSpan(stripes: seq<Run>)
    requires stripes != []
    ensures SumInt(Gaps(stripes)) + Covered(stripes) == stripes[|stripes| - 1].end - stripes[0].start
  {
    if |stripes| >= 2 {
      GapsConserveSpan(stripes[1..]);
      assert Gaps(stripes)[1..] == Gaps(stripes[1..]);
    } else {
      assert Gaps(stripes) == [];
    }
  }

  lemma {:induction false} CoveredNonNegative(stripes: seq<Run>)
    requires forall k :: 0 <= k < |stripes| ==> stripes[k].start <= stripes[k].end
    ensures Covered(stripes) >= 0
  {
    if stripes != [] {
      CoveredNonNegative(stripes[1..]);
    }
  }

  /** The gaps between the stripes of L samples add up to at most L - 1 steps. */
  lemma GapsFitLine(vals: seq<Bit>)
    ensures 0 <= SumInt(Gaps(Runs(vals))) <= Max(0, |vals| - 1)
  {
    var stripes := Runs(vals);
    RunsAreTheMaximalRuns(vals);
    if stripes == [] {
      assert Gaps(stripes) == [];
    } else {
      assert IsRun(vals, stripes[0]) && IsRun(vals, stripes[|stripes| - 1]);
      GapsConserveSpan(stripes);
      CoveredNonNegative(stripes);
      GapsNonNegative(stripes);
    }
  }

  lemma {:induction false} GapsNonNegative(stripes: seq<Run>)
    requires InOrder(stripes)
    ensures SumInt(Gaps(stripes)) >= 0
  {
    if |stripes| >= 2 {
      GapsNonNegative(stripes[1..]);
      assert Gaps(stripes)[1..] == Gaps(stripes[1..]);
    }
  }

  // ---------- gaps, in metres ----------

  function Scale(steps: seq<int>, perStep: real): (dists: seq<real>)
    ensures |dists| == |steps|
  {
    if steps == [] then [] else [steps[0] as real * perStep] + Scale(steps[1..], perStep)
  }

  lemma {:induction false} ScaleAt(steps: seq<int>, perStep: real, k: nat)
    requires k < |steps|
    ensures Scale(steps, perStep)[k] == steps[k] as real * perStep
  {
    if k > 0 { ScaleAt(steps[1..], perStep, k - 1); }
  }

  lemma StepsOfLine(steps: real, length: real, total: real)
    requires total != 0.0
    ensures steps * (length / total) * total == steps * length
  {
    TimesQuotient(length, total);
    assert steps * (length / total) * total == steps * (length / total * total);
  }

  /** The gaps in metres are the same part of the line's length as the gaps in steps are of its steps. */
  ghost predicate AreMetres(dists: seq<real>, gapSteps: seq<int>, steps: real, length: real)
  {
    forall k :: 0 <= k < |dists| && k < |gapSteps| ==> dists[k] * steps == gapSteps[k] as real * length
  }

  lemma ScaledAreMetres(gapSteps: seq<int>, steps: real, length: real)
    requires steps != 0.0
    ensures AreMetres(Scale(gapSteps, length / steps), gapSteps, steps, length)
  {
    var perStep := length / steps;
    forall k | 0 <= k < |gapSteps| ensures Scale(gapSteps, perStep)[k] * steps == gapSteps[k] as real * length {
      ScaleAt(gapSteps, perStep, k);
      StepsOfLine(gapSteps[k] as real, length, steps);
    }
  }

  lemma {:induction false} SumOfScaled(steps: seq<int>, perStep: real)
    ensures Sum(Scale(steps, perStep)) == SumInt(steps) as real * perStep
  {
    if steps != [] {
      SumOfScaled(steps[1..], perStep);
      assert Scale(steps, perStep)[1..] == Scale(steps[1..], perStep);
      assert (steps[0] as real + SumInt(steps[1..]) as real) * perStep
          == steps[0] as real * perStep + SumInt(steps[1..]) as real * perStep;
    }
  }

  /** The mean, without the smallest and the largest value when there are at least three. */
  function TrimmedMean(dists: seq<real>): real
    requires dists != []
  {
    var n := |dists|;
    if n >= 3 then Sum(Sort(dists)[1..n - 1]) / (n - 2) as real else Sum(dists) / n as real
  }

  lemma {:induction false} SumBounds(s: seq<real>, lo: real, hi: real)
    requires forall k :: 0 <= k < |s| ==> lo <= s[k] <= hi
    ensures |s| as real * lo <= Sum(s) <= |s| as real * hi
  {
    if s != [] {
      SumBounds(s[1..], lo, hi);
      assert |s| as real * lo == lo + |s[1..]| as real * lo;
      assert |s| as real * hi == hi + |s[1..]| as real * hi;
    }
  }

  lemma MeanBounds(s: seq<real>, lo: real, hi: real)
    requires s != [] && forall k :: 0 <= k < |s| ==> lo <= s[k] <= hi
    ensures lo <= Sum(s) / |s| as real <= hi
  {
    SumBounds(s, lo, hi);
    QuotientBetween(Sum(s), |s| as real, lo, hi);
  }

  lemma QuotientBetween(a: real, n: real, lo: real, hi: real)
    requires n > 0.0 && n * lo <= a <= n * hi
    ensures lo <= a / n <= hi
  {
    var q := a / n;
    assert q * n == a;
    if q < lo { SmallerProduct(q, lo, n); }
    if hi < q { SmallerProduct(hi, q, n); }
  }

  lemma SmallerProduct(a: real, b: real, n: real)
    requires a < b && n > 0.0
    ensures n * a < n * b && a * n < b * n
  {
    assert (b - a) * n > 0.0;
  }

  /** With three gaps or more one extreme gap at either end cannot move the mean outside the others. */
  lemma TrimmedMeanIsRobust(dists: seq<real>)
    requires |dists| >= 3
    ensures Sort(dists)[1] <= TrimmedMean(dists) <= Sort(dists)[|dists| - 2]
  {
    SortAscends(dists);
    var used := Sort(dists)[1..|dists| - 1];
    assert forall k :: 0 <= k < |used| ==> used[k] == Sort(dists)[k + 1];
    MeanBounds(used, Sort(dists)[1], Sort(dists)[|dists| - 2]);
  }

  ghost predicate IsSmallest(s: seq<real>, v: real) { v in s && forall k :: 0 <= k < |s| ==> v <= s[k] }

  ghost predicate IsLargest(s: seq<real>, v: real) { v in s && forall k :: 0 <= k < |s| ==> s[k] <= v }

  /** mean is the mean of the values, of three or more without the smallest and the largest. */
  ghost predicate IsMeanOf(mean: real, dists: seq<real>)
  {
    var n := |dists|;
    if n < 3 then mean * n as real == Sum(dists)
    else
      exists lo, hi :: IsSmallest(dists, lo) && IsLargest(dists, hi) && mean * (n - 2) as real + lo + hi == Sum(dists)
  }

  lemma {:induction false} SumOfInserted(x: real, s: seq<real>)
    ensures Sum(Insert(x, s, (y: real) => y)) == x + Sum(s)
  {
    var key := (y: real) => y;
    if s == [] || x <= s[0] {
      assert ([x] + s)[1..] == s;
    } else {
      SumOfInserted(x, s[1..]);
      assert ([s[0]] + Insert(x, s[1..], key))[1..] == Insert(x, s[1..], key);
    }
  }

  lemma {:induction false} SortKeepsSum(s: seq<real>)
    ensures Sum(Sort(s)) == Sum(s)
  {
    if s != [] {
      SortKeepsSum(s[1..]);
      SumOfInserted(s[0], Sort(s[1..]));
    }
  }

  lemma {:induction false} SumLast(s: seq<real>)
    requires s != []
    ensures Sum(s) == Sum(s[..|s| - 1]) + s[|s| - 1]
  {
    if |s| > 1 {
      SumLast(s[1..]);
      assert s[1..][..|s| - 2] == s[..|s| - 1][1..];
    }
  }

  lemma SumOfMiddle(t: seq<real>)
    requires |t| >= 2
    ensures Sum(t[1..|t| - 1]) + t[0] + t[|t| - 1] == Sum(t)
  {
    SumLast(t[1..]);
    assert t[1..][..|t| - 2] == t[1..|t| - 1];
  }

  lemma SortEnds(s: seq<real>)
    requires s != []
    ensures IsSmallest(s, Sort(s)[0]) && IsLargest(s, Sort(s)[|s| - 1])
  {
    SortAscends(s);
    SortBySorts(s, (x: real) => x);
    assert Sort(s)[0] in multiset(Sort(s)) && Sort(s)[|s| - 1] in multiset(Sort(s));
    forall k | 0 <= k < |s| ensures Sort(s)[0] <= s[k] <= Sort(s)[|s| - 1] {
      assert s[k] in multiset(s);
      var j :| 0 <= j < |s| && Sort(s)[j] == s[k];
    }
  }

  /** The mean is one. */
  lemma TrimmedMeanIsMean(dists: seq<real>)
    requires dists != []
    ensures IsMeanOf(TrimmedMean(dists), dists)
  {
    var n, t := |dists|, Sort(dists);
    if n >= 3 {
      SortEnds(dists);
      SumOfMiddle(t);
      SortKeepsSum(dists);
      TimesQuotient(Sum(t[1..n - 1]), (n - 2) as real);
    } else {
      TimesQuotient(Sum(dists), n as real);
    }
  }

  lemma TimesQuotient(a: real, b: real)
    requires b != 0.0
    ensures a / b * b == a
  {
  }

  // ---------- the whole measurement ----------

  datatype Measurement = Measurement(stripes: seq<Run>, gapSteps: seq<int>, gapDistsM: seq<real>,
                                     gapMeanM: Option<real>)

  method CalcWaveGaps(mask: seq<seq<int>>, x0: real, y0: real, x1: real, y1: real, lineLenM: real)
    returns (m: Measurement)
    requires IsMask(mask) && lineLenM >= 0.0
    ensures var line := SpanOf(x0, y0, x1, y1);
            m.stripes == Runs(Samples(mask, LineXs(line), LineYs(line)))
    ensures m.gapSteps == Gaps(m.stripes)
    ensures |m.gapDistsM| == |m.gapSteps| == Max(0, |m.stripes| - 1)
    ensures m.gapMeanM.Some? <==> |m.stripes| >= 2
    ensures |m.stripes| >= 2 ==>
      && m.gapDistsM == Scale(m.gapSteps, lineLenM / Max(1, SpanOf(x0, y0, x1, y1).Last()) as real)
      && m.gapMeanM.value == TrimmedMean(m.gapDistsM)
      && IsMeanOf(m.gapMeanM.value, m.gapDistsM)
    ensures var steps := Max(1, Max(Abs(Round(x1) - Round(x0)), Abs(Round(y1) - Round(y0))));
            AreMetres(m.gapDistsM, m.gapSteps, steps as real, lineLenM)
    ensures 0.0 <= Sum(m.gapDistsM) <= lineLenM
    ensures |m.stripes| >= 4 ==>
      Sort(m.gapDistsM)[1] <= m.gapMeanM.value <= Sort(m.gapDistsM)[|m.gapDistsM| - 2]
  {
    var xs, ys := BresenhamLine(x0, y0, x1, y1);
    var L := |xs|;
    var vals := Samples(mask, xs, ys);
    var stripes := ScanRuns(vals, 1);
    RunsAreTheMaximalRuns(vals);
    AllRunsAreLong(Runs(vals), 1);
    var gapSteps := GapSteps(stripes);
    if |gapSteps| == 0 {
      return Measurement(stripes, gapSteps, [], None);
    }
    var stepsTotal := Max(1, L - 1);
    var mPerStep := lineLenM / stepsTotal as real;
    var gapDistsM := Scale(gapSteps, mPerStep);
    var gapMeanM := MeanOfGaps(gapDistsM);
    m := Measurement(stripes, gapSteps, gapDistsM, Some(gapMeanM));
    MetresFitLine(vals, lineLenM);
    ScaledAreMetres(gapSteps, stepsTotal as real, lineLenM);
  }

  method MeanOfGaps(dists: seq<real>) returns (mean: real)
    requires dists != []
    ensures mean == TrimmedMean(dists) && IsMeanOf(mean, dists)
    ensures |dists| >= 3 ==> Sort(dists)[1] <= mean <= Sort(dists)[|dists| - 2]
  {
    mean := TrimmedMean(dists);
    TrimmedMeanIsMean(dists);
    if |dists| >= 3 { TrimmedMeanIsRobust(dists); }
  }

  /** The gaps in metres never add up to more than the line they were measured on. */
  lemma MetresFitLine(vals: seq<Bit>, lineLenM: real)
    requires lineLenM >= 0.0
    ensures 0.0 <= Sum(Scale(Gaps(Runs(vals)), lineLenM / Max(1, |vals| - 1) as real)) <= lineLenM
  {
    var total := Max(1, |vals| - 1);
    GapsFitLine(vals);
    SumOfScaled(Gaps(Runs(vals)), lineLenM / total as real);
    PartOfLine(SumInt(Gaps(Runs(vals))), total, lineLenM);
  }

  lemma PartOfLine(steps: int, total: int, length: real)
    requires 0 <= steps <= total && total > 0 && length >= 0.0
    ensures 0.0 <= steps as real * (length / total as real) <= length
  {
    var per := length / total as real;
    assert per * total as real == length;
    assert per >= 0.0;
    assert steps as real * per <= total as real * per;
  }
}
