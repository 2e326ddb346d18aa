/** The two outlier filters: MAD rejection (utils/lbr.py) and the IQR filter on spacings (utils/utils.py). */
module Outliers {
  import opened Options
  import opened Ordering
  import opened Rounding

  function Median(s: seq<real>): real
    requires s != []
  {
    var n, t := |s|, Sort(s);
    if n % 2 == 1 then t[n / 2] else (t[n / 2 - 1] + t[n / 2]) / 2.0
  }

  /** The median is the middle value in order of size, or the mean of the two middle ones. */
  lemma MedianIsMiddle(s: seq<real>)
    requires s != []
    ensures IsMiddle(Median(s), s)
  {
    assert |s| % 2 == 1 ==> (|s| - 1) / 2 == |s| / 2;
    assert |s| % 2 == 0 ==> (|s| - 1) / 2 == |s| / 2 - 1;
  }

  /** At least half the values, rounded up, lie at or below the median. */
  lemma MedianSplits(s: seq<real>)
    requires s != []
    ensures 2 * CountUpTo(s, Median(s)) >= |s|
  {
    var key := (x: real) => x;
    SortBySorts(s, key);
    SortAscends(s);
    SortKeepsCount(s, Median(s));
    CountPrefix(Sort(s), (|s| - 1) / 2, Median(s));
  }

  // ---------- MAD rejection ----------

  const MAD_SCALE := 1.4826

  function Deviations(values: seq<real>, center: real): (devs: seq<real>)
    ensures |devs| == |values|
  {
    if values == [] then [] else [AbsReal(values[0] - center)] + Deviations(values[1..], center)
  }

  predicate IsInlier(v: real, center: real, mad: real, thresh: real)
    requires mad > 0.0
  {
    AbsReal(v - center) / (mad * MAD_SCALE) < thresh
  }

  function Inliers(values: seq<real>, center: real, mad: real, thresh: real): (kept: seq<real>)
    requires mad > 0.0
    ensures forall v :: v in kept <==> v in values && IsInlier(v, center, mad, thresh)
  {
    if values == [] then []
    else
      (if IsInlier(values[0], center, mad, thresh) then [values[0]] else [])
      + Inliers(values[1..], center, mad, thresh)
  }

  lemma {:induction false} DeviationsNonNegative(values: seq<real>, center: real)
    ensures forall k :: 0 <= k < |values| ==> Deviations(values, center)[k] >= 0.0
  {
    if values != [] { DeviationsNonNegative(values[1..], center); }
  }

  lemma MedianNonNegative(s: seq<real>)
    requires s != [] && forall k :: 0 <= k < |s| ==> s[k] >= 0.0
    ensures Median(s) >= 0.0
  {
    forall k | 0 <= k < |s| ensures Sort(s)[k] >= 0.0 {
      SortedMember(s, k);
    }
  }

  lemma MadNonNegative(values: seq<real>, center: real)
    requires values != []
    ensures Median(Deviations(values, center)) >= 0.0
  {
    DeviationsNonNegative(values, center);
    MedianNonNegative(Deviations(values, center));
  }

  function RemoveOutliersMad(values: seq<real>, thresh: real): seq<real>
  {
    if |values| < 3 then values
    else
      var center := Median(values);
      var mad := Median(Deviations(values, center));
      MadNonNegative(values, center);
      if mad == 0.0 then values else Inliers(values, center, mad, thresh)
  }

  lemma WithinMadIsInlier(v: real, center: real, mad: real, thresh: real)
    requires mad > 0.0 && thresh * MAD_SCALE > 1.0 && AbsReal(v - center) <= mad
    ensures IsInlier(v, center, mad, thresh)
  {
    var excess, dev, scale := thresh * MAD_SCALE - 1.0, AbsReal(v - center), mad * MAD_SCALE;
    assert excess * mad > 0.0;
    assert thresh * scale == (excess + 1.0) * mad == excess * mad + mad;
    QuotientBelow(dev, scale, thresh);
  }

  lemma QuotientBelow(a: real, b: real, c: real)
    requires b > 0.0 && a < c * b
    ensures a / b < c
  {
    var q := a / b;
    assert q * b == a;
  }

  lemma {:induction false} InliersCountUpToMad(values: seq<real>, center: real, mad: real, thresh: real)
    requires mad > 0.0 && thresh * MAD_SCALE > 1.0
    ensures |Inliers(values, center, mad, thresh)| >= CountUpTo(Deviations(values, center), mad)
  {
    if values != [] {
      InliersCountUpToMad(values[1..], center, mad, thresh);
      if AbsReal(values[0] - center) <= mad {
        WithinMadIsInlier(values[0], center, mad, thresh);
      }
    }
  }

  /** What is kept: the values, as often as they occur, that are less than thresh * 1.4826 deviations off the median. */
  lemma MadKeeps(values: seq<real>, thresh: real, center: real, mad: real, v: real)
    requires |values| >= 3 && center == Median(values) && mad == Median(Deviations(values, center))
    ensures multiset(RemoveOutliersMad(values, thresh))[v]
         == if mad == 0.0 || AbsReal(v - center) < thresh * (mad * 1.4826) then multiset(values)[v] else 0
  {
    MadNonNegative(values, center);
    if mad > 0.0 {
      InlierMeans(v, center, mad, thresh);
      InliersCounted(values, center, mad, thresh, v);
    }
  }

  lemma InlierMeans(v: real, center: real, mad: real, thresh: real)
    requires mad > 0.0
    ensures IsInlier(v, center, mad, thresh) <==> AbsReal(v - center) < thresh * (mad * 1.4826)
  {
    var q, scale := AbsReal(v - center) / (mad * MAD_SCALE), mad * MAD_SCALE;
    assert q * scale == AbsReal(v - center);
    if q < thresh { assert (thresh - q) * scale > 0.0; } else { assert (q - thresh) * scale >= 0.0; }
  }

  lemma {:induction false} InliersCounted(values: seq<real>, center: real, mad: real, thresh: real, v: real)
    requires mad > 0.0
    ensures multiset(Inliers(values, center, mad, thresh))[v]
         == if IsInlier(v, center, mad, thresh) then multiset(values)[v] else 0
  {
    if values != [] {
      InliersCounted(values[1..], center, mad, thresh, v);
      assert values == [values[0]] + values[1..];
    }
  }

  lemma {:induction false} DeviationAt(values: seq<real>, center: real, k: nat)
    requires k < |values|
    ensures Deviations(values, center)[k] == AbsReal(values[k] - center)
  {
    if k > 0 { DeviationAt(values[1..], center, k - 1); }
  }

  /** Above the threshold 1 / 1.4826, at least half of any input survives. */
  lemma MadKeepsHalf(values: seq<real>, thresh: real)
    requires thresh * 1.4826 > 1.0
    ensures 2 * |RemoveOutliersMad(values, thresh)| >= |values|
  {
    if |values| >= 3 {
      var center := Median(values);
      var devs := Deviations(values, center);
      MedianSplits(devs);
      MadNonNegative(values, center);
      if Median(devs) > 0.0 {
        InliersCountUpToMad(values, center, Median(devs), thresh);
      }
    }
  }

  /** And at no smaller threshold: -1, 0, 1 then loses two of its three values. */
  lemma MadThresholdIsExact(thresh: real)
    ensures (forall values: seq<real> :: 2 * |RemoveOutliersMad(values, thresh)| >= |values|)
       <==> thresh * 1.4826 > 1.0
  {
    if thresh * MAD_SCALE > 1.0 {
      forall values: seq<real> ensures 2 * |RemoveOutliersMad(values, thresh)| >= |values| {
        MadKeepsHalf(values, thresh);
      }
    } else {
      var values := [-1.0, 0.0, 1.0];
      SortThree(-1.0, 0.0, 1.0);
      var devs := Deviations(values, 0.0);
      assert devs == [1.0, 0.0, 1.0] by {
        assert Deviations(values[1..], 0.0) == [0.0] + Deviations([1.0], 0.0) by { assert values[1..][1..] == [1.0]; }
        assert Deviations([1.0], 0.0) == [1.0];
      }
      SortThree(0.0, 1.0, 1.0);
      assert Median(devs) == 1.0;
      var kept := Inliers(values, 0.0, 1.0, thresh);
      assert |kept| <= 1 by {
        assert !IsInlier(-1.0, 0.0, 1.0, thresh) && !IsInlier(1.0, 0.0, 1.0, thresh);
        assert values[1..] == [0.0, 1.0] && values[1..][1..] == [1.0] && values[1..][1..][1..] == [];
        assert Inliers([1.0], 0.0, 1.0, thresh) == [];
        assert |Inliers([0.0, 1.0], 0.0, 1.0, thresh)| <= 1;
      }
      assert 2 * |RemoveOutliersMad(values, thresh)| < |values|;
    }
  }

  lemma SortThree(a: real, b: real, c: real)
    requires a <= b <= c
    ensures Sort([a, b, c]) == [a, b, c] && Sort([b, a, c]) == [a, b, c]
  {
    var key := (x: real) => x;
    assert [a, b, c][1..] == [b, c] && [b, a, c][1..] == [a, c] && [b, c][1..] == [c] && [a, c][1..] == [c];
    assert SortBy([c], key) == [c];
    assert SortBy([b, c], key) == [b, c];
    assert SortBy([a, c], key) == [a, c];
    assert [a, c][1..] == [c] && Insert(b, [c], key) == [b, c];
  }

  // ---------- IQR filter and median spacing ----------

  function Interpolate(a: real, b: real, f: real): real { a + f * (b - a) }

  /** `np.percentile`: the value at a fractional position among ascending values, linearly interpolated. */
  function ValueAt(t: seq<real>, pos: real): real
    requires t != [] && 0.0 <= pos <= (|t| - 1) as real
  {
    var lo := pos.Floor;
    if lo + 1 < |t| then Interpolate(t[lo], t[lo + 1], pos - lo as real) else t[lo]
  }

  function Within(s: seq<real>, lo: real, hi: real): (kept: seq<real>)
    ensures forall v :: v in kept <==> v in s && lo <= v <= hi
  {
    if s == [] then [] else (if lo <= s[0] <= hi then [s[0]] else []) + Within(s[1..], lo, hi)
  }

  function Fenced(spacings: seq<real>, q1: real, q3: real): seq<real>
  {
    var iqr := q3 - q1;
    Within(spacings, MaxReal(0.0, q1 - 1.5 * iqr), q3 + 1.5 * iqr)
  }

  function FilterIqr(spacings: seq<real>): seq<real>
  {
    if |spacings| < 3 then spacings
    else
      Fenced(spacings, ValueAt(Sort(spacings), 0.25 * (|spacings| - 1) as real),
             ValueAt(Sort(spacings), 0.75 * (|spacings| - 1) as real))
  }

  lemma ValueBetween(t: seq<real>, pos: real, below: nat, above: nat)
    requires 0.0 <= pos <= (|t| - 1) as real && below <= pos.Floor <= above < |t|
    requires pos.Floor == above ==> above == |t| - 1
    requires forall i, j :: 0 <= i <= j < |t| ==> t[i] <= t[j]
    ensures t[below] <= ValueAt(t, pos) <= t[above]
  {
    var lo := pos.Floor;
    if lo + 1 < |t| {
      Interpolated(t[lo], t[lo + 1], pos - lo as real);
      assert t[below] <= t[lo] && t[lo + 1] <= t[above];
    }
  }

  lemma Interpolated(a: real, b: real, f: real)
    requires a <= b && 0.0 <= f <= 1.0
    ensures a <= Interpolate(a, b, f) <= b
  {
    var d := b - a;
    assert f * d >= 0.0 && (1.0 - f) * d >= 0.0;
    assert f * d + (1.0 - f) * d == d;
  }

  /** The IQR filter never rejects the middle spacing. */
  lemma IqrKeepsMiddle(spacings: seq<real>)
    requires |spacings| >= 3 && forall v :: v in spacings ==> v >= 0.0
    ensures Sort(spacings)[(|spacings| - 1) / 2] in FilterIqr(spacings)
  {
    var n, t := |spacings|, Sort(spacings);
    var m := (n - 1) / 2;
    SortedMember(spacings, m);
    MiddleBetweenQuartiles(spacings);
    WithinFences(ValueAt(t, 0.25 * (n - 1) as real), ValueAt(t, 0.75 * (n - 1) as real), t[m]);
  }

  lemma WithinFences(q1: real, q3: real, v: real)
    requires q1 <= v <= q3 && v >= 0.0
    ensures MaxReal(0.0, q1 - 1.5 * (q3 - q1)) <= v <= q3 + 1.5 * (q3 - q1)
  {
  }

  lemma MiddleBetweenQuartiles(s: seq<real>)
    requires |s| >= 3
    ensures var t, last := Sort(s), (|s| - 1) as real;
            ValueAt(t, 0.25 * last) <= t[(|s| - 1) / 2] <= ValueAt(t, 0.75 * last)
  {
    SortAscends(s);
    QuartilePositions(|s|);
    ValueBetween(Sort(s), 0.25 * (|s| - 1) as real, 0, (|s| - 1) / 2);
    ValueBetween(Sort(s), 0.75 * (|s| - 1) as real, (|s| - 1) / 2, |s| - 1);
  }

  lemma QuartilePositions(n: nat)
    requires n >= 3
    ensures (0.25 * (n - 1) as real).Floor < (n - 1) / 2 <= (0.75 * (n - 1) as real).Floor < n - 1
  {
    assert 0.25 * (n - 1) as real < ((n - 1) / 2) as real;
    assert ((n - 1) / 2) as real <= 0.75 * (n - 1) as real;
  }

  lemma SortedMember(s: seq<real>, k: nat)
    requires k < |s|
    ensures Sort(s)[k] in s
  {
    SortBySorts(s, (x: real) => x);
    assert Sort(s)[k] in multiset(Sort(s));
  }

  /** The value a quarter, or three quarters, of the way from the first to the last of n ascending values. */
  predicate IsQuartile(q: real, t: seq<real>, quarters: nat)
    requires t != [] && quarters <= 4
  {
    var steps := quarters * (|t| - 1);
    4.0 * q == (4 - steps % 4) as real * t[steps / 4] + (steps % 4) as real * t[Min(steps / 4 + 1, |t| - 1)]
  }

  lemma ValueIsQuartile(t: seq<real>, quarters: nat, pos: real)
    requires t != [] && quarters <= 4 && pos == quarters as real * 0.25 * (|t| - 1) as real
    ensures 0.0 <= pos <= (|t| - 1) as real && IsQuartile(ValueAt(t, pos), t, quarters)
  {
    var steps := quarters * (|t| - 1);
    assert steps <= 4 * (|t| - 1);
    assert 4.0 * pos == steps as real;
    assert pos.Floor == steps / 4;
    var rest := steps % 4;
    assert 4.0 * (pos - (steps / 4) as real) == rest as real;
    if steps / 4 + 1 < |t| {
      FourTimes(t[steps / 4], t[steps / 4 + 1], pos - (steps / 4) as real, rest);
    }
  }

  lemma FourTimes(a: real, b: real, f: real, rest: nat)
    requires rest <= 4 && 4.0 * f == rest as real
    ensures 4.0 * Interpolate(a, b, f) == (4 - rest) as real * a + rest as real * b
  {
    assert f * (b - a) == f * b - f * a;
  }

  lemma QuartileUnique(p: real, q: real, t: seq<real>, quarters: nat)
    requires t != [] && quarters <= 4 && IsQuartile(p, t, quarters) && IsQuartile(q, t, quarters)
    ensures p == q
  {
  }

  /** Within one and a half times the distance of the quartiles of them, and not negative. */
  predicate IsWithinFences(v: real, q1: real, q3: real)
  {
    v >= 0.0 && q1 - 1.5 * (q3 - q1) <= v <= q3 + 1.5 * (q3 - q1)
  }

  /** What the IQR filter keeps, as often as it occurs. */
  lemma IqrKeeps(spacings: seq<real>, q1: real, q3: real, v: real)
    requires |spacings| >= 3 && IsQuartile(q1, Sort(spacings), 1) && IsQuartile(q3, Sort(spacings), 3)
    ensures multiset(FilterIqr(spacings))[v] == if IsWithinFences(v, q1, q3) then multiset(spacings)[v] else 0
  {
    QuartileIsValue(q1, Sort(spacings), 1, 0.25 * (|spacings| - 1) as real);
    QuartileIsValue(q3, Sort(spacings), 3, 0.75 * (|spacings| - 1) as real);
    FilterKeeps(spacings, q1, q3, v);
  }

  lemma QuartileIsValue(q: real, t: seq<real>, quarters: nat, pos: real)
    requires t != [] && quarters <= 4 && pos == quarters as real * 0.25 * (|t| - 1) as real
    requires IsQuartile(q, t, quarters)
    ensures 0.0 <= pos <= (|t| - 1) as real && q == ValueAt(t, pos)
  {
    ValueIsQuartile(t, quarters, pos);
    QuartileUnique(q, ValueAt(t, pos), t, quarters);
  }

  lemma FilterKeeps(spacings: seq<real>, q1: real, q3: real, v: real)
    requires |spacings| >= 3
    requires q1 == ValueAt(Sort(spacings), 0.25 * (|spacings| - 1) as real)
    requires q3 == ValueAt(Sort(spacings), 0.75 * (|spacings| - 1) as real)
    ensures multiset(FilterIqr(spacings))[v] == if IsWithinFences(v, q1, q3) then multiset(spacings)[v] else 0
  {
    FencedKeeps(spacings, q1, q3, v);
  }

  lemma FencedKeeps(spacings: seq<real>, q1: real, q3: real, v: real)
    ensures multiset(Fenced(spacings, q1, q3))[v] == if IsWithinFences(v, q1, q3) then multiset(spacings)[v] else 0
  {
    WithinCounted(spacings, MaxReal(0.0, q1 - 1.5 * (q3 - q1)), q3 + 1.5 * (q3 - q1), v);
  }

  lemma {:induction false} WithinCounted(s: seq<real>, lo: real, hi: real, v: real)
    ensures multiset(Within(s, lo, hi))[v] == if lo <= v <= hi then multiset(s)[v] else 0
  {
    if s != [] {
      WithinCounted(s[1..], lo, hi, v);
      assert s == [s[0]] + s[1..];
    }
  }

  datatype Component = Component(area: int, projection: real)

  datatype Wavelength = Wavelength(spacingsPx: seq<real>, lambdaPx: Option<real>, nCrests: nat)

  /** Projections of the components that pass the area filter. */
  function Projections(comps: seq<Component>, minArea: int): seq<real>
  {
    if comps == [] then []
    else (if comps[0].area >= minArea then [comps[0].projection] else []) + Projections(comps[1..], minArea)
  }

  function Diff(s: seq<real>): (d: seq<real>)
    ensures |d| == if s == [] then 0 else |s| - 1
    ensures forall k :: 0 <= k < |d| ==> d[k] == s[k + 1] - s[k]
  {
    if |s| < 2 then [] else [s[1] - s[0]] + Diff(s[1..])
  }

  function EstimateWavelength(comps: seq<Component>, minArea: int): Wavelength
  {
    var s := Projections(comps, minArea);
    if |s| < 2 then Wavelength([], None, |s|)
    else
      var spacings := FilterIqr(Diff(Sort(s)));
      if spacings == [] then Wavelength([], None, |s|)
      else Wavelength(spacings, Some(Median(spacings)), |s|)
  }

  lemma MedianWithin(s: seq<real>, lo: real, hi: real)
    requires s != [] && forall k :: 0 <= k < |s| ==> lo <= s[k] <= hi
    ensures lo <= Median(s) <= hi
  {
    forall k | 0 <= k < |s| ensures lo <= Sort(s)[k] <= hi {
      SortedMember(s, k);
    }
  }

  /** A wavelength comes out exactly when two components survive, and it never exceeds the extent of the wake. */
  lemma WavelengthExists(comps: seq<Component>, minArea: int)
    ensures var w, s := EstimateWavelength(comps, minArea), Projections(comps, minArea);
            && (w.lambdaPx.Some? <==> |s| >= 2)
            && (w.lambdaPx.Some? ==> 0.0 <= w.lambdaPx.value <= Sort(s)[|s| - 1] - Sort(s)[0])
  {
    var s := Projections(comps, minArea);
    if |s| >= 2 {
      SpacingsWithin(s);
      FilteredMedianWithin(Diff(Sort(s)), Sort(s)[|s| - 1] - Sort(s)[0]);
    }
  }

  lemma {:induction false} ProjectionsMean(comps: seq<Component>, minArea: int, v: real)
    ensures v in Projections(comps, minArea) <==> exists c :: c in comps && c.area >= minArea && c.projection == v
  {
    if comps != [] {
      ProjectionsMean(comps[1..], minArea, v);
      assert forall c :: c in comps <==> c == comps[0] || c in comps[1..];
    }
  }

  /** The gaps between neighbours. */
  ghost predicate AreGaps(gaps: seq<real>, t: seq<real>)
  {
    |gaps| == |t| - 1 && forall k :: 0 <= k < |gaps| ==> gaps[k] == t[k + 1] - t[k]
  }

  /** The wavelength is the median of those gaps between neighbouring crests that the filter keeps. */
  lemma WavelengthMeans(comps: seq<Component>, minArea: int) returns (gaps: seq<real>)
    requires EstimateWavelength(comps, minArea).lambdaPx.Some?
    ensures var w, t := EstimateWavelength(comps, minArea), Sort(Projections(comps, minArea));
            && w.nCrests == |t| && AreGaps(gaps, t)
            && w.spacingsPx == FilterIqr(gaps) != [] && IsMiddle(w.lambdaPx.value, w.spacingsPx)
  {
    gaps := Diff(Sort(Projections(comps, minArea)));
    MedianIsMiddle(FilterIqr(gaps));
  }

  /** The gaps times the wavelength make up the crests' extent. */
  predicate FillsExtent(lambda: real, t: seq<real>)
    requires t != []
  {
    lambda * (|t| - 1) as real == t[|t| - 1] - t[0]
  }

  /** With two or three crests it is their extent divided by the gaps. */
  lemma WavelengthOfFew(comps: seq<Component>, minArea: int)
    requires 2 <= |Projections(comps, minArea)| <= 3
    ensures var w, t := EstimateWavelength(comps, minArea), Sort(Projections(comps, minArea));
            w.lambdaPx.Some? && FillsExtent(w.lambdaPx.value, t)
  {
    var t := Sort(Projections(comps, minArea));
    LambdaIs(comps, minArea);
    MedianOfFew(Diff(t));
    MeanGap(Diff(t), t, Median(Diff(t)));
  }

  lemma LambdaIs(comps: seq<Component>, minArea: int)
    requires 2 <= |Projections(comps, minArea)| <= 3
    ensures EstimateWavelength(comps, minArea).lambdaPx == Some(Median(Diff(Sort(Projections(comps, minArea)))))
  {
  }

  lemma MeanGap(gaps: seq<real>, t: seq<real>, mean: real)
    requires 2 <= |t| <= 3 && AreGaps(gaps, t)
    requires mean == if |gaps| == 1 then gaps[0] else (gaps[0] + gaps[1]) / 2.0
    ensures FillsExtent(mean, t)
  {
  }

  ghost predicate IsMiddle(v: real, s: seq<real>)
    requires s != []
  {
    2.0 * v == Sort(s)[(|s| - 1) / 2] + Sort(s)[|s| / 2]
  }

  /** Of one value or two the median is the mean. */
  lemma MedianOfFew(s: seq<real>)
    requires 1 <= |s| <= 2
    ensures Median(s) == if |s| == 1 then s[0] else (s[0] + s[1]) / 2.0
  {
    var key := (x: real) => x;
    if |s| == 1 {
      assert s[1..] == [];
      assert SortBy(s, key) == [s[0]];
    } else {
      assert s[1..][1..] == [] && s[1..][0] == s[1];
      assert SortBy(s[1..], key) == [s[1]];
      assert Sort(s) == Insert(s[0], [s[1]], key);
      assert [s[1]][1..] == [];
      assert Sort(s) == if s[0] <= s[1] then [s[0], s[1]] else [s[1], s[0]];
    }
  }

  lemma FilteredMedianWithin(spacings: seq<real>, extent: real)
    requires spacings != [] && forall d :: d in spacings ==> 0.0 <= d <= extent
    ensures FilterIqr(spacings) != [] && 0.0 <= Median(FilterIqr(spacings)) <= extent
  {
    var kept := FilterIqr(spacings);
    if |spacings| >= 3 { IqrKeepsMiddle(spacings); }
    FilterIqrSelects(spacings);
    forall k | 0 <= k < |kept| ensures 0.0 <= kept[k] <= extent {
      assert kept[k] in spacings;
    }
    MedianWithin(kept, 0.0, extent);
  }

  lemma FilterIqrSelects(spacings: seq<real>)
    ensures forall v :: v in FilterIqr(spacings) ==> v in spacings
  {
  }

  lemma SpacingsWithin(s: seq<real>)
    requires |s| >= 2
    ensures forall d :: d in Diff(Sort(s)) ==> 0.0 <= d <= Sort(s)[|s| - 1] - Sort(s)[0]
  {
    SortAscends(s);
    var t := Sort(s);
    forall k | 0 <= k < |t| - 1 ensures 0.0 <= Diff(t)[k] <= t[|s| - 1] - t[0] {
      assert t[0] <= t[k] <= t[k + 1] <= t[|s| - 1];
    }
  }
}
