/**
  The direction of a scan line is arbitrary: utils/lbr.py takes its end points from the corners of a box in
  whatever order they come. Whether `bresenham_line` and the wave gaps depend on it is decided by the ties of the
  line, steps at which the ideal offset lies exactly half-way between two pixels.
*/
module ReversedLines {
  import opened IntegerMath
  import opened Options
  import opened Ordering
  import opened Rounding
  import opened Bresenham
  import opened Stripes
  import opened WaveGaps

  function Reversed<T>(s: seq<T>): (r: seq<T>)
    ensures |r| == |s|
    ensures forall i :: 0 <= i < |r| ==> r[i] == s[|s| - 1 - i]
  {
    seq(|s|, i requires 0 <= i < |s| => s[|s| - 1 - i])
  }

  /** The same line from its other end. */
  function Back(s: Span): Span { Span(s.x1, s.y1, s.x0, s.y0) }

  function Longer(s: Span): nat { Max(s.Dx(), s.Dy()) }

  function Shorter(s: Span): nat { Min(s.Dx(), s.Dy()) }

  // ---------- ties ----------

  /** After n steps along a longer side a, the offset n b / a along the shorter side b is k and a half. */
  predicate TieAt(a: nat, b: nat, n: nat, k: nat) { 2 * (n * b) == 2 * (k * a) + a }

  /** a is divisible by a higher power of two than b. */
  predicate MoreTwos(a: nat, b: nat)
  {
    b != 0 && a % 2 == 0 && (b % 2 == 1 || MoreTwos(a / 2, b / 2))
  }

  lemma DoubleProduct(a: nat, n: nat)
    requires a % 2 == 0
    ensures n * a == 2 * (n * (a / 2))
  {
    assert a == 2 * (a / 2);
  }

  /** Halving both sides keeps the ties. */
  lemma HalvedTie(a: nat, b: nat, n: nat, k: nat)
    requires a % 2 == 0 && b % 2 == 0
    ensures TieAt(a, b, n, k) <==> TieAt(a / 2, b / 2, n, k)
  {
    DoubleProduct(b, n);
    DoubleProduct(a, k);
    HalvedEquation(n * b, k * a, a, n * (b / 2), k * (a / 2), a / 2);
  }

  lemma HalvedEquation(x: int, y: int, a: int, x': int, y': int, a': int)
    requires x == 2 * x' && y == 2 * y' && a == 2 * a'
    ensures 2 * x == 2 * y + a <==> 2 * x' == 2 * y' + a'
  {
  }

  lemma {:induction false} TieMeansMoreTwos(a: nat, b: nat, n: nat, k: nat)
    requires a > 0 && TieAt(a, b, n, k)
    ensures MoreTwos(a, b)
    decreases b
  {
    TieIsEven(n * b, k * a, a);
    if b == 0 {
      NoTieWithoutRise(a, n, k);
    } else if b % 2 == 0 {
      HalvedTie(a, b, n, k);
      TieMeansMoreTwos(a / 2, b / 2, n, k);
    }
  }

  lemma TieIsEven(x: int, y: int, a: int)
    requires 2 * x == 2 * y + a
    ensures a % 2 == 0
  {
  }

  lemma NoTieWithoutRise(a: nat, n: nat, k: nat)
    requires a > 0
    ensures !TieAt(a, 0, n, k)
  {
    assert n * 0 == 0;
    assert k * a >= 0;
  }

  lemma {:induction false} MoreTwosTies(a: nat, b: nat) returns (n: nat, k: nat)
    requires MoreTwos(a, b)
    ensures n <= a && TieAt(a, b, n, k)
    decreases b
  {
    if b % 2 == 1 {
      n, k := a / 2, b / 2;
      HalfTie(a / 2, b / 2);
    } else {
      n, k := MoreTwosTies(a / 2, b / 2);
      HalvedTie(a, b, n, k);
    }
  }

  lemma HalfTie(n: nat, k: nat)
    ensures TieAt(2 * n, 2 * k + 1, n, k)
  {
    assert n * (2 * k + 1) == 2 * (n * k) + n;
    assert k * (2 * n) == 2 * (n * k);
  }

  // ---------- one pixel from both ends ----------

  lemma OffsetsSum(a: nat, b: nat, p: nat, p': nat)
    requires a > 0 && p + p' == b * a
    ensures var q, r := NearestDown(p, a), NearestDown(p', a);
            q + r == b - if 2 * p == 2 * (q * a) + a then 1 else 0
  {
    var q, r := NearestDown(p, a), NearestDown(p', a);
    NearestDownIsNearest(p, a);
    NearestDownIsNearest(p', a);
    var t := q + r - b + 1;
    Collected(q, r, b, a);
    ErrorsAdd(a, p, p', q * a, r * a, b * a, t * a);
    ZeroOrOne(t, a);
  }

  lemma Collected(q: int, r: int, b: int, a: int)
    ensures (q + r - b + 1) * a == q * a + r * a - b * a + a
  {
  }

  lemma ErrorsAdd(a: int, p: int, p': int, qa: int, ra: int, ba: int, ta: int)
    requires p + p' == ba && ta == qa + ra - ba + a
    requires 0 <= 2 * (qa - p) + a < 2 * a && 0 <= 2 * (ra - p') + a < 2 * a
    ensures 0 <= ta < 2 * a
    ensures ta == 0 ==> 2 * p == 2 * qa + a
    ensures ta == a ==> 2 * p != 2 * qa + a
  {
  }

  lemma ZeroOrOne(t: int, a: nat)
    requires 0 <= t * a < 2 * a
    ensures (t == 0 && t * a == 0) || (t == 1 && t * a == a)
  {
    if t >= 2 { MulMonotone(2, t, a); }
    if t <= -1 { MulMonotone(t, -1, a); }
  }

  /** Whether step n ends half-way between two pixels. */
  predicate IsTie(s: Span, n: nat)
  {
    Longer(s) > 0 && TieAt(Longer(s), Shorter(s), n, NearestDown(n * Shorter(s), Longer(s)))
  }

  /** Any witness of a tie will do. */
  lemma TieIs(s: Span, n: nat, k: nat)
    requires Longer(s) > 0 && TieAt(Longer(s), Shorter(s), n, k)
    ensures IsTie(s, n)
  {
    NearestDownUnique(n * Shorter(s), Longer(s), k);
  }

  lemma BothEnds(n: nat, m: nat, b: nat)
    ensures n * b + m * b == b * (n + m)
  {
  }

  /** Along the shorter axis the two offsets add up to the side, except at a tie. */
  lemma OffsetsMeet(a: nat, b: nat, n: nat)
    requires a > 0 && n <= a
    ensures NearestDown(n * b, a) + NearestDown((a - n) * b, a)
         == b - if TieAt(a, b, n, NearestDown(n * b, a)) then 1 else 0
  {
    BothEnds(n, a - n, b);
    OffsetsSum(a, b, n * b, (a - n) * b);
  }

  lemma AlongMeets(from: int, to: int, j: nat, j': nat)
    requires j <= Abs(to - from) && j' <= Abs(to - from)
    ensures Along(from, to, j) == Along(to, from, j') <==> j + j' == Abs(to - from)
  {
  }

  /** The pixel after n steps is the one as many steps before the end of the reversed line, except at a tie. */
  lemma PixelsMeet(s: Span, n: nat)
    requires n <= s.Last()
    ensures var m := s.Last() - n;
            && (Back(s).PixelX(m) == s.PixelX(n) <==> !IsTie(s, n) || s.Dx() >= s.Dy())
            && (Back(s).PixelY(m) == s.PixelY(n) <==> !IsTie(s, n) || s.Dx() < s.Dy())
  {
    var m := s.Last() - n;
    var dx, dy := s.Dx(), s.Dy();
    SidesMeet(dx, dy, n, IsTie(s, n));
    AlongMeets(s.x0, s.x1, StepsX(dx, dy, n), StepsX(dx, dy, m));
    AlongMeets(s.y0, s.y1, StepsY(dx, dy, n), StepsY(dx, dy, m));
  }

  lemma SidesMeet(dx: nat, dy: nat, n: nat, tie: bool)
    requires n <= Max(dx, dy)
    requires tie <==> Max(dx, dy) > 0 && TieAt(Max(dx, dy), Min(dx, dy), n, NearestDown(n * Min(dx, dy), Max(dx, dy)))
    ensures var m := Max(dx, dy) - n;
            && StepsX(dx, dy, n) <= dx && StepsX(dx, dy, m) <= dx && StepsY(dx, dy, n) <= dy && StepsY(dx, dy, m) <= dy
            && (StepsX(dx, dy, n) + StepsX(dx, dy, m) == dx <==> !tie || dx >= dy)
            && (StepsY(dx, dy, n) + StepsY(dx, dy, m) == dy <==> !tie || dx < dy)
  {
    Arrival(dx, dy, n);
    Arrival(dx, dy, Max(dx, dy) - n);
    if dx < dy { OffsetsMeet(dy, dx, n); } else if dx > 0 { OffsetsMeet(dx, dy, n); }
  }

  // ---------- the line ----------

  lemma TieExists(s: Span)
    ensures MoreTwos(Longer(s), Shorter(s)) <==> exists n: nat :: n <= s.Last() && IsTie(s, n)
  {
    if MoreTwos(Longer(s), Shorter(s)) {
      var n, k := MoreTwosTies(Longer(s), Shorter(s));
      TieIs(s, n, k);
    }
    if n: nat :| n <= s.Last() && IsTie(s, n) {
      TieMeansMoreTwos(Longer(s), Shorter(s), n, NearestDown(n * Shorter(s), Longer(s)));
    }
  }

  predicate IsReversed(s: Span)
  {
    LineXs(Back(s)) == Reversed(LineXs(s)) && LineYs(Back(s)) == Reversed(LineYs(s))
  }

  lemma NoTieReverses(s: Span)
    requires forall n: nat :: n <= s.Last() ==> !IsTie(s, n)
    ensures IsReversed(s)
  {
    var xs, ys := LineXs(s), LineYs(s);
    forall n: nat | n <= s.Last()
      ensures LineXs(Back(s))[n] == Reversed(xs)[n] && LineYs(Back(s))[n] == Reversed(ys)[n]
    {
      PixelsMeet(s, s.Last() - n);
    }
  }

  lemma TieBreaks(s: Span, n: nat)
    requires n <= s.Last() && IsTie(s, n)
    ensures !IsReversed(s)
  {
    var m, xs, ys := s.Last() - n, LineXs(s), LineYs(s);
    PixelsMeet(s, n);
    assert Reversed(xs)[m] == s.PixelX(n) && Reversed(ys)[m] == s.PixelY(n);
    assert LineXs(Back(s))[m] == Back(s).PixelX(m) && LineYs(Back(s))[m] == Back(s).PixelY(m);
  }

  /**
    Drawn from its other end a line consists of the same pixels, exactly if the longer side is not divisible by a
    higher power of two than the shorter.
  */
  lemma LineReverses(s: Span)
    ensures IsReversed(s) <==> !MoreTwos(Longer(s), Shorter(s))
  {
    TieExists(s);
    if n: nat :| n <= s.Last() && IsTie(s, n) {
      TieBreaks(s, n);
    } else {
      NoTieReverses(s);
    }
  }

  // ---------- the measurement ----------

  function StripesOn(mask: seq<seq<int>>, s: Span): seq<Run>
    requires IsMask(mask)
  {
    Runs(Samples(mask, LineXs(s), LineYs(s)))
  }

  function Mirror(r: Run, length: int): Run { Run(length - 1 - r.end, length - 1 - r.start) }

  function MirrorAll(runs: seq<Run>, length: int): (r: seq<Run>)
    ensures |r| == |runs|
    ensures forall k :: 0 <= k < |runs| ==> r[k] == Mirror(runs[|runs| - 1 - k], length)
  {
    seq(|runs|, k requires 0 <= k < |runs| => Mirror(runs[|runs| - 1 - k], length))
  }

  lemma RunMirrors(vals: seq<Bit>, r: Run)
    requires IsRun(vals, r)
    ensures IsRun(Reversed(vals), Mirror(r, |vals|))
  {
    var back, m := Reversed(vals), Mirror(r, |vals|);
    forall i | m.start <= i <= m.end ensures back[i] == 1 {
      assert vals[|vals| - 1 - i] == 1;
    }
  }

  lemma RunMirrorsBoth(vals: seq<Bit>, r: Run)
    ensures IsRun(Reversed(vals), r) <==> IsRun(vals, Mirror(r, |vals|))
  {
    assert Reversed(Reversed(vals)) == vals;
    assert Mirror(Mirror(r, |vals|), |vals|) == r;
    if IsRun(Reversed(vals), r) { RunMirrors(Reversed(vals), r); }
    if IsRun(vals, Mirror(r, |vals|)) { RunMirrors(vals, Mirror(r, |vals|)); }
  }

  lemma MirroredMember(runs: seq<Run>, length: int, r: Run)
    ensures r in MirrorAll(runs, length) <==> Mirror(r, length) in runs
  {
    var mirrored := MirrorAll(runs, length);
    if r in mirrored {
      var k :| 0 <= k < |mirrored| && mirrored[k] == r;
      assert runs[|runs| - 1 - k] == Mirror(r, length);
    }
    if Mirror(r, length) in runs {
      var k :| 0 <= k < |runs| && runs[k] == Mirror(r, length);
      assert mirrored[|runs| - 1 - k] == r;
    }
  }

  lemma MirroredInOrder(runs: seq<Run>, length: int)
    requires InOrder(runs)
    ensures InOrder(MirrorAll(runs, length))
  {
    var m, n := MirrorAll(runs, length), |runs| - 1;
    forall j, k | 0 <= j < k < |m| ensures m[j].end + 1 < m[k].start {
      assert runs[n - k].end + 1 < runs[n - j].start;
    }
  }

  /** The stripes of a line read backwards are its stripes, mirrored. */
  lemma RunsReversed(vals: seq<Bit>)
    ensures Runs(Reversed(vals)) == MirrorAll(Runs(vals), |vals|)
  {
    RunsAreTheMaximalRuns(vals);
    RunsAreTheMaximalRuns(Reversed(vals));
    MirroredInOrder(Runs(vals), |vals|);
    forall r ensures r in Runs(Reversed(vals)) <==> r in MirrorAll(Runs(vals), |vals|) {
      RunMirrorsBoth(vals, r);
      MirroredMember(Runs(vals), |vals|, r);
    }
    OnlyOneOrder(Runs(Reversed(vals)), MirrorAll(Runs(vals), |vals|));
  }

  lemma {:induction false} GapAt(stripes: seq<Run>, k: nat)
    requires k + 1 < |stripes|
    ensures |Gaps(stripes)| == |stripes| - 1 && Gaps(stripes)[k] == stripes[k + 1].start - stripes[k].end
  {
    GapCount(stripes);
    if k > 0 { GapAt(stripes[1..], k - 1); }
  }

  lemma {:induction false} GapCount(stripes: seq<Run>)
    ensures |Gaps(stripes)| == Max(0, |stripes| - 1)
  {
    if |stripes| >= 2 { GapCount(stripes[1..]); }
  }

  lemma GapsReversed(stripes: seq<Run>, length: int)
    ensures Gaps(MirrorAll(stripes, length)) == Reversed(Gaps(stripes))
  {
    var n := |stripes| - 1;
    GapCount(stripes);
    GapCount(MirrorAll(stripes, length));
    forall k: nat | k < n ensures Gaps(MirrorAll(stripes, length))[k] == Reversed(Gaps(stripes))[k] {
      GapAt(MirrorAll(stripes, length), k);
      GapAt(stripes, n - 1 - k);
    }
  }

  lemma ScaleReversed(steps: seq<int>, perStep: real)
    ensures Scale(Reversed(steps), perStep) == Reversed(Scale(steps, perStep))
  {
    forall k: nat | k < |steps| ensures Scale(Reversed(steps), perStep)[k] == Reversed(Scale(steps, perStep))[k] {
      ScaleAt(Reversed(steps), perStep, k);
      ScaleAt(steps, perStep, |steps| - 1 - k);
    }
  }

  lemma {:induction false} ReversedMembers<T>(s: seq<T>)
    ensures multiset(Reversed(s)) == multiset(s)
  {
    if s != [] {
      var n := |s| - 1;
      ReversedMembers(s[..n]);
      assert Reversed(s) == [s[n]] + Reversed(s[..n]);
      assert s == s[..n] + [s[n]];
    } else {
      assert Reversed(s) == s;
    }
  }

  lemma SumOfTwo(s: seq<real>)
    requires |s| == 2
    ensures Sum(s) == s[0] + s[1]
  {
    assert s[1..][0] == s[1] && s[1..][1..] == [];
    assert Sum(s[1..]) == s[1];
  }

  lemma TrimmedMeanReversed(dists: seq<real>)
    requires dists != []
    ensures TrimmedMean(Reversed(dists)) == TrimmedMean(dists)
  {
    if |dists| == 1 {
      assert Reversed(dists) == dists;
    } else if |dists| == 2 {
      SumOfTwo(dists);
      SumOfTwo(Reversed(dists));
    } else {
      ReversedMembers(dists);
      SortPermuted(Reversed(dists), dists);
    }
  }

  lemma StripesReverse(mask: seq<seq<int>>, s: Span)
    requires IsMask(mask) && IsReversed(s)
    ensures StripesOn(mask, Back(s)) == MirrorAll(StripesOn(mask, s), s.Last() + 1)
  {
    var vals := Samples(mask, LineXs(s), LineYs(s));
    assert Samples(mask, LineXs(Back(s)), LineYs(Back(s))) == Reversed(vals);
    RunsReversed(vals);
  }

  /** Measured in both directions, a line without ties has the same gaps, in reverse order, and the same mean. */
  method MeasureBothWays(mask: seq<seq<int>>, x0: real, y0: real, x1: real, y1: real, lineLenM: real)
    returns (there: Measurement, back: Measurement)
    requires IsMask(mask) && lineLenM >= 0.0
    ensures var s := SpanOf(x0, y0, x1, y1);
            !MoreTwos(Longer(s), Shorter(s)) ==>
              && back.stripes == MirrorAll(there.stripes, s.Last() + 1)
              && back.gapSteps == Reversed(there.gapSteps) && back.gapDistsM == Reversed(there.gapDistsM)
              && back.gapMeanM == there.gapMeanM
  {
    there := CalcWaveGaps(mask, x0, y0, x1, y1, lineLenM);
    back := CalcWaveGaps(mask, x1, y1, x0, y0, lineLenM);
    ghost var s := SpanOf(x0, y0, x1, y1);
    LineReverses(s);
    if IsReversed(s) {
      StripesReverse(mask, s);
      GapsReversed(there.stripes, s.Last() + 1);
      if |there.stripes| >= 2 {
        ScaleReversed(there.gapSteps, lineLenM / Max(1, s.Last()) as real);
        TrimmedMeanReversed(there.gapDistsM);
      }
    }
  }

  // ---------- and with a tie ----------

  /** A mask with a single foreground pixel. */
  function Dot(h: nat, w: nat, y: int, x: int): (mask: seq<seq<int>>)
    requires h > 0 && w > 0
    ensures IsMask(mask) && |mask| == h && |mask[0]| == w
    ensures forall i, j :: 0 <= i < h && 0 <= j < w ==> mask[i][j] == if i == y && j == x then 1 else 0
  {
    seq(h, i requires 0 <= i < h => seq(w, j requires 0 <= j < w => if i == y && j == x then 1 else 0))
  }

  lemma DotSample(h: nat, w: nat, y: int, x: int, xs: seq<int>, ys: seq<int>, i: nat)
    requires h > 0 && w > 0 && |xs| == |ys| && i < |xs| && 0 <= xs[i] < w && 0 <= ys[i] < h
    ensures Samples(Dot(h, w, y, x), xs, ys)[i] == if ys[i] == y && xs[i] == x then 1 else 0
  {
  }

  /** At a tie the pixel of the one direction is on no step of the other. */
  lemma TiePixelMissing(s: Span, n: nat, m: nat)
    requires n <= s.Last() && m <= s.Last() && IsTie(s, n)
    ensures Back(s).PixelX(m) != s.PixelX(n) || Back(s).PixelY(m) != s.PixelY(n)
  {
    var same := s.Last() - n;
    PixelsMeet(s, n);
    if m < same { LongerMoves(Back(s), m, same); } else if same < m { LongerMoves(Back(s), same, m); }
  }

  lemma LongerMoves(s: Span, n: nat, m: nat)
    requires n < m <= s.Last()
    ensures s.Dx() >= s.Dy() ==> s.PixelX(n) != s.PixelX(m)
    ensures s.Dx() < s.Dy() ==> s.PixelY(n) != s.PixelY(m)
  {
  }

  /** The mask with the pixel of a tie, along the line in both directions. */
  lemma TieSamples(s: Span, n: nat, m: nat, h: nat, w: nat)
    requires n <= s.Last() && m <= s.Last() && IsTie(s, n) && s.x0 >= 0 && s.y0 >= 0 && s.x1 >= 0 && s.y1 >= 0
    requires h == Max(s.y0, s.y1) + 1 && w == Max(s.x0, s.x1) + 1
    ensures var mask := Dot(h, w, s.PixelY(n), s.PixelX(n));
            && Samples(mask, LineXs(Back(s)), LineYs(Back(s)))[m] == 0
            && (Samples(mask, LineXs(s), LineYs(s))[m] == 1 <==> m == n)
  {
    LineSample(s, m, h, w, s.PixelY(n), s.PixelX(n));
    LineSample(Back(s), m, h, w, s.PixelY(n), s.PixelX(n));
    TiePixelMissing(s, n, m);
    PixelOnce(s, n, m);
  }

  lemma PixelOnce(s: Span, n: nat, m: nat)
    requires n <= s.Last() && m <= s.Last()
    ensures s.PixelX(n) == s.PixelX(m) && s.PixelY(n) == s.PixelY(m) <==> n == m
  {
    if m < n { NoPixelTwice(s, m, n); } else if n < m { NoPixelTwice(s, n, m); }
  }

  lemma LineSample(s: Span, m: nat, h: nat, w: nat, y: int, x: int)
    requires m <= s.Last() && s.x0 >= 0 && s.y0 >= 0 && s.x1 >= 0 && s.y1 >= 0
    requires h == Max(s.y0, s.y1) + 1 && w == Max(s.x0, s.x1) + 1
    ensures Samples(Dot(h, w, y, x), LineXs(s), LineYs(s))[m] == if s.PixelY(m) == y && s.PixelX(m) == x then 1 else 0
  {
    Endpoints(s, m);
    DotSample(h, w, y, x, LineXs(s), LineYs(s), m);
  }

  lemma SingleOne(vals: seq<Bit>, n: nat)
    requires n < |vals| && forall m: nat :: m < |vals| ==> (vals[m] == 1 <==> m == n)
    ensures Runs(vals) != []
  {
    RunsAreTheMaximalRuns(vals);
    assert IsRun(vals, Run(n, n));
  }

  lemma NoOne(vals: seq<Bit>)
    requires forall m: nat :: m < |vals| ==> vals[m] == 0
    ensures Runs(vals) == []
  {
    HeldBits(vals);
    NoOnesNoCrests(vals, 0);
  }

  /** A tie shows: on some mask one direction crosses a stripe and the other none. */
  lemma TieShows(s: Span) returns (mask: seq<seq<int>>)
    requires MoreTwos(Longer(s), Shorter(s)) && s.x0 >= 0 && s.y0 >= 0 && s.x1 >= 0 && s.y1 >= 0
    ensures IsMask(mask) && StripesOn(mask, s) != [] && StripesOn(mask, Back(s)) == []
  {
    TieExists(s);
    var n: nat :| n <= s.Last() && IsTie(s, n);
    mask := TieMask(s, n);
  }

  lemma TieMask(s: Span, n: nat) returns (mask: seq<seq<int>>)
    requires n <= s.Last() && IsTie(s, n) && s.x0 >= 0 && s.y0 >= 0 && s.x1 >= 0 && s.y1 >= 0
    ensures IsMask(mask) && StripesOn(mask, s) != [] && StripesOn(mask, Back(s)) == []
  {
    var h, w := Max(s.y0, s.y1) + 1, Max(s.x0, s.x1) + 1;
    mask := Dot(h, w, s.PixelY(n), s.PixelX(n));
    var vals, back := Samples(mask, LineXs(s), LineYs(s)), Samples(mask, LineXs(Back(s)), LineYs(Back(s)));
    forall m: nat | m <= s.Last() ensures back[m] == 0 && (vals[m] == 1 <==> m == n) {
      TieSamples(s, n, m, h, w);
    }
    SingleOne(vals, n);
    NoOne(back);
  }

  /**
    For lines with non-negative pixels, the number of stripes is the same in both directions on every mask exactly
    without ties.
  */
  lemma DirectionMatters(s: Span)
    requires s.x0 >= 0 && s.y0 >= 0 && s.x1 >= 0 && s.y1 >= 0
    ensures (forall mask :: IsMask(mask) ==> |StripesOn(mask, Back(s))| == |StripesOn(mask, s)|)
       <==> !MoreTwos(Longer(s), Shorter(s))
  {
    LineReverses(s);
    if MoreTwos(Longer(s), Shorter(s)) {
      var mask := TieShows(s);
      assert |StripesOn(mask, Back(s))| != |StripesOn(mask, s)|;
    } else {
      forall mask | IsMask(mask) ensures |StripesOn(mask, Back(s))| == |StripesOn(mask, s)| { StripesReverse(mask, s); }
    }
  }
}
