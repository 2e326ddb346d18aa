/**
  utils/lbr.py, `bresenham_line`: the pixels of a scan line, in all eight octants.

  The reference definition is the ideal segment itself. After n steps along the longer axis, the
  pixel is the one whose offset along the shorter axis is the nearest integer to the ideal offset,
  a tie going to the pixel nearer to the start.
*/
module Bresenham {
  import opened IntegerMath
  import opened Rounding

  /** The integer nearest to a / b, ties going down. */
  function NearestDown(a: nat, b: nat): nat
    requires b > 0
  {
    if 2 * a <= b then 0 else 1 + NearestDown(if a >= b then a - b else 0, b)
  }

  lemma {:induction false} NearestDownIsNearest(a: nat, b: nat)
    requires b > 0
    ensures 0 <= 2 * (NearestDown(a, b) * b - a) + b < 2 * b
  {
    if b < a {
      NearestDownIsNearest(a - b, b);
      assert NearestDown(a, b) * b == NearestDown(a - b, b) * b + b;
    }
  }

  lemma NearestDownUnique(a: nat, b: nat, q: nat)
    requires b > 0
    requires 0 <= 2 * (q * b - a) + b < 2 * b
    ensures q == NearestDown(a, b)
  {
    var r := NearestDown(a, b);
    NearestDownIsNearest(a, b);
    MulDifference(r, q, b);
    OnlyZeroMultiple(r - q, b);
  }

  /** How far the ideal pixel lies from the start, along each axis, after n steps. */
  function StepsX(dx: nat, dy: nat, n: nat): (i: nat)
  {
    if dx >= dy then n else NearestDown(n * dx, dy)
  }

  function StepsY(dx: nat, dy: nat, n: nat): (j: nat)
  {
    if dx < dy then n else if dx == 0 then 0 else NearestDown(n * dy, dx)
  }

  function Direction(a: int, b: int): int { if a < b then 1 else -1 }

  /** The coordinate k steps from a in the direction of b. */
  function Along(a: int, b: int, k: nat): int { if a < b then a + k else a - k }

  /** One step along the longer axis moves the nearest offset on by one exactly when it falls behind. */
  lemma NextNearest(p: nat, b: nat, a: nat)
    requires a >= b && a > 0
    ensures var q := NearestDown(p, a);
            NearestDown(p + b, a) == if 2 * (q * a - p - b) + a < 0 then q + 1 else q
  {
    var q := NearestDown(p, a);
    NearestDownIsNearest(p, a);
    MulNext(q, a);
    if 2 * (q * a - p - b) + a < 0 {
      NearestDownUnique(p + b, a, q + 1);
    } else {
      NearestDownUnique(p + b, a, q);
    }
  }

  /** The error term after n steps, as a function of the steps taken along each axis. */
  function ErrorTerm(dx: nat, dy: nat, n: nat): int
  {
    StepsY(dx, dy, n) * dx - StepsX(dx, dy, n) * dy + dx - dy
  }

  /** Each axis steps when the code's test on the doubled error term says so. */
  ghost predicate StepsAsTested(dx: nat, dy: nat, n: nat)
  {
    var err := ErrorTerm(dx, dy, n);
    var stepX, stepY := 2 * err + dy > 0, 2 * err < dx;
    && StepsX(dx, dy, n + 1) == StepsX(dx, dy, n) + (if stepX then 1 else 0)
    && StepsY(dx, dy, n + 1) == StepsY(dx, dy, n) + (if stepY then 1 else 0)
    && ErrorTerm(dx, dy, n + 1) == err - (if stepX then dy else 0) + (if stepY then dx else 0)
  }

  lemma NextPixel(dx: nat, dy: nat, n: nat)
    requires n < Max(dx, dy)
    ensures StepsAsTested(dx, dy, n)
  {
    if dx > dy {
      NextPixelWide(dx, dy, n);
    } else if dx == dy {
      NextPixelDiagonal(dx, n);
    } else {
      NextPixelTall(dx, dy, n);
    }
  }

  lemma NextPixelWide(dx: nat, dy: nat, n: nat)
    requires n < dx && dx > dy
    ensures StepsAsTested(dx, dy, n)
  {
    var j, j' := StepsY(dx, dy, n), StepsY(dx, dy, n + 1);
    var p, q := n * dy, j * dx;
    assert ErrorTerm(dx, dy, n) == q - p + dx - dy;
    MulNext(n, dy);
    NextNearest(p, dy, dx);
    NearestDownIsNearest(n * dy, dx);
    assert 2 * (q - p + dx - dy) + dy > 0;
    ErrorAfter(dx, dy, n, j, 1, j' - j);
  }

  lemma NextPixelDiagonal(d: nat, n: nat)
    requires n < d
    ensures StepsAsTested(d, d, n)
  {
    NearestDownUnique(n * d, d, n);
    NearestDownUnique((n + 1) * d, d, n + 1);
    assert StepsX(d, d, n) == StepsY(d, d, n) == n && StepsX(d, d, n + 1) == StepsY(d, d, n + 1) == n + 1;
    assert ErrorTerm(d, d, n) == ErrorTerm(d, d, n + 1) == 0;
  }

  lemma NextPixelTall(dx: nat, dy: nat, n: nat)
    requires n < dy && dx < dy
    ensures StepsAsTested(dx, dy, n)
  {
    var i, i' := StepsX(dx, dy, n), StepsX(dx, dy, n + 1);
    var p, q := n * dx, i * dy;
    assert ErrorTerm(dx, dy, n) == p - q + dx - dy;
    MulNext(n, dx);
    NextNearest(p, dx, dy);
    NearestDownIsNearest(n * dx, dy);
    assert 2 * (p - q + dx - dy) < dx;
    ErrorAfter(dx, dy, i, n, i' - i, 1);
  }

  lemma ErrorAfter(dx: int, dy: int, i: int, j: int, di: int, dj: int)
    requires di in {0, 1} && dj in {0, 1}
    ensures (j + dj) * dx - (i + di) * dy
         == j * dx - i * dy - (if di == 1 then dy else 0) + (if dj == 1 then dx else 0)
  {
  }

  /** The start is the first pixel; both axes arrive in the same step, and no earlier. */
  lemma Arrival(dx: nat, dy: nat, n: nat)
    requires n <= Max(dx, dy)
    ensures StepsX(dx, dy, 0) == 0 && StepsY(dx, dy, 0) == 0
    ensures 0 <= StepsX(dx, dy, n) <= dx && 0 <= StepsY(dx, dy, n) <= dy
    ensures StepsX(dx, dy, n) == dx && StepsY(dx, dy, n) == dy <==> n == Max(dx, dy)
  {
    if dx >= dy && dx > 0 {
      NearestDownUnique(0, dx, 0);
      NearestDownUnique(dx * dy, dx, dy);
      NearestDownMonotone(n * dy, dx * dy, dx) by { MulMonotone(n, dx, dy); }
    } else if dx < dy {
      NearestDownUnique(0, dy, 0);
      NearestDownUnique(dy * dx, dy, dx);
      NearestDownMonotone(n * dx, dy * dx, dy) by { MulMonotone(n, dy, dx); }
    }
  }

  lemma {:induction false} NearestDownMonotone(a: nat, c: nat, b: nat)
    requires b > 0 && a <= c
    ensures NearestDown(a, b) <= NearestDown(c, b)
  {
    if b < a {
      NearestDownMonotone(a - b, c - b, b);
    }
  }

  /** The endpoints of a call, rounded as the code rounds them. */
  datatype Span = Span(x0: int, y0: int, x1: int, y1: int) {
    function Dx(): nat { Abs(x1 - x0) }
    function Dy(): nat { Abs(y1 - y0) }
    function Last(): nat { Max(Dx(), Dy()) }
    function PixelX(n: nat): int { Along(x0, x1, StepsX(Dx(), Dy(), n)) }
    function PixelY(n: nat): int { Along(y0, y1, StepsY(Dx(), Dy(), n)) }
  }

  function SpanOf(x0: real, y0: real, x1: real, y1: real): Span
  {
    Span(Round(x0), Round(y0), Round(x1), Round(y1))
  }

  /** The reference line: pixel n for every n from 0 to the length of the longer side. */
  function LineXs(s: Span): (xs: seq<int>)
    ensures |xs| == s.Last() + 1
  {
    seq(s.Last() + 1, n requires n >= 0 => s.PixelX(n))
  }

  function LineYs(s: Span): (ys: seq<int>)
    ensures |ys| == s.Last() + 1
  {
    seq(s.Last() + 1, n requires n >= 0 => s.PixelY(n))
  }

  /** One round of the code's loop, from one pixel and error term to the next. */
  ghost predicate LoopRound(s: Span, x: int, y: int, err: int, x': int, y': int, err': int)
  {
    var stepX, stepY := 2 * err + s.Dy() > 0, 2 * err < s.Dx();
    && x' == (if stepX then x + Direction(s.x0, s.x1) else x)
    && y' == (if stepY then y + Direction(s.y0, s.y1) else y)
    && err' == err - (if stepX then s.Dy() else 0) + (if stepY then s.Dx() else 0)
  }

  /** A walk: points and error terms that start as the code starts and follow its loop, up to the end point. */
  ghost predicate IsWalk(s: Span, xs: seq<int>, ys: seq<int>, errs: seq<int>)
  {
    && |errs| == |xs| == |ys| == s.Last() + 1
    && xs[0] == s.x0 && ys[0] == s.y0 && errs[0] == s.Dx() - s.Dy()
    && (forall n :: 0 <= n < |xs| ==> (xs[n] == s.x1 && ys[n] == s.y1 <==> n == s.Last()))
    && (forall n :: 0 <= n < s.Last() ==> LoopRound(s, xs[n], ys[n], errs[n], xs[n + 1], ys[n + 1], errs[n + 1]))
  }

  /** The reference line is a walk. */
  lemma LineIsWalk(s: Span) returns (xs: seq<int>, ys: seq<int>, errs: seq<int>)
    ensures IsWalk(s, xs, ys, errs)
  {
    xs, ys, errs := LineXs(s), LineYs(s), ErrorTerms(s);
    forall n: nat | n < |xs| ensures AtEnds(s, xs[n], ys[n], errs[n], n) {
      PixelAtEnds(s, n);
    }
    assert AtEnds(s, xs[0], ys[0], errs[0], 0);
    forall n: nat | n < s.Last()
      ensures LoopRound(s, xs[n], ys[n], errs[n], xs[n + 1], ys[n + 1], errs[n + 1])
    {
      RoundTaken(s, n);
    }
  }

  ghost function ErrorTerms(s: Span): (errs: seq<int>)
    ensures |errs| == s.Last() + 1
    ensures forall n: nat :: n < |errs| ==> errs[n] == ErrorTerm(s.Dx(), s.Dy(), n)
  {
    seq(s.Last() + 1, n requires n >= 0 => ErrorTerm(s.Dx(), s.Dy(), n))
  }

  /** What the code starts with at step 0, and the end point at the last step only. */
  ghost predicate AtEnds(s: Span, x: int, y: int, err: int, n: nat)
  {
    && (n == 0 ==> x == s.x0 && y == s.y0 && err == s.Dx() - s.Dy())
    && (x == s.x1 && y == s.y1 <==> n == s.Last())
  }

  lemma PixelAtEnds(s: Span, n: nat)
    requires n <= s.Last()
    ensures AtEnds(s, s.PixelX(n), s.PixelY(n), ErrorTerm(s.Dx(), s.Dy(), n), n)
  {
    Arrival(s.Dx(), s.Dy(), n);
  }

  /** And the only one. */
  lemma WalkIsLine(s: Span, xs: seq<int>, ys: seq<int>, errs: seq<int>)
    requires IsWalk(s, xs, ys, errs)
    ensures xs == LineXs(s) && ys == LineYs(s)
  {
    forall n: nat | n <= s.Last() ensures xs[n] == s.PixelX(n) && ys[n] == s.PixelY(n) {
      WalkAt(s, xs, ys, errs, n);
    }
  }

  lemma {:induction false} WalkAt(s: Span, xs: seq<int>, ys: seq<int>, errs: seq<int>, n: nat)
    requires IsWalk(s, xs, ys, errs) && n <= s.Last()
    ensures xs[n] == s.PixelX(n) && ys[n] == s.PixelY(n) && errs[n] == ErrorTerm(s.Dx(), s.Dy(), n)
  {
    if n == 0 {
      Arrival(s.Dx(), s.Dy(), 0);
    } else {
      WalkAt(s, xs, ys, errs, n - 1);
      RoundTaken(s, n - 1);
      SameRound(s, xs[n - 1], ys[n - 1], errs[n - 1], xs[n], ys[n], errs[n],
                s.PixelX(n), s.PixelY(n), ErrorTerm(s.Dx(), s.Dy(), n));
    }
  }

  lemma SameRound(s: Span, x: int, y: int, err: int, x1: int, y1: int, err1: int, x2: int, y2: int, err2: int)
    requires LoopRound(s, x, y, err, x1, y1, err1) && LoopRound(s, x, y, err, x2, y2, err2)
    ensures x1 == x2 && y1 == y2 && err1 == err2
  {
  }

  lemma RoundTaken(s: Span, n: nat)
    requires n < s.Last()
    ensures LoopRound(s, s.PixelX(n), s.PixelY(n), ErrorTerm(s.Dx(), s.Dy(), n),
                      s.PixelX(n + 1), s.PixelY(n + 1), ErrorTerm(s.Dx(), s.Dy(), n + 1))
  {
    NextPixel(s.Dx(), s.Dy(), n);
  }

  method BresenhamLine(fx0: real, fy0: real, fx1: real, fy1: real) returns (xs: seq<int>, ys: seq<int>)
    ensures xs == LineXs(SpanOf(fx0, fy0, fx1, fy1)) && ys == LineYs(SpanOf(fx0, fy0, fx1, fy1))
  {
    var x0, y0 := Round(fx0), Round(fy0);
    var x1, y1 := Round(fx1), Round(fy1);
    var dx: int, dy: int := Abs(x1 - x0), Abs(y1 - y0);
    var sx := if x0 < x1 then 1 else -1;
    var sy := if y0 < y1 then 1 else -1;
    var err := dx - dy;
    xs, ys := [], [];
    var x, y := x0, y0;

    ghost var s := SpanOf(fx0, fy0, fx1, fy1);
    ghost var lineXs, lineYs, errs := LineIsWalk(s);
    while true
      invariant |xs| == |ys| < |lineXs|
      invariant xs <= lineXs && ys <= lineYs
      invariant x == lineXs[|xs|] && y == lineYs[|xs|] && err == errs[|xs|]
      decreases |lineXs| - |xs|
    {
      ghost var n := |xs|;
      xs := xs + [x];
      ys := ys + [y];
      if x == x1 && y == y1 {
        break;
      }
      assert LoopRound(s, lineXs[n], lineYs[n], errs[n], lineXs[n + 1], lineYs[n + 1], errs[n + 1]);
      var e2 := 2 * err;
      if e2 > 0 - dy {
        err := err - dy;
        x := x + sx;
      }
      if e2 < dx {
        err := err + dx;
        y := y + sy;
      }
    }
    WalkIsLine(s, xs, ys, errs);
  }

  /**
    Every pixel lies within half a pixel of the ideal segment, measured along the shorter axis:
    twice its cross product with the segment's vector is at most the longer side.
  */
  lemma Accuracy(s: Span, n: nat)
    requires n <= s.Last()
    ensures 2 * Abs((s.PixelY(n) - s.y0) * (s.x1 - s.x0) - (s.PixelX(n) - s.x0) * (s.y1 - s.y0)) <= s.Last()
  {
    NearIdeal(s.Dx(), s.Dy(), n);
    SignedProducts(StepsX(s.Dx(), s.Dy(), n), StepsY(s.Dx(), s.Dy(), n), s.x1 - s.x0, s.y1 - s.y0);
  }

  lemma NearIdeal(dx: nat, dy: nat, n: nat)
    requires n <= Max(dx, dy)
    ensures 2 * Abs(StepsY(dx, dy, n) * dx - StepsX(dx, dy, n) * dy) <= Max(dx, dy)
  {
    if dx >= dy && dx > 0 {
      NearestDownIsNearest(n * dy, dx);
    } else if dx < dy {
      NearestDownIsNearest(n * dx, dy);
    }
  }

  lemma SignedProducts(i: int, j: int, vx: int, vy: int)
    ensures Abs((if vy > 0 then j else 0 - j) * vx - (if vx > 0 then i else 0 - i) * vy)
         == Abs(j * Abs(vx) - i * Abs(vy))
  {
    if (vx > 0) == (vy > 0) {
      assert (if vy > 0 then j else 0 - j) * vx == j * Abs(vx);
      assert (if vx > 0 then i else 0 - i) * vy == i * Abs(vy);
    } else {
      assert (if vy > 0 then j else 0 - j) * vx == -(j * Abs(vx));
      assert (if vx > 0 then i else 0 - i) * vy == -(i * Abs(vy));
    }
  }

  /** The walk starts and ends on the given pixels and never leaves the box they span. */
  lemma Endpoints(s: Span, n: nat)
    requires n <= s.Last()
    ensures s.PixelX(0) == s.x0 && s.PixelY(0) == s.y0
    ensures s.PixelX(s.Last()) == s.x1 && s.PixelY(s.Last()) == s.y1
    ensures Min(s.x0, s.x1) <= s.PixelX(n) <= Max(s.x0, s.x1)
    ensures Min(s.y0, s.y1) <= s.PixelY(n) <= Max(s.y0, s.y1)
    ensures s.PixelX(n) == s.x1 && s.PixelY(n) == s.y1 ==> n == s.Last()
  {
    Arrival(s.Dx(), s.Dy(), n);
    Arrival(s.Dx(), s.Dy(), s.Last());
  }

  /**
    Consecutive pixels are 8-neighbours, each axis only ever moves towards its end, and one of
    the axes (the longer) moves in every step, so no pixel repeats.
  */
  lemma Connected(s: Span, n: nat)
    requires n < s.Last()
    ensures s.PixelX(n + 1) - s.PixelX(n) in {0, Direction(s.x0, s.x1)}
    ensures s.PixelY(n + 1) - s.PixelY(n) in {0, Direction(s.y0, s.y1)}
    ensures if s.Dx() >= s.Dy() then s.PixelX(n + 1) != s.PixelX(n) else s.PixelY(n + 1) != s.PixelY(n)
  {
    NextPixel(s.Dx(), s.Dy(), n);
  }

  lemma NoPixelTwice(s: Span, n: nat, m: nat)
    requires n < m <= s.Last()
    ensures s.PixelX(n) != s.PixelX(m) || s.PixelY(n) != s.PixelY(m)
  {
    assert s.Dx() >= s.Dy() ==> s.PixelX(n) != s.PixelX(m);
  }
}
