/**
  datasets/wake_dataset.py: rotated boxes, their polygons and upright boxes, and the horizontal flip.
  pi, cos and sin are parameters; what is needed of them is written as preconditions.
*/
module Flip {
  import opened Rounding

  datatype Unit = Radian | Degree

  datatype Point = Point(x: real, y: real)

  datatype Rbox = Rbox(cx: real, cy: real, w: real, h: real, angle: real)

  datatype Aabb = Aabb(xmin: real, ymin: real, xmax: real, ymax: real)

  datatype Poly = Poly(p0: Point, p1: Point, p2: Point, p3: Point)

  // ---------- angles ----------

  function HalfTurn(unit: Unit, pi: real): real { if unit.Degree? then 180.0 else pi }

  /** Equal up to k full turns. */
  predicate ApartBy(a: real, b: real, half: real, k: int) { a == b + k as real * (2.0 * half) }

  ghost predicate Congruent(a: real, b: real, half: real) { exists k :: ApartBy(a, b, half, k) }

  predicate InRange(a: real, half: real) { -half < a <= half }

  method NormalizeAngle(angle0: real, unit: Unit, pi: real) returns (angle: real)
    requires pi > 1.0
    ensures InRange(angle, HalfTurn(unit, pi)) && Congruent(angle, angle0, HalfTurn(unit, pi))
    ensures unit.Degree? ==> -180.0 < angle <= 180.0 && Congruent(angle, angle0, 180.0)
    ensures unit.Radian? ==> -pi < angle <= pi && Congruent(angle, angle0, pi)
  {
    var half := HalfTurn(unit, pi);
    angle := angle0;
    ghost var k := 0;
    while angle <= -half
      invariant ApartBy(angle, angle0, half, k)
      invariant angle0 <= -half ==> angle <= half
      invariant angle0 > -half ==> angle == angle0
      decreases -half - angle
    {
      angle := angle + 2.0 * half;
      k := k + 1;
    }
    while angle > half
      invariant ApartBy(angle, angle0, half, k) && angle > -half
      decreases angle - half
    {
      angle := angle - 2.0 * half;
      k := k - 1;
    }
  }

  /** There is only one such angle. */
  lemma NormalizedUnique(a: real, b: real, half: real)
    requires half > 0.0 && InRange(a, half) && InRange(b, half) && Congruent(a, b, half)
    ensures a == b
  {
    var k :| ApartBy(a, b, half, k);
    NoFullTurn(k, 2.0 * half);
  }

  lemma NoFullTurn(k: int, turn: real)
    requires turn > 0.0 && -turn < k as real * turn < turn
    ensures k == 0
  {
    assert k >= 1 ==> (k - 1) as real * turn >= 0.0;
    assert k <= -1 ==> (k + 1) as real * turn <= 0.0;
  }

  /** Reflecting twice is the identity on angles, up to full turns. */
  lemma ReflectTwice(a: real, b: real, c: real, half: real)
    requires Congruent(b, half - a, half) && Congruent(c, half - b, half)
    ensures Congruent(c, a, half)
  {
    var k :| ApartBy(b, half - a, half, k);
    var l :| ApartBy(c, half - b, half, l);
    assert (l - k) as real * (2.0 * half) == l as real * (2.0 * half) - k as real * (2.0 * half);
    assert ApartBy(c, a, half, l - k);
  }

  // ---------- the flip, in place ----------

  function FlipX(x: real, W: int): real { (W - 1) as real - x }

  /** b is the rotated box a, flipped. */
  ghost predicate IsFlipped(a: Rbox, b: Rbox, W: int, half: real)
  {
    && b.cx == FlipX(a.cx, W) && b.cy == a.cy && b.w == a.w && b.h == a.h
    && InRange(b.angle, half) && Congruent(b.angle, half - a.angle, half)
  }

  method HflipRboxes(boxes: array<Rbox>, W: int, unit: Unit, pi: real)
    requires pi > 1.0
    modifies boxes
    ensures var half := if unit.Degree? then 180.0 else pi;
            forall i :: 0 <= i < boxes.Length ==> IsFlipped(old(boxes[i]), boxes[i], W, half)
  {
    var half := HalfTurn(unit, pi);
    for i := 0 to boxes.Length
      invariant forall k :: 0 <= k < i ==> IsFlipped(old(boxes[k]), boxes[k], W, half)
      invariant forall k :: i <= k < boxes.Length ==> boxes[k] == old(boxes[k])
    {
      boxes[i] := boxes[i].(cx := FlipX(boxes[i].cx, W), angle := half - boxes[i].angle);
      var normal := NormalizeAngle(boxes[i].angle, unit, pi);
      boxes[i] := boxes[i].(angle := normal);
    }
  }

  function FlipPoint(p: Point, W: int): Point { Point(FlipX(p.x, W), p.y) }

  function FlipPoly(p: Poly, W: int): Poly
  {
    Poly(FlipPoint(p.p0, W), FlipPoint(p.p1, W), FlipPoint(p.p2, W), FlipPoint(p.p3, W))
  }

  method HflipPolys(boxes: array<Poly>, W: int)
    modifies boxes
    ensures forall i :: 0 <= i < boxes.Length ==> boxes[i] == FlipPoly(old(boxes[i]), W)
  {
    for i := 0 to boxes.Length
      invariant forall k :: 0 <= k < boxes.Length ==> boxes[k] == if k < i then FlipPoly(old(boxes[k]), W)
                                                                     else old(boxes[k])
    {
      boxes[i] := FlipPoly(boxes[i], W);
    }
  }

  function FlipAabb(b: Aabb, W: int): Aabb { Aabb(FlipX(b.xmax, W), b.ymin, FlipX(b.xmin, W), b.ymax) }

  method HflipAabbs(boxes: array<Aabb>, W: int)
    modifies boxes
    ensures forall i :: 0 <= i < boxes.Length ==> boxes[i] == FlipAabb(old(boxes[i]), W)
  {
    for i := 0 to boxes.Length
      invariant forall k :: 0 <= k < boxes.Length ==> boxes[k] == if k < i then FlipAabb(old(boxes[k]), W)
                                                                     else old(boxes[k])
    {
      var xmin := FlipX(boxes[i].xmax, W);
      var xmax := FlipX(boxes[i].xmin, W);
      boxes[i] := boxes[i].(xmin := xmin);
      boxes[i] := boxes[i].(xmax := xmax);
    }
  }

  /** Flipping twice restores every rotated box whose angle is normalised, and only those. */
  lemma FlipTwice(a: Rbox, b: Rbox, c: Rbox, W: int, half: real)
    requires half > 0.0 && IsFlipped(a, b, W, half) && IsFlipped(b, c, W, half)
    ensures c == a <==> InRange(a.angle, half)
  {
    ReflectTwice(a.angle, b.angle, c.angle, half);
    if InRange(a.angle, half) {
      NormalizedUnique(c.angle, a.angle, half);
    }
  }

  /** Polygons and upright boxes are always restored. */
  lemma FlipTwicePoly(p: Poly, b: Aabb, W: int)
    ensures FlipPoly(FlipPoly(p, W), W) == p
    ensures FlipAabb(FlipAabb(b, W), W) == b
  {
  }

  // ---------- the flip and the image ----------

  /** `cv2.flip(image, 1)`: every row of pixels reversed. */
  function FlipImage(image: seq<seq<int>>): (r: seq<seq<int>>)
    ensures |r| == |image|
    ensures forall y :: 0 <= y < |image| ==> |r[y]| == |image[y]|
    ensures forall y, x :: 0 <= y < |image| && 0 <= x < |image[y]| ==> r[y][x] == image[y][|image[y]| - 1 - x]
  {
    seq(|image|, y requires 0 <= y < |image| =>
      seq(|image[y]|, x requires 0 <= x < |image[y]| => image[y][|image[y]| - 1 - x]))
  }

  /** The upright box contains the centre of the pixel. */
  predicate Covers(b: Aabb, x: int, y: int) { b.xmin <= x as real <= b.xmax && b.ymin <= y as real <= b.ymax }

  /** A box, and a point, lie over the same pixels of the flipped image as they do in the image itself. */
  lemma FlipFollowsImage(image: seq<seq<int>>, W: int, b: Aabb, x: int, y: int)
    requires 0 <= y < |image| && |image[y]| == W && 0 <= x < W
    ensures var flipped, x' := FlipImage(image), W - 1 - x;
            && flipped[y][x'] == image[y][x]
            && (Covers(FlipAabb(b, W), x', y) <==> Covers(b, x, y))
            && FlipPoint(Point(x as real, y as real), W) == Point(x' as real, y as real)
  {
  }

  /** Every point of every format is mirrored at the middle column. */
  lemma FlipMirrors(p: Poly, b: Rbox, c: Rbox, W: int, half: real)
    requires IsFlipped(b, c, W, half)
    ensures b.cx + c.cx == (W - 1) as real && c.cy == b.cy
    ensures var q := FlipPoly(p, W);
            && p.p0.x + q.p0.x == p.p1.x + q.p1.x == p.p2.x + q.p2.x == p.p3.x + q.p3.x == (W - 1) as real
            && q.p0.y == p.p0.y && q.p1.y == p.p1.y && q.p2.y == p.p2.y && q.p3.y == p.p3.y
  {
  }

  // ---------- geometry ----------

  /** cos and sin, as far as the flip relies on them. */
  ghost predicate IsTrig(cos: real -> real, sin: real -> real, pi: real)
  {
    && (forall a: real, b: real :: a + b == pi ==> cos(a) == -cos(b) && sin(a) == sin(b))
    && (forall a: real, b: real :: ApartBy(a, b, pi, 1) ==> cos(a) == cos(b) && sin(a) == sin(b))
  }

  function Corner(px: real, py: real, c: real, s: real, cx: real, cy: real): Point
  {
    Point(px * c - py * s + cx, px * s + py * c + cy)
  }

  function RboxToPoly(b: Rbox, cos: real -> real, sin: real -> real): Poly
  {
    var dx, dy := b.w / 2.0, b.h / 2.0;
    var c, s := cos(b.angle), sin(b.angle);
    Poly(Corner(-dx, -dy, c, s, b.cx, b.cy), Corner(dx, -dy, c, s, b.cx, b.cy),
         Corner(dx, dy, c, s, b.cx, b.cy), Corner(-dx, dy, c, s, b.cx, b.cy))
  }

  function PolyToAabb(p: Poly): Aabb
  {
    Aabb(MinReal(MinReal(p.p0.x, p.p1.x), MinReal(p.p2.x, p.p3.x)),
         MinReal(MinReal(p.p0.y, p.p1.y), MinReal(p.p2.y, p.p3.y)),
         MaxReal(MaxReal(p.p0.x, p.p1.x), MaxReal(p.p2.x, p.p3.x)),
         MaxReal(MaxReal(p.p0.y, p.p1.y), MaxReal(p.p2.y, p.p3.y)))
  }

  function Minus(p: Point, q: Point): Point { Point(p.x - q.x, p.y - q.y) }

  function Dot(p: Point, q: Point): real { p.x * q.x + p.y * q.y }

  /** A rectangle of the given sides around the centre, its first side along the box's angle, the next across. */
  predicate IsRectangle(p: Poly, b: Rbox, c: real, s: real)
  {
    && Minus(p.p1, p.p0) == Minus(p.p2, p.p3) == Point(b.w * c, b.w * s)
    && Minus(p.p3, p.p0) == Minus(p.p2, p.p1) == Point(-(b.h * s), b.h * c)
    && Dot(Minus(p.p1, p.p0), Minus(p.p3, p.p0)) == 0.0
    && Dot(Minus(p.p1, p.p0), Minus(p.p1, p.p0)) == b.w * b.w
    && Dot(Minus(p.p3, p.p0), Minus(p.p3, p.p0)) == b.h * b.h
    && p.p0.x + p.p2.x == 2.0 * b.cx && p.p0.y + p.p2.y == 2.0 * b.cy
  }

  lemma PolyIsRectangle(b: Rbox, cos: real -> real, sin: real -> real)
    requires cos(b.angle) * cos(b.angle) + sin(b.angle) * sin(b.angle) == 1.0
    ensures IsRectangle(RboxToPoly(b, cos, sin), b, cos(b.angle), sin(b.angle))
  {
    var c, s := cos(b.angle), sin(b.angle);
    var p := RboxToPoly(b, cos, sin);
    SideVectors(b.w, b.h, c, s);
    assert Minus(p.p1, p.p0) == Point(b.w * c, b.w * s);
    assert Minus(p.p3, p.p0) == Point(-(b.h * s), b.h * c);
  }

  lemma SideVectors(w: real, h: real, c: real, s: real)
    requires c * c + s * s == 1.0
    ensures Dot(Point(w * c, w * s), Point(w * c, w * s)) == w * w
    ensures Dot(Point(-(h * s), h * c), Point(-(h * s), h * c)) == h * h
    ensures Dot(Point(w * c, w * s), Point(-(h * s), h * c)) == 0.0
  {
    assert (w * c) * (w * c) + (w * s) * (w * s) == w * w * (c * c + s * s);
    assert (h * s) * (h * s) + (h * c) * (h * c) == h * h * (c * c + s * s);
    assert (w * c) * (h * s) == (w * s) * (h * c);
  }

  /** The upright box contains all four corners, and each of its sides touches one. */
  lemma AabbIsTight(p: Poly)
    ensures var b, corners := PolyToAabb(p), [p.p0, p.p1, p.p2, p.p3];
            && (forall i :: 0 <= i < 4 ==> b.xmin <= corners[i].x <= b.xmax && b.ymin <= corners[i].y <= b.ymax)
            && (exists i :: 0 <= i < 4 && corners[i].x == b.xmin) && (exists i :: 0 <= i < 4 && corners[i].x == b.xmax)
            && (exists i :: 0 <= i < 4 && corners[i].y == b.ymin) && (exists i :: 0 <= i < 4 && corners[i].y == b.ymax)
  {
    var corners := [p.p0, p.p1, p.p2, p.p3];
    assert corners[0] == p.p0 && corners[1] == p.p1 && corners[2] == p.p2 && corners[3] == p.p3;
  }

  lemma {:induction false} Periodic(cos: real -> real, sin: real -> real, pi: real, a: real, b: real, k: nat)
    requires IsTrig(cos, sin, pi) && ApartBy(a, b, pi, k)
    ensures cos(a) == cos(b) && sin(a) == sin(b)
    decreases k
  {
    if k > 0 {
      var before := a - 2.0 * pi;
      OneTurnLess(a, b, pi, k);
      assert ApartBy(a, before, pi, 1);
      Periodic(cos, sin, pi, before, b, k - 1);
    }
  }

  lemma OneTurnLess(a: real, b: real, half: real, k: int)
    requires ApartBy(a, b, half, k)
    ensures ApartBy(a - 2.0 * half, b, half, k - 1) && ApartBy(b, a, half, -k)
  {
    var turn := 2.0 * half;
    assert (k - 1) as real * turn == k as real * turn - turn;
    assert (-k) as real * turn == -(k as real * turn);
  }

  lemma TrigOfCongruent(cos: real -> real, sin: real -> real, pi: real, a: real, b: real)
    requires IsTrig(cos, sin, pi) && Congruent(a, b, pi)
    ensures cos(a) == cos(b) && sin(a) == sin(b)
  {
    var k :| ApartBy(a, b, pi, k);
    if k >= 0 {
      Periodic(cos, sin, pi, a, b, k);
    } else {
      OneTurnLess(a, b, pi, k);
      Periodic(cos, sin, pi, b, a, -k);
    }
  }

  /**
    The polygon of a flipped rotated box is the flipped polygon, with its corners listed the other way
    round, as a reflection must.
  */
  lemma FlipCommutesWithPoly(a: Rbox, b: Rbox, W: int, cos: real -> real, sin: real -> real, pi: real)
    requires IsTrig(cos, sin, pi) && IsFlipped(a, b, W, pi)
    ensures var p := FlipPoly(RboxToPoly(a, cos, sin), W);
            RboxToPoly(b, cos, sin) == Poly(p.p3, p.p2, p.p1, p.p0)
  {
    TrigOfCongruent(cos, sin, pi, b.angle, pi - a.angle);
    var c, s := cos(a.angle), sin(a.angle);
    var dx, dy := a.w / 2.0, a.h / 2.0;
    CornerReflects(-dx, dy, c, s, a.cx, a.cy, W);
    CornerReflects(dx, dy, c, s, a.cx, a.cy, W);
    CornerReflects(dx, -dy, c, s, a.cx, a.cy, W);
    CornerReflects(-dx, -dy, c, s, a.cx, a.cy, W);
  }

  lemma CornerReflects(px: real, py: real, c: real, s: real, cx: real, cy: real, W: int)
    ensures Corner(px, -py, -c, s, FlipX(cx, W), cy) == FlipPoint(Corner(px, py, c, s, cx, cy), W)
  {
  }

  /** The upright box around a flipped rotated box is the flipped upright box. */
  lemma FlipCommutesWithAabb(a: Rbox, b: Rbox, W: int, cos: real -> real, sin: real -> real, pi: real)
    requires IsTrig(cos, sin, pi) && IsFlipped(a, b, W, pi)
    ensures PolyToAabb(RboxToPoly(b, cos, sin)) == FlipAabb(PolyToAabb(RboxToPoly(a, cos, sin)), W)
  {
    FlipCommutesWithPoly(a, b, W, cos, sin, pi);
    AabbReflects(RboxToPoly(a, cos, sin), W);
  }

  lemma AabbReflects(p: Poly, W: int)
    ensures var q := FlipPoly(p, W);
            PolyToAabb(q) == PolyToAabb(Poly(q.p3, q.p2, q.p1, q.p0)) == FlipAabb(PolyToAabb(p), W)
  {
  }
}
