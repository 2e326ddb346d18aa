/**
  Rows of rotated boxes in a resized batch (datasets/collater.py): their corner coordinates are scaled, their angle is
  not. The angle is in the unit cos and sin take.
*/
module RotatedRows {
  import opened Collate
  import opened Flip
  import opened Options

  /** What a row x1, y1, x2, y2, angle, class stands for. */
  function RboxOf(row: Row): Rbox
    requires |row| >= 5
  {
    Rbox((row[0] + row[2]) / 2.0, (row[1] + row[3]) / 2.0, row[2] - row[0], row[3] - row[1], row[4])
  }

  function ScalePoint(p: Point, scaleX: real, scaleY: real): Point { Point(p.x * scaleX, p.y * scaleY) }

  function ScalePoly(p: Poly, scaleX: real, scaleY: real): Poly
  {
    Poly(ScalePoint(p.p0, scaleX, scaleY), ScalePoint(p.p1, scaleX, scaleY),
         ScalePoint(p.p2, scaleX, scaleY), ScalePoint(p.p3, scaleX, scaleY))
  }

  lemma Product3(a: real, b: real, c: real, d: real)
    ensures a * b * c - d * b * c == (a - d) * (b * c)
  {
  }

  /** How far apart the two ways of scaling a corner take it. */
  lemma CornerScales(px: real, py: real, c: real, s: real, cx: real, cy: real, scaleX: real, scaleY: real)
    ensures var p, q := Corner(scaleX * px, scaleY * py, c, s, scaleX * cx, scaleY * cy),
                        ScalePoint(Corner(px, py, c, s, cx, cy), scaleX, scaleY);
            p.x - q.x == (scaleX - scaleY) * (py * s) && p.y - q.y == (scaleX - scaleY) * (px * s)
  {
    Product3(scaleX, py, s, scaleY);
    Product3(scaleX, px, s, scaleY);
    Distributes(px * c, py * s, cx, scaleX);
    Distributes(px * s, -(py * c), cy, scaleY);
    assert scaleX * px * c == px * c * scaleX && scaleY * py * c == py * c * scaleY;
    assert scaleX * py * s == py * s * scaleX && scaleY * px * s == px * s * scaleY;
  }

  lemma Distributes(a: real, b: real, c: real, m: real)
    ensures (a - b + c) * m == a * m - b * m + c * m
  {
  }

  lemma ZeroTriple(a: real, b: real, c: real)
    ensures a * (b * c) == 0.0 <==> a == 0.0 || b == 0.0 || c == 0.0
  {
    if a != 0.0 && b != 0.0 && c != 0.0 {
      NonZeroProduct(b, c);
      NonZeroProduct(a, b * c);
    }
  }

  lemma NonZeroProduct(a: real, b: real)
    requires a != 0.0 && b != 0.0
    ensures a * b != 0.0
  {
  }

  /** One corner at (px, py) from the centre is where it should be exactly if nothing has to turn. */
  lemma OneCorner(px: real, py: real, c: real, s: real, cx: real, cy: real, scaleX: real, scaleY: real,
                  tx: real, ty: real, tcx: real, tcy: real)
    requires tx == scaleX * px && ty == scaleY * py && tcx == scaleX * cx && tcy == scaleY * cy
    ensures Corner(tx, ty, c, s, tcx, tcy) == ScalePoint(Corner(px, py, c, s, cx, cy), scaleX, scaleY)
       <==> scaleX == scaleY || s == 0.0 || (px == 0.0 && py == 0.0)
  {
    CornerScales(px, py, c, s, cx, cy, scaleX, scaleY);
    ZeroTriple(scaleX - scaleY, py, s);
    ZeroTriple(scaleX - scaleY, px, s);
  }

  lemma PolyScales(b: Rbox, t: Rbox, cos: real -> real, sin: real -> real, scaleX: real, scaleY: real)
    requires t.angle == b.angle && t.cx == scaleX * b.cx && t.cy == scaleY * b.cy
    requires t.w / 2.0 == scaleX * (b.w / 2.0) && t.h / 2.0 == scaleY * (b.h / 2.0)
    ensures RboxToPoly(t, cos, sin) == ScalePoly(RboxToPoly(b, cos, sin), scaleX, scaleY)
       <==> scaleX == scaleY || sin(b.angle) == 0.0 || (b.w == 0.0 && b.h == 0.0)
  {
    var dx, dy, c, s := b.w / 2.0, b.h / 2.0, cos(b.angle), sin(b.angle);
    OneCorner(-dx, -dy, c, s, b.cx, b.cy, scaleX, scaleY, -(t.w / 2.0), -(t.h / 2.0), t.cx, t.cy);
    OneCorner(dx, -dy, c, s, b.cx, b.cy, scaleX, scaleY, t.w / 2.0, -(t.h / 2.0), t.cx, t.cy);
    OneCorner(dx, dy, c, s, b.cx, b.cy, scaleX, scaleY, t.w / 2.0, t.h / 2.0, t.cx, t.cy);
    OneCorner(-dx, dy, c, s, b.cx, b.cy, scaleX, scaleY, -(t.w / 2.0), t.h / 2.0, t.cx, t.cy);
  }

  lemma ScaledHalves(a: real, b: real, m: real)
    ensures (a * m + b * m) / 2.0 == m * ((a + b) / 2.0) && (b * m - a * m) / 2.0 == m * ((b - a) / 2.0)
  {
  }

  lemma RowScales(row: Row, scaleX: real, scaleY: real)
    requires 5 <= |row| < 9
    ensures var b, t := RboxOf(row), RboxOf(ScaleRow(row, scaleX, scaleY));
            && t.angle == b.angle && t.cx == scaleX * b.cx && t.cy == scaleY * b.cy
            && t.w / 2.0 == scaleX * (b.w / 2.0) && t.h / 2.0 == scaleY * (b.h / 2.0)
  {
    ScaledHalves(row[0], row[2], scaleX);
    ScaledHalves(row[1], row[3], scaleY);
  }

  /** The scaled row has the corners of the box, scaled, in order. */
  predicate StandsForBox(row: Row, scaleX: real, scaleY: real, cos: real -> real, sin: real -> real)
    requires |row| >= 5
  {
    var poly := RboxToPoly(RboxOf(row), cos, sin);
    RboxToPoly(RboxOf(ScaleRow(row, scaleX, scaleY)), cos, sin) == ScalePoly(poly, scaleX, scaleY)
  }

  lemma StandsWithFactors(row: Row, scaleX: real, scaleY: real, cos: real -> real, sin: real -> real)
    requires 5 <= |row| < 9
    ensures StandsForBox(row, scaleX, scaleY, cos, sin)
       <==> scaleX == scaleY || sin(row[4]) == 0.0 || (row[0] == row[2] && row[1] == row[3])
  {
    RowScales(row, scaleX, scaleY);
    PolyScales(RboxOf(row), RboxOf(ScaleRow(row, scaleX, scaleY)), cos, sin, scaleX, scaleY);
  }

  /**
    Whether the row of a rotated box still stands for the box, in the image resized by this call: if the sides
    keep their ratio exactly, or the box is upright, or it is a point.
  */
  lemma ScaledRotatedBox(s: Sample, row: Row, targetSize: nat, maxSize: nat, keepRatio: bool,
                         cos: real -> real, sin: real -> real)
    requires IsResizable(s, targetSize, maxSize, keepRatio) && 5 <= |row| < 9
    ensures var r := ScaledOf(s, targetSize, maxSize, keepRatio);
            StandsForBox(row, r.scaleX, r.scaleY, cos, sin)
            <==> r.w * s.h == r.h * s.w || sin(row[4]) == 0.0 || (row[0] == row[2] && row[1] == row[3])
  {
    var r := ScaledOf(s, targetSize, maxSize, keepRatio);
    StandsWithFactors(row, r.scaleX, r.scaleY, cos, sin);
    SameFactors(r.w, s.w, r.h, s.h, r.scaleX, r.scaleY);
  }

  lemma SameFactors(a: nat, b: nat, c: nat, d: nat, p: real, q: real)
    requires b > 0 && d > 0 && p == a as real / b as real && q == c as real / d as real
    ensures p == q <==> a * d == c * b
  {
    assert p * b as real == a as real && q * d as real == c as real;
    assert p == q ==> a as real * d as real == c as real * b as real;
    if a * d == c * b {
      assert a as real * d as real == c as real * b as real;
      assert p * (b as real * d as real) == q * (b as real * d as real);
    }
  }

  /** A box 100 long that stands upright inside its image sticks out of the image resized to half the height. */
  lemma RotatedBoxSticksOut(maxSize: nat, angle: real, cls: real, cos: real -> real, sin: real -> real)
    requires cos(angle) == 0.0 && sin(angle) == 1.0
    ensures IsResizable(Sample(256, 128, [], [], None), 128, maxSize, false)
    ensures var r := ScaledOf(Sample(256, 128, [], [], None), 128, maxSize, false);
            var row := [0.0, 49.0, 100.0, 51.0, angle, cls];
            var before := PolyToAabb(RboxToPoly(RboxOf(row), cos, sin));
            var after := PolyToAabb(RboxToPoly(RboxOf(ScaleRow(row, r.scaleX, r.scaleY)), cos, sin));
            before.ymin == 0.0 && before.ymax == 100.0 && after.ymin == -25.0 && after.ymax == 75.0
  {
    var s := Sample(256, 128, [], [], None);
    var row := [0.0, 49.0, 100.0, 51.0, angle, cls];
    assert FloorToMultiple(128.0) == 128;
    assert ScaledOf(s, 128, maxSize, false) == Scaled(128, 128, 1.0, 0.5);
    var scaled := ScaleRow(row, 1.0, 0.5);
    assert scaled[0] == 0.0 && scaled[1] == 24.5 && scaled[2] == 100.0 && scaled[3] == 25.5 && scaled[4] == angle;
  }
}
