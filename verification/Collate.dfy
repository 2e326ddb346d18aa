/**
  Resizing and batching: `rescale` (utils/utils.py), the collater (datasets/collater.py) and the filter
  with which the loss (models/losses.py) gets its boxes back.
*/
module Collate {
  import opened Images
  import IntegerMath
  import opened Options
  import opened Rounding

  // ---------- rescale ----------

  datatype Scaled = Scaled(h: int, w: int, scaleX: real, scaleY: real)

  /** Sides are rounded down to multiples of this. */
  const MULTIPLE := 32

  function FloorToMultiple(v: real): (r: int)
    ensures v - 32.0 < r as real <= v && r % MULTIPLE == 0
  {
    (v / MULTIPLE as real).Floor * MULTIPLE
  }

  /** Would the longer side exceed the limit at the scale the shorter one asks for? */
  predicate IsLimited(h: nat, w: nat, targetSize: nat, maxSize: nat)
    requires h > 0 && w > 0
  {
    Round(ScaledBy(Max(h, w), targetSize as real / Min(h, w) as real)) > maxSize
  }

  function ImScale(h: nat, w: nat, targetSize: nat, maxSize: nat): real
    requires h > 0 && w > 0
  {
    if IsLimited(h, w, targetSize, maxSize) then maxSize as real / Max(h, w) as real
    else targetSize as real / Min(h, w) as real
  }

  /** What becomes of a side of an h x w image. */
  function NewSide(side: nat, h: nat, w: nat, targetSize: nat, maxSize: nat, keepRatio: bool): int
    requires h > 0 && w > 0
  {
    if keepRatio then FloorToMultiple(ScaledBy(side, ImScale(h, w, targetSize, maxSize)))
    else FloorToMultiple(targetSize as real)
  }

  /** None: `cv2.resize` refuses to produce an empty image. */
  function Rescale(h: nat, w: nat, targetSize: nat, maxSize: nat, keepRatio: bool): Option<Scaled>
    requires h > 0 && w > 0
  {
    var newH := NewSide(h, h, w, targetSize, maxSize, keepRatio);
    var newW := NewSide(w, h, w, targetSize, maxSize, keepRatio);
    if newH <= 0 || newW <= 0 then None
    else Some(Scaled(newH, newW, newW as real / w as real, newH as real / h as real))
  }

  /** The scale takes the longer side to at most half a pixel above the limit, which rounding down makes good. */
  lemma ScaleFits(h: nat, w: nat, targetSize: nat, maxSize: nat)
    requires h > 0 && w > 0
    ensures 0.0 <= ImScale(h, w, targetSize, maxSize)
    ensures ScaledBy(Max(h, w), ImScale(h, w, targetSize, maxSize)) <= maxSize as real + 0.5
  {
    QuotientScale(targetSize, Min(h, w));
    QuotientScale(maxSize, Max(h, w));
    LimitFits(Max(h, w), targetSize as real / Min(h, w) as real, maxSize as real / Max(h, w) as real, maxSize);
  }

  lemma QuotientScale(a: nat, b: nat)
    requires b > 0
    ensures a as real / b as real >= 0.0 && ScaledBy(b, a as real / b as real) == a as real
  {
    NonNegativeQuotient(a as real, b as real);
    QuotientBack(a as real, b as real);
  }

  lemma LimitFits(long: nat, wanted: real, limit: real, maxSize: nat)
    requires ScaledBy(long, limit) == maxSize as real
    ensures ScaledBy(long, if Round(ScaledBy(long, wanted)) > maxSize then limit else wanted) <= maxSize as real + 0.5
  {
  }

  /** With the aspect ratio kept, a new side is no larger than the limit. */
  lemma KeptRatioFits(side: nat, h: nat, w: nat, targetSize: nat, maxSize: nat)
    requires h > 0 && w > 0 && (side == h || side == w)
    ensures 0 <= NewSide(side, h, w, targetSize, maxSize, true) <= maxSize
  {
    ScaleFits(h, w, targetSize, maxSize);
    ScaledSideFits(side, Max(h, w), ImScale(h, w, targetSize, maxSize), maxSize);
  }

  /** Otherwise both sides are the target, and in either case they are multiples of 32. */
  lemma NewSideShape(side: nat, h: nat, w: nat, targetSize: nat, maxSize: nat, keepRatio: bool)
    requires h > 0 && w > 0
    ensures NewSide(side, h, w, targetSize, maxSize, keepRatio) % MULTIPLE == 0
    ensures !keepRatio ==> 0 <= targetSize - NewSide(side, h, w, targetSize, maxSize, keepRatio) < MULTIPLE
  {
  }

  /** An image that is resized at all keeps sides of at least 32. */
  lemma ResizedIsLarge(h: nat, w: nat, targetSize: nat, maxSize: nat, keepRatio: bool)
    requires h > 0 && w > 0 && Rescale(h, w, targetSize, maxSize, keepRatio).Some?
    ensures var r := Rescale(h, w, targetSize, maxSize, keepRatio).value;
            r.h >= 32 && r.w >= 32 && r.h % 32 == 0 && r.w % 32 == 0
  {
    var r := Rescale(h, w, targetSize, maxSize, keepRatio).value;
    NewSideShape(h, h, w, targetSize, maxSize, keepRatio);
    NewSideShape(w, h, w, targetSize, maxSize, keepRatio);
    PositiveMultiple(r.h);
    PositiveMultiple(r.w);
  }

  lemma PositiveMultiple(n: int)
    requires n > 0 && n % MULTIPLE == 0
    ensures n >= MULTIPLE
  {
  }

  lemma ScaledSideFits(side: nat, big: nat, scale: real, maxSize: nat)
    requires side <= big && scale >= 0.0 && ScaledBy(big, scale) <= maxSize as real + 0.5
    ensures 0 <= FloorToMultiple(ScaledBy(side, scale)) <= maxSize
  {
    ScaledWithin(side, big, scale);
    MultipleWithin(FloorToMultiple(ScaledBy(side, scale)), ScaledBy(side, scale), maxSize);
  }

  lemma ScaledWithin(side: nat, big: nat, scale: real)
    requires side <= big && scale >= 0.0
    ensures 0.0 <= ScaledBy(side, scale) <= ScaledBy(big, scale)
  {
    ScaleOrder(0.0, side as real, scale);
    ScaleOrder(side as real, big as real, scale);
  }

  lemma MultipleWithin(r: int, v: real, limit: nat)
    requires 0.0 <= v <= limit as real + 0.5 && v - 32.0 < r as real <= v && r % MULTIPLE == 0
    ensures 0 <= r <= limit
  {
    assert -32 < r;
  }

  /** The scale factors are those of the resized image itself, so boxes scaled by them fit it exactly. */
  lemma ScaleFactorsExact(h: nat, w: nat, targetSize: nat, maxSize: nat, keepRatio: bool)
    requires h > 0 && w > 0
    requires Rescale(h, w, targetSize, maxSize, keepRatio).Some?
    ensures var r := Rescale(h, w, targetSize, maxSize, keepRatio).value;
            ScaledBy(w, r.scaleX) == r.w as real && ScaledBy(h, r.scaleY) == r.h as real
  {
    FactorExact(w, NewSide(w, h, w, targetSize, maxSize, keepRatio));
    FactorExact(h, NewSide(h, h, w, targetSize, maxSize, keepRatio));
  }

  lemma FactorExact(side: nat, newSide: int)
    requires side > 0
    ensures ScaledBy(side, newSide as real / side as real) == newSide as real
  {
    QuotientBack(newSide as real, side as real);
  }

  lemma EmptySide(v: real)
    requires v >= 0.0
    ensures FloorToMultiple(v) >= 0 && (FloorToMultiple(v) == 0 <==> v < 32.0)
  {
  }

  lemma SmallQuotient(a: nat, b: nat, side: nat)
    requires b > 0
    ensures ScaledBy(side, a as real / b as real) < 32.0 <==> a * side < 32 * b
  {
    var q := a as real / b as real;
    QuotientBack(a as real, b as real);
    Regroup(side as real, b as real, q, a as real);
    var v := side as real * q;
    if v >= 32.0 { ScaleOrder(32.0, v, b as real); } else { StrictOrder(v, 32.0, b as real); }
  }

  // ---------- what becomes of the sides, in terms of the inputs ----------

  /** The longer side, scaled by targetSize / shorter side and rounded, ties to even, exceeds the limit. */
  predicate ReachesLimit(h: nat, w: nat, targetSize: nat, maxSize: nat)
  {
    var scaled, limit := 2 * (Max(h, w) * targetSize), (2 * maxSize + 1) * Min(h, w);
    scaled > limit || (scaled == limit && maxSize % 2 == 1)
  }

  /** r is the largest multiple of 32 that does not exceed side * a / b. */
  predicate IsLargestMultiple(r: int, side: nat, a: nat, b: nat)
  {
    r % 32 == 0 && r * b <= side * a < (r + 32) * b
  }

  /** newH x newW is what an h x w image is to be resized to. */
  predicate IsResized(h: nat, w: nat, targetSize: nat, maxSize: nat, keepRatio: bool, newH: int, newW: int)
  {
    if !keepRatio then
      IsLargestMultiple(newH, 1, targetSize, 1) && newW == newH
    else if ReachesLimit(h, w, targetSize, maxSize) then
      IsLargestMultiple(newH, h, maxSize, Max(h, w)) && IsLargestMultiple(newW, w, maxSize, Max(h, w))
    else
      IsLargestMultiple(newH, h, targetSize, Min(h, w)) && IsLargestMultiple(newW, w, targetSize, Min(h, w))
  }

  /** Rounding exceeds an integer above its half, and at it if the integer is odd. */
  lemma RoundExceeds(v: real, n: int)
    ensures Round(v) > n <==> 2.0 * v > (2 * n + 1) as real || (2.0 * v == (2 * n + 1) as real && n % 2 == 1)
  {
    var r := Round(v);
    assert r == n && 2.0 * v == (2 * n + 1) as real ==> v - r as real == 0.5;
    assert r == n + 1 && 2.0 * v == (2 * n + 1) as real ==> r as real - v == 0.5;
  }

  lemma ProductCast(a: int, b: int)
    ensures (a * b) as real == a as real * b as real
  {
  }

  /** v is the fraction n / b. */
  lemma CompareFraction(v: real, n: int, b: nat, k: int)
    requires b > 0 && v * b as real == n as real
    ensures v > k as real <==> n > k * b
    ensures v == k as real <==> n == k * b
    ensures v < k as real <==> n < k * b
  {
    ProductCast(k, b);
    if v < k as real { StrictOrder(v, k as real, b as real); }
    if v > k as real { StrictOrder(k as real, v, b as real); }
  }

  lemma FractionOf(side: nat, a: nat, b: nat)
    requires b > 0
    ensures ScaledBy(side, a as real / b as real) * b as real == (side * a) as real
  {
    QuotientBack(a as real, b as real);
    Regroup(side as real, b as real, a as real / b as real, a as real);
    ProductCast(side, a);
  }

  lemma TwiceFraction(v: real, n: int, b: real)
    requires v * b == n as real
    ensures 2.0 * v * b == (2 * n) as real
  {
  }

  lemma LimitedMeans(h: nat, w: nat, targetSize: nat, maxSize: nat)
    requires h > 0 && w > 0
    ensures IsLimited(h, w, targetSize, maxSize) <==> ReachesLimit(h, w, targetSize, maxSize)
  {
    var v := ScaledBy(Max(h, w), targetSize as real / Min(h, w) as real);
    FractionOf(Max(h, w), targetSize, Min(h, w));
    TwiceFraction(v, Max(h, w) * targetSize, Min(h, w) as real);
    CompareFraction(2.0 * v, 2 * (Max(h, w) * targetSize), Min(h, w), 2 * maxSize + 1);
    RoundExceeds(v, maxSize);
  }

  lemma FloorOfFraction(side: nat, a: nat, b: nat)
    requires b > 0
    ensures IsLargestMultiple(FloorToMultiple(ScaledBy(side, a as real / b as real)), side, a, b)
  {
    var v := ScaledBy(side, a as real / b as real);
    FractionOf(side, a, b);
    CompareFraction(v, side * a, b, FloorToMultiple(v));
    CompareFraction(v, side * a, b, FloorToMultiple(v) + 32);
  }

  /** The resized image has the sides it should have: height from height, width from width. */
  lemma RescaleIsResized(h: nat, w: nat, targetSize: nat, maxSize: nat, keepRatio: bool)
    requires h > 0 && w > 0 && Rescale(h, w, targetSize, maxSize, keepRatio).Some?
    ensures var r := Rescale(h, w, targetSize, maxSize, keepRatio).value;
            IsResized(h, w, targetSize, maxSize, keepRatio, r.h, r.w)
  {
    LimitedMeans(h, w, targetSize, maxSize);
    FloorOfFraction(h, maxSize, Max(h, w));
    FloorOfFraction(w, maxSize, Max(h, w));
    FloorOfFraction(h, targetSize, Min(h, w));
    FloorOfFraction(w, targetSize, Min(h, w));
  }

  /** These sides are determined, and keep the order of the old ones. */
  lemma ResizedKeepsOrder(h: nat, w: nat, targetSize: nat, maxSize: nat, keepRatio: bool, newH: int, newW: int)
    requires h > 0 && w > 0 && IsResized(h, w, targetSize, maxSize, keepRatio, newH, newW)
    ensures h <= w ==> newH <= newW
    ensures w <= h ==> newW <= newH
  {
    if keepRatio {
      var limited := ReachesLimit(h, w, targetSize, maxSize);
      var a, b := if limited then maxSize else targetSize, if limited then Max(h, w) else Min(h, w);
      if h <= w { MultiplesOrdered(newH, newW, h, w, a, b); }
      if w <= h { MultiplesOrdered(newW, newH, w, h, a, b); }
    }
  }

  lemma MultiplesOrdered(r: int, q: int, side: nat, other: nat, a: nat, b: nat)
    requires b > 0 && side <= other && IsLargestMultiple(r, side, a, b) && IsLargestMultiple(q, other, a, b)
    ensures r <= q
  {
    IntegerMath.MulMonotone(side, other, a);
    if r >= q + 32 { IntegerMath.MulMonotone(q + 32, r, b); }
  }

  /** The image is refused exactly if its shorter side comes out below 32 pixels: always for a smaller target. */
  lemma RescaleFails(h: nat, w: nat, targetSize: nat, maxSize: nat, keepRatio: bool)
    requires h > 0 && w > 0
    ensures Rescale(h, w, targetSize, maxSize, keepRatio) == None <==>
              if keepRatio && ReachesLimit(h, w, targetSize, maxSize) then maxSize * Min(h, w) < 32 * Max(h, w)
              else targetSize < 32
  {
    LimitedMeans(h, w, targetSize, maxSize);
    if keepRatio {
      ScaleFits(h, w, targetSize, maxSize);
      ShorterSideDecides(Min(h, w), Max(h, w), ImScale(h, w, targetSize, maxSize));
      ShorterSide(h, w, targetSize, maxSize);
    } else {
      EmptySide(targetSize as real);
    }
  }

  lemma ShorterSide(h: nat, w: nat, targetSize: nat, maxSize: nat)
    requires h > 0 && w > 0
    ensures ScaledBy(Min(h, w), ImScale(h, w, targetSize, maxSize)) < 32.0 <==>
              if IsLimited(h, w, targetSize, maxSize) then maxSize * Min(h, w) < MULTIPLE * Max(h, w)
              else targetSize < MULTIPLE
  {
    SmallQuotient(maxSize, Max(h, w), Min(h, w));
    QuotientScale(targetSize, Min(h, w));
  }

  lemma ShorterSideDecides(short: nat, long: nat, scale: real)
    requires short <= long && scale >= 0.0
    ensures 0 <= FloorToMultiple(ScaledBy(short, scale)) && 0 <= FloorToMultiple(ScaledBy(long, scale))
    ensures FloorToMultiple(ScaledBy(short, scale)) == 0 || FloorToMultiple(ScaledBy(long, scale)) == 0
       <==> ScaledBy(short, scale) < 32.0
  {
    ScaleOrder(0.0, short as real, scale);
    ScaleOrder(short as real, long as real, scale);
    SmallerSideDecides(ScaledBy(short, scale), ScaledBy(long, scale));
  }

  lemma SmallerSideDecides(v: real, big: real)
    requires 0.0 <= v <= big
    ensures 0 <= FloorToMultiple(v) && 0 <= FloorToMultiple(big)
    ensures FloorToMultiple(v) == 0 || FloorToMultiple(big) == 0 <==> v < 32.0
  {
    EmptySide(v);
    EmptySide(big);
  }

  // ---------- collate ----------

  type Row = seq<real>

  datatype Sample = Sample(h: nat, w: nat, pixels: Grid, boxes: seq<Row>, mask: Option<Grid>)

  /** One row of a box array, its coordinates scaled: four of them, or eight for polygons. */
  function ScaleRow(row: Row, scaleX: real, scaleY: real): (r: Row)
    ensures |r| == |row|
  {
    var coords := if |row| < 9 then 4 else 8;
    seq(|row|, j requires 0 <= j < |row| =>
      if j >= coords then row[j] else if j % 2 == 0 then row[j] * scaleX else row[j] * scaleY)
  }

  function ScaleRows(rows: seq<Row>, scaleX: real, scaleY: real): (r: seq<Row>)
    ensures |r| == |rows|
  {
    if rows == [] then [] else [ScaleRow(rows[0], scaleX, scaleY)] + ScaleRows(rows[1..], scaleX, scaleY)
  }

  /** x coordinates scale with the width, y with the height. */
  ghost predicate BoxFits(row: Row, scaled: Row, h: nat, w: nat, newH: nat, newW: nat, j: nat)
    requires j < |row| == |scaled|
  {
    if j >= (if |row| < 9 then 4 else 8) then scaled[j] == row[j]
    else if j % 2 == 0 then 0.0 <= row[j] <= w as real ==> 0.0 <= scaled[j] <= newW as real
    else 0.0 <= row[j] <= h as real ==> 0.0 <= scaled[j] <= newH as real
  }

  lemma ScaledRowFits(row: Row, h: nat, w: nat, newH: nat, newW: nat, scaleX: real, scaleY: real, j: nat)
    requires j < |row|
    requires 0.0 <= row[j] <= w as real ==> 0.0 <= row[j] * scaleX <= newW as real
    requires 0.0 <= row[j] <= h as real ==> 0.0 <= row[j] * scaleY <= newH as real
    ensures BoxFits(row, ScaleRow(row, scaleX, scaleY), h, w, newH, newW, j)
  {
  }

  lemma OwnFactorsFit(row: Row, h: nat, w: nat, r: Scaled, j: nat)
    requires h > 0 && w > 0 && j < |row| && r.h >= 0 && r.w >= 0
    requires r.scaleX == r.w as real / w as real && r.scaleY == r.h as real / h as real
    ensures BoxFits(row, ScaleRow(row, r.scaleX, r.scaleY), h, w, r.h, r.w, j)
  {
    CoordinateFits(row[j], w, r.w);
    CoordinateFits(row[j], h, r.h);
    ScaledRowFits(row, h, w, r.h, r.w, r.scaleX, r.scaleY, j);
  }

  /**
    Coordinates inside the image are, scaled, inside the resized image, and the other columns are untouched. So an
    upright box or a polygon inside the image stays inside. For a rotated box, see RotatedRows.
  */
  lemma ScaledBoxFits(s: Sample, row: Row, targetSize: nat, maxSize: nat, keepRatio: bool, j: nat)
    requires IsResizable(s, targetSize, maxSize, keepRatio) && j < |row|
    ensures var r := ScaledOf(s, targetSize, maxSize, keepRatio);
            BoxFits(row, ScaleRow(row, r.scaleX, r.scaleY), s.h, s.w, r.h, r.w, j)
  {
    OwnFactorsFit(row, s.h, s.w, ScaledOf(s, targetSize, maxSize, keepRatio), j);
  }

  lemma CoordinateFits(v: real, side: nat, newSide: nat)
    requires side > 0
    ensures 0.0 <= v <= side as real ==> 0.0 <= v * (newSide as real / side as real) <= newSide as real
  {
    var m := newSide as real / side as real;
    NonNegativeQuotient(newSide as real, side as real);
    QuotientBack(newSide as real, side as real);
    if 0.0 <= v <= side as real {
      ScaleOrder(0.0, v, m);
      ScaleOrder(v, side as real, m);
    }
  }

  function PadRow(width: nat): Row { seq(width, _ => -1.0) }

  /** The padded array of one image: its rows, then rows of -1. */
  function Padded(rows: seq<Row>, maxRows: nat, width: nat): seq<Row>
    requires |rows| <= maxRows
  {
    rows + seq(maxRows - |rows|, _ => PadRow(width))
  }

  predicate IsReal(row: Row) { row != [] && row[|row| - 1] != -1.0 }

  /** `bbox_annotation[bbox_annotation[:, -1] != -1]`. */
  function RealRows(rows: seq<Row>): seq<Row>
  {
    if rows == [] then [] else (if IsReal(rows[0]) then [rows[0]] else []) + RealRows(rows[1..])
  }

  /** What the loss takes out of the padded batch is what was put in, unless a box carries the class -1. */
  lemma PaddingRoundTrip(rows: seq<Row>, maxRows: nat, width: nat)
    requires |rows| <= maxRows && width > 0
    ensures RealRows(Padded(rows, maxRows, width)) == rows <==> forall i :: 0 <= i < |rows| ==> IsReal(rows[i])
  {
    var pads := seq(maxRows - |rows|, _ => PadRow(width));
    RealRowsOfConcat(rows, pads);
    NoRealPads(pads);
    AllReal(rows);
  }

  lemma {:induction false} RealRowsOfConcat(a: seq<Row>, b: seq<Row>)
    ensures RealRows(a + b) == RealRows(a) + RealRows(b)
  {
    if a == [] {
      assert a + b == b;
    } else {
      assert (a + b)[1..] == a[1..] + b;
      RealRowsOfConcat(a[1..], b);
    }
  }

  lemma {:induction false} NoRealPads(pads: seq<Row>)
    requires forall i :: 0 <= i < |pads| ==> !IsReal(pads[i])
    ensures RealRows(pads) == []
  {
    if pads != [] {
      NoRealPads(pads[1..]);
    }
  }

  lemma {:induction false} AllReal(rows: seq<Row>)
    ensures |RealRows(rows)| <= |rows|
    ensures RealRows(rows) == rows <==> forall i :: 0 <= i < |rows| ==> IsReal(rows[i])
  {
    if rows != [] {
      AllReal(rows[1..]);
      if IsReal(rows[0]) {
        assert RealRows(rows) == [rows[0]] + RealRows(rows[1..]);
        assert RealRows(rows)[1..] == RealRows(rows[1..]);
        assert forall i :: 1 <= i < |rows| ==> rows[i] == rows[1..][i - 1];
      } else {
        assert |RealRows(rows)| < |rows|;
      }
    }
  }

  /** A grid laid into the upper left corner of a larger one of zeros. */
  function Canvas(grid: Grid, h: nat, w: nat, bigH: nat, bigW: nat): (c: Grid)
    requires IsGrid(grid, h, w) && h <= bigH && w <= bigW
    ensures IsGrid(c, bigH, bigW)
  {
    seq(bigH, y requires 0 <= y => seq(bigW, x requires 0 <= x => if y < h && x < w then grid[y][x] else 0))
  }

  /** Cutting the image out of its canvas gives it back. */
  lemma CanvasRoundTrip(grid: Grid, h: nat, w: nat, bigH: nat, bigW: nat)
    requires IsGrid(grid, h, w) && h <= bigH && w <= bigW
    ensures var c := Canvas(grid, h, w, bigH, bigW);
            seq(h, y requires 0 <= y < h => c[y][..w]) == grid
    ensures var c := Canvas(grid, h, w, bigH, bigW);
            forall y, x :: 0 <= y < bigH && 0 <= x < bigW && (y >= h || x >= w) ==> c[y][x] == 0
  {
    var c := Canvas(grid, h, w, bigH, bigW);
    assert forall y :: 0 <= y < h ==> c[y][..w] == grid[y];
  }

  datatype Batch = Batch(images: seq<Grid>, boxes: seq<seq<Row>>, masks: Option<seq<Grid>>)

  function HasMasks(batch: seq<Sample>): bool { forall i :: 0 <= i < |batch| ==> batch[i].mask.Some? }

  predicate IsBatch(batch: seq<Sample>, width: nat)
  {
    && |batch| > 0 && width >= 5
    && forall i :: 0 <= i < |batch| ==>
         batch[i].h > 0 && batch[i].w > 0 && forall j :: 0 <= j < |batch[i].boxes| ==> |batch[i].boxes[j]| == width
  }

  /** Can the sample be resized at all? */
  predicate IsResizable(s: Sample, targetSize: nat, maxSize: nat, keepRatio: bool)
  {
    s.h > 0 && s.w > 0 && Rescale(s.h, s.w, targetSize, maxSize, keepRatio).Some?
  }

  function ScaledOf(s: Sample, targetSize: nat, maxSize: nat, keepRatio: bool): (r: Scaled)
    requires IsResizable(s, targetSize, maxSize, keepRatio)
    ensures r.h > 0 && r.w > 0
  {
    Rescale(s.h, s.w, targetSize, maxSize, keepRatio).value
  }

  /** Where one sample goes: its image and its mask on canvases of the batch's size, its boxes scaled and padded. */
  function PlacedGrid(grid: Grid, r: Scaled, resize: Resize, bigH: int, bigW: int): Grid
    requires IsResize(resize) && 0 <= r.h <= bigH && 0 <= r.w <= bigW
  {
    Canvas(resize(grid, r.h, r.w), r.h, r.w, bigH, bigW)
  }

  function PlacedBoxes(boxes: seq<Row>, r: Scaled, maxBoxes: nat, width: nat): seq<Row>
    requires |boxes| <= maxBoxes
  {
    Padded(ScaleRows(boxes, r.scaleX, r.scaleY), maxBoxes, width)
  }

  /** The canvas and the box arrays are large enough for the first n samples. */
  predicate Fits(batch: seq<Sample>, scaled: seq<Scaled>, n: nat, bigH: int, bigW: int, maxBoxes: nat)
    requires n <= |batch| == |scaled|
  {
    && (forall i :: 0 <= i < n ==> 0 <= scaled[i].h <= bigH && 0 <= scaled[i].w <= bigW)
    && forall i :: 0 <= i < n ==> |batch[i].boxes| <= maxBoxes
  }

  ghost predicate Collated(batch: seq<Sample>, width: nat, scaled: seq<Scaled>,
                           resize: Resize, out: Batch, n: nat, bigH: int, bigW: int, maxBoxes: nat)
    requires IsResize(resize) && n <= |batch| == |scaled| && Fits(batch, scaled, |batch|, bigH, bigW, maxBoxes)
  {
    && |out.images| == |out.boxes| == n
    && (out.masks.Some? ==> HasMasks(batch) && |out.masks.value| == n)
    && (forall i :: 0 <= i < n ==> out.images[i] == PlacedGrid(batch[i].pixels, scaled[i], resize, bigH, bigW))
    && (forall i :: 0 <= i < n ==> out.boxes[i] == PlacedBoxes(batch[i].boxes, scaled[i], maxBoxes, width))
    && (out.masks.Some? ==> forall i :: 0 <= i < n ==>
          out.masks.value[i] == PlacedGrid(batch[i].mask.value, scaled[i], resize, bigH, bigW))
  }

  /** One turn of the filling loop. */
  function Place(out: Batch, s: Sample, width: nat, r: Scaled, resize: Resize, bigH: int, bigW: int,
                 maxBoxes: nat): Batch
    requires IsResize(resize) && 0 <= r.h <= bigH && 0 <= r.w <= bigW && |s.boxes| <= maxBoxes
    requires out.masks.Some? ==> s.mask.Some?
  {
    Batch(
      out.images + [PlacedGrid(s.pixels, r, resize, bigH, bigW)],
      out.boxes + [PlacedBoxes(s.boxes, r, maxBoxes, width)],
      if out.masks.Some? then Some(out.masks.value + [PlacedGrid(s.mask.value, r, resize, bigH, bigW)]) else None)
  }

  lemma CollatedNext(batch: seq<Sample>, width: nat, scaled: seq<Scaled>,
                     resize: Resize, out: Batch, n: nat, bigH: int, bigW: int, maxBoxes: nat)
    requires IsResize(resize) && n < |batch| == |scaled| && Fits(batch, scaled, |batch|, bigH, bigW, maxBoxes)
    requires Collated(batch, width, scaled, resize, out, n, bigH, bigW, maxBoxes)
    ensures var next := Place(out, batch[n], width, scaled[n], resize, bigH, bigW, maxBoxes);
            Collated(batch, width, scaled, resize, next, n + 1, bigH, bigW, maxBoxes)
  {
  }

  predicate AllResizable(batch: seq<Sample>, targetSize: nat, maxSize: nat, keepRatio: bool)
  {
    forall i :: 0 <= i < |batch| ==> IsResizable(batch[i], targetSize, maxSize, keepRatio)
  }

  ghost function AllScaled(batch: seq<Sample>, targetSize: nat, maxSize: nat, keepRatio: bool): (r: seq<Scaled>)
    requires AllResizable(batch, targetSize, maxSize, keepRatio)
    ensures |r| == |batch|
    ensures forall i :: 0 <= i < |batch| ==> r[i] == ScaledOf(batch[i], targetSize, maxSize, keepRatio)
  {
    seq(|batch|, i requires 0 <= i < |batch| => ScaledOf(batch[i], targetSize, maxSize, keepRatio))
  }

  /** The largest sides among the first n samples. */
  ghost predicate AreLargest(scaled: seq<Scaled>, n: nat, maxHeight: int, maxWidth: int)
    requires n <= |scaled|
  {
    && (forall i :: 0 <= i < n ==> 0 <= scaled[i].h <= maxHeight && 0 <= scaled[i].w <= maxWidth)
    && (if n == 0 then maxHeight == maxWidth == -1
        else (exists i :: 0 <= i < n && scaled[i].h == maxHeight) && exists i :: 0 <= i < n && scaled[i].w == maxWidth)
  }

  function Attempts(batch: seq<Sample>, width: nat, targetSize: nat, maxSize: nat, keepRatio: bool)
    : (all: seq<Option<Scaled>>)
    requires IsBatch(batch, width)
    ensures |all| == |batch|
    ensures forall i :: 0 <= i < |batch| ==> all[i] == Rescale(batch[i].h, batch[i].w, targetSize, maxSize, keepRatio)
    ensures forall i :: 0 <= i < |batch| ==> all[i].Some? ==> all[i].value.h > 0 && all[i].value.w > 0
  {
    seq(|batch|, i requires 0 <= i < |batch| => Rescale(batch[i].h, batch[i].w, targetSize, maxSize, keepRatio))
  }

  lemma LargestNext(scaled: seq<Scaled>, n: nat, maxHeight: int, maxWidth: int, r: Scaled)
    requires n == |scaled| && AreLargest(scaled, n, maxHeight, maxWidth) && r.h >= 0 && r.w >= 0
    ensures AreLargest(scaled + [r], n + 1, Max(r.h, maxHeight), Max(r.w, maxWidth))
  {
    var more := scaled + [r];
    assert more[n] == r;
    if r.h < maxHeight && n > 0 {
      var k :| 0 <= k < n && scaled[k].h == maxHeight;
      assert more[k] == scaled[k];
    }
    if r.w < maxWidth && n > 0 {
      var k :| 0 <= k < n && scaled[k].w == maxWidth;
      assert more[k] == scaled[k];
    }
  }

  method LargestSides(attempts: seq<Option<Scaled>>)
    returns (ok: bool, maxHeight: int, maxWidth: int, ghost scaled: seq<Scaled>)
    requires forall k :: 0 <= k < |attempts| && attempts[k].Some? ==> attempts[k].value.h > 0 && attempts[k].value.w > 0
    ensures ok ==> |scaled| == |attempts| && forall k :: 0 <= k < |attempts| ==> attempts[k] == Some(scaled[k])
    ensures ok ==> AreLargest(scaled, |attempts|, maxHeight, maxWidth)
    ensures !ok ==> exists k :: 0 <= k < |attempts| && attempts[k] == None
  {
    scaled := [];
    maxHeight, maxWidth := -1, -1;
    for i := 0 to |attempts|
      invariant |scaled| == i
      invariant forall k :: 0 <= k < i ==> attempts[k] == Some(scaled[k])
      invariant AreLargest(scaled, i, maxHeight, maxWidth)
    {
      if attempts[i] == None {
        return false, -1, -1, [];
      }
      var r := attempts[i].value;
      LargestNext(scaled, i, maxHeight, maxWidth, r);
      if r.w > maxWidth { maxWidth := r.w; }
      if r.h > maxHeight { maxHeight := r.h; }
      scaled := scaled + [r];
    }
    ok := true;
  }

  /**
    First pass: the canvas all images fit on, no larger than the largest of them, unless one of them cannot be
    resized.
  */
  method CanvasSize(batch: seq<Sample>, width: nat, targetSize: nat, maxSize: nat, keepRatio: bool)
    returns (ok: bool, maxHeight: int, maxWidth: int)
    requires IsBatch(batch, width)
    ensures ok <==> AllResizable(batch, targetSize, maxSize, keepRatio)
    ensures ok ==> AreLargest(AllScaled(batch, targetSize, maxSize, keepRatio), |batch|, maxHeight, maxWidth)
  {
    ghost var scaled;
    ok, maxHeight, maxWidth, scaled := LargestSides(Attempts(batch, width, targetSize, maxSize, keepRatio));
    assert ok ==> scaled == AllScaled(batch, targetSize, maxSize, keepRatio);
  }

  method MostBoxes(batch: seq<Sample>) returns (maxNumBoxes: nat)
    requires |batch| > 0
    ensures forall i :: 0 <= i < |batch| ==> |batch[i].boxes| <= maxNumBoxes
    ensures exists i :: 0 <= i < |batch| && |batch[i].boxes| == maxNumBoxes
  {
    maxNumBoxes := |batch[0].boxes|;
    for i := 0 to |batch|
      invariant forall k :: 0 <= k < i ==> |batch[k].boxes| <= maxNumBoxes
      invariant exists k :: 0 <= k < |batch| && |batch[k].boxes| == maxNumBoxes
    {
      if |batch[i].boxes| > maxNumBoxes { maxNumBoxes := |batch[i].boxes|; }
    }
  }

  /**
    All images of a batch on canvases of one size, just large enough; boxes scaled and padded alike. There is no
    batch if one of its images cannot be resized.
  */
  method Collate(batch: seq<Sample>, width: nat, targetSize: nat, maxSize: nat, keepRatio: bool, resize: Resize)
    returns (out: Option<Batch>, maxHeight: int, maxWidth: int, maxNumBoxes: nat)
    requires IsBatch(batch, width) && IsResize(resize)
    ensures out.Some? <==> AllResizable(batch, targetSize, maxSize, keepRatio)
    ensures out.Some? ==>
      var scaled := AllScaled(batch, targetSize, maxSize, keepRatio);
      && AreLargest(scaled, |batch|, maxHeight, maxWidth)
      && (exists i :: 0 <= i < |batch| && |batch[i].boxes| == maxNumBoxes)
      && Fits(batch, scaled, |batch|, maxHeight, maxWidth, maxNumBoxes)
      && Collated(batch, width, scaled, resize, out.value, |batch|, maxHeight, maxWidth, maxNumBoxes)
      && AreResized(batch, targetSize, maxSize, keepRatio, scaled)
      && (forall i :: 0 <= i < |batch| ==> HasOwnFactors(batch[i], scaled[i]))
      && BoxesScale(batch, width, scaled, out.value, maxNumBoxes)
      && ImagesPlaced(batch, scaled, resize, out.value, maxHeight, maxWidth)
      && (out.value.masks.Some? <==> HasMasks(batch))
  {
    var ok;
    ok, maxHeight, maxWidth := CanvasSize(batch, width, targetSize, maxSize, keepRatio);
    maxNumBoxes := MostBoxes(batch);
    if !ok {
      return None, maxHeight, maxWidth, maxNumBoxes;
    }
    ghost var scaled := AllScaled(batch, targetSize, maxSize, keepRatio);
    var filled := Fill(batch, width, scaled, targetSize, maxSize, keepRatio, resize, maxHeight, maxWidth, maxNumBoxes);
    out := Some(filled);
    SidesOfBatch(batch, targetSize, maxSize, keepRatio);
    FactorsOfBatch(batch, targetSize, maxSize, keepRatio);
    BoxesOfBatch(batch, width, scaled, resize, filled, maxHeight, maxWidth, maxNumBoxes);
    ImagesOfBatch(batch, width, scaled, resize, filled, maxHeight, maxWidth, maxNumBoxes);
  }

  ghost predicate AreResized(batch: seq<Sample>, targetSize: nat, maxSize: nat, keepRatio: bool, scaled: seq<Scaled>)
  {
    && |scaled| == |batch|
    && forall i :: 0 <= i < |batch| ==>
         IsResized(batch[i].h, batch[i].w, targetSize, maxSize, keepRatio, scaled[i].h, scaled[i].w)
  }

  /** The factors take the old sides to the new ones. */
  predicate HasOwnFactors(s: Sample, r: Scaled)
  {
    s.w as real * r.scaleX == r.w as real && s.h as real * r.scaleY == r.h as real
  }

  lemma SidesOfBatch(batch: seq<Sample>, targetSize: nat, maxSize: nat, keepRatio: bool)
    requires AllResizable(batch, targetSize, maxSize, keepRatio)
    ensures AreResized(batch, targetSize, maxSize, keepRatio, AllScaled(batch, targetSize, maxSize, keepRatio))
  {
    var scaled := AllScaled(batch, targetSize, maxSize, keepRatio);
    forall i | 0 <= i < |batch|
      ensures IsResized(batch[i].h, batch[i].w, targetSize, maxSize, keepRatio, scaled[i].h, scaled[i].w)
    {
      RescaleIsResized(batch[i].h, batch[i].w, targetSize, maxSize, keepRatio);
    }
  }

  lemma FactorsOfBatch(batch: seq<Sample>, targetSize: nat, maxSize: nat, keepRatio: bool)
    requires AllResizable(batch, targetSize, maxSize, keepRatio)
    ensures forall i :: 0 <= i < |batch| ==>
      HasOwnFactors(batch[i], AllScaled(batch, targetSize, maxSize, keepRatio)[i])
  {
    forall i | 0 <= i < |batch| ensures HasOwnFactors(batch[i], ScaledOf(batch[i], targetSize, maxSize, keepRatio)) {
      OwnFactors(batch[i], ScaledOf(batch[i], targetSize, maxSize, keepRatio));
    }
  }

  lemma OwnFactors(s: Sample, r: Scaled)
    requires s.w > 0 && s.h > 0 && r.scaleX == r.w as real / s.w as real && r.scaleY == r.h as real / s.h as real
    ensures HasOwnFactors(s, r)
  {
    QuotientBack(r.w as real, s.w as real);
    QuotientBack(r.h as real, s.h as real);
  }

  /**
    A placed row: x coordinates times the one factor, y coordinates times the other, the rest as it was. A row has
    four coordinates, or eight for polygons.
  */
  predicate IsRowScaled(row: Row, placed: Row, scaleX: real, scaleY: real)
  {
    && |placed| == |row|
    && forall c :: 0 <= c < |row| ==>
         placed[c] == if c >= 8 || (c >= 4 && |row| < 9) then row[c]
                      else if c in {0, 2, 4, 6} then row[c] * scaleX
                      else row[c] * scaleY
  }

  /** The resized grid from row 0 and column 0 on, and zeros. */
  ghost predicate IsPlaced(grid: Grid, r: Scaled, resize: Resize, placed: Grid, bigH: int, bigW: int)
    requires IsResize(resize)
  {
    && 0 <= r.h && 0 <= r.w && 0 <= bigH && 0 <= bigW && IsGrid(placed, bigH, bigW)
    && forall y, x :: 0 <= y < bigH && 0 <= x < bigW ==>
         placed[y][x] == if y < r.h && x < r.w then resize(grid, r.h, r.w)[y][x] else 0
  }

  ghost predicate ImagesPlaced(batch: seq<Sample>, scaled: seq<Scaled>, resize: Resize, out: Batch,
                               bigH: int, bigW: int)
    requires IsResize(resize) && |scaled| == |batch|
  {
    && |out.images| == |batch|
    && (forall i :: 0 <= i < |batch| ==> IsPlaced(batch[i].pixels, scaled[i], resize, out.images[i], bigH, bigW))
    && (out.masks.Some? ==>
          && |out.masks.value| == |batch| && HasMasks(batch)
          && forall i :: 0 <= i < |batch| ==>
               IsPlaced(batch[i].mask.value, scaled[i], resize, out.masks.value[i], bigH, bigW))
  }

  lemma GridPlaced(grid: Grid, r: Scaled, resize: Resize, bigH: int, bigW: int)
    requires IsResize(resize) && 0 <= r.h <= bigH && 0 <= r.w <= bigW
    ensures IsPlaced(grid, r, resize, PlacedGrid(grid, r, resize, bigH, bigW), bigH, bigW)
  {
  }

  lemma ImagesOfBatch(batch: seq<Sample>, width: nat, scaled: seq<Scaled>, resize: Resize, out: Batch,
                      bigH: int, bigW: int, maxBoxes: nat)
    requires IsResize(resize) && |batch| == |scaled| && Fits(batch, scaled, |batch|, bigH, bigW, maxBoxes)
    requires Collated(batch, width, scaled, resize, out, |batch|, bigH, bigW, maxBoxes)
    ensures ImagesPlaced(batch, scaled, resize, out, bigH, bigW)
  {
    forall i | 0 <= i < |batch| ensures IsPlaced(batch[i].pixels, scaled[i], resize, out.images[i], bigH, bigW) {
      GridPlaced(batch[i].pixels, scaled[i], resize, bigH, bigW);
    }
    if out.masks.Some? {
      forall i | 0 <= i < |batch|
        ensures IsPlaced(batch[i].mask.value, scaled[i], resize, out.masks.value[i], bigH, bigW)
      {
        GridPlaced(batch[i].mask.value, scaled[i], resize, bigH, bigW);
      }
    }
  }

  /** Every image's array holds its boxes, scaled, in order, and then rows of -1. */
  ghost predicate BoxesScale(batch: seq<Sample>, width: nat, scaled: seq<Scaled>, out: Batch, maxBoxes: nat)
    requires |scaled| == |batch|
  {
    && |out.boxes| == |batch|
    && forall i :: 0 <= i < |batch| ==> AreRowsScaled(batch[i].boxes, width, scaled[i], out.boxes[i], maxBoxes)
  }

  ghost predicate AreRowsScaled(rows: seq<Row>, width: nat, r: Scaled, placed: seq<Row>, maxBoxes: nat)
  {
    && |placed| == maxBoxes >= |rows|
    && (forall j :: 0 <= j < |rows| ==> IsRowScaled(rows[j], placed[j], r.scaleX, r.scaleY))
    && forall j, c :: |rows| <= j < maxBoxes && 0 <= c < width ==> |placed[j]| == width && placed[j][c] == -1.0
  }

  lemma RowsScaled(rows: seq<Row>, width: nat, r: Scaled, maxBoxes: nat)
    requires |rows| <= maxBoxes
    ensures AreRowsScaled(rows, width, r, PlacedBoxes(rows, r, maxBoxes, width), maxBoxes)
  {
    forall j | 0 <= j < |rows|
      ensures IsRowScaled(rows[j], PlacedBoxes(rows, r, maxBoxes, width)[j], r.scaleX, r.scaleY)
    {
      ScaleRowsAt(rows, r.scaleX, r.scaleY, j);
      RowScaled(rows[j], r.scaleX, r.scaleY);
    }
  }

  lemma RowScaled(row: Row, scaleX: real, scaleY: real)
    ensures IsRowScaled(row, ScaleRow(row, scaleX, scaleY), scaleX, scaleY)
  {
  }

  lemma BoxesOfBatch(batch: seq<Sample>, width: nat, scaled: seq<Scaled>, resize: Resize, out: Batch,
                     bigH: int, bigW: int, maxBoxes: nat)
    requires IsResize(resize) && |batch| == |scaled| && Fits(batch, scaled, |batch|, bigH, bigW, maxBoxes)
    requires Collated(batch, width, scaled, resize, out, |batch|, bigH, bigW, maxBoxes)
    ensures BoxesScale(batch, width, scaled, out, maxBoxes)
  {
    forall i | 0 <= i < |batch|
      ensures AreRowsScaled(batch[i].boxes, width, scaled[i], out.boxes[i], maxBoxes)
    {
      RowsScaled(batch[i].boxes, width, scaled[i], maxBoxes);
    }
  }

  /** Second pass. */
  method Fill(batch: seq<Sample>, width: nat, ghost scaled: seq<Scaled>, targetSize: nat, maxSize: nat,
              keepRatio: bool, resize: Resize, maxHeight: int, maxWidth: int, maxNumBoxes: nat)
    returns (out: Batch)
    requires IsBatch(batch, width) && IsResize(resize)
    requires AllResizable(batch, targetSize, maxSize, keepRatio)
    requires scaled == AllScaled(batch, targetSize, maxSize, keepRatio)
    requires Fits(batch, scaled, |batch|, maxHeight, maxWidth, maxNumBoxes)
    ensures Collated(batch, width, scaled, resize, out, |batch|, maxHeight, maxWidth, maxNumBoxes)
    ensures out.masks.Some? <==> HasMasks(batch)
  {
    out := Batch([], [], if HasMasks(batch) then Some([]) else None);
    for i := 0 to |batch|
      invariant Collated(batch, width, scaled, resize, out, i, maxHeight, maxWidth, maxNumBoxes)
      invariant out.masks.Some? <==> HasMasks(batch)
    {
      var r := ScaledOf(batch[i], targetSize, maxSize, keepRatio);
      assert r == scaled[i];
      CollatedNext(batch, width, scaled, resize, out, i, maxHeight, maxWidth, maxNumBoxes);
      out := Place(out, batch[i], width, r, resize, maxHeight, maxWidth, maxNumBoxes);
    }
  }

  lemma {:induction false} ScaleRowsAt(rows: seq<Row>, scaleX: real, scaleY: real, i: nat)
    requires i < |rows|
    ensures ScaleRows(rows, scaleX, scaleY)[i] == ScaleRow(rows[i], scaleX, scaleY)
  {
    if i > 0 { ScaleRowsAt(rows[1..], scaleX, scaleY, i - 1); }
  }

  /** The loss sees exactly the scaled boxes of each image, in order, as long as no box has the class -1. */
  lemma LossSeesBoxes(batch: seq<Sample>, width: nat, scaled: seq<Scaled>,
                      resize: Resize, out: Batch, bigH: int, bigW: int, maxBoxes: nat, i: nat)
    requires IsBatch(batch, width) && IsResize(resize) && |scaled| == |batch| && i < |batch|
    requires Fits(batch, scaled, |batch|, bigH, bigW, maxBoxes)
    requires Collated(batch, width, scaled, resize, out, |batch|, bigH, bigW, maxBoxes)
    ensures RealRows(out.boxes[i]) == ScaleRows(batch[i].boxes, scaled[i].scaleX, scaled[i].scaleY)
       <==> forall j :: 0 <= j < |batch[i].boxes| ==> batch[i].boxes[j][width - 1] != -1.0
  {
    var rows := ScaleRows(batch[i].boxes, scaled[i].scaleX, scaled[i].scaleY);
    PaddingRoundTrip(rows, maxBoxes, width);
    forall j | 0 <= j < |rows| ensures IsReal(rows[j]) <==> batch[i].boxes[j][width - 1] != -1.0 {
      ScaleRowsAt(batch[i].boxes, scaled[i].scaleX, scaled[i].scaleY, j);
    }
  }
}
