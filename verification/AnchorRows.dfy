/**
  models/anchors.py and models/heads.py: the loss pairs row i of the anchors with row i of the class
  scores and of the box deltas. Rows come from two different chains of reshapes; here both are shown
  to hold, at every row, the same pyramid level, cell and anchor.
*/
module AnchorRows {
  import opened IntegerMath
  import opened FeatureGrid

  // ---------- one level: rows and cells ----------

  function RowIndex(w: nat, A: nat, y: nat, x: nat, a: nat): nat { (y * w + x) * A + a }

  lemma RowInRange(h: nat, w: nat, A: nat, y: nat, x: nat, a: nat)
    requires y < h && x < w && a < A
    ensures y * w + x < h * w && RowIndex(w, A, y, x, a) < h * w * A
  {
    MulMonotone(y + 1, h, w);
    assert (y + 1) * w == y * w + w;
    var k := y * w + x;
    MulMonotone(k + 1, h * w, A);
    assert (k + 1) * A == k * A + A;
  }

  /** A row knows its cell and its anchor. */
  lemma RowDecodes(w: nat, A: nat, y: nat, x: nat, a: nat)
    requires x < w && a < A
    ensures var r := RowIndex(w, A, y, x, a);
            r % A == a && r / A == y * w + x && r / A % w == x && r / A / w == y
  {
    QuotientUnique(RowIndex(w, A, y, x, a), A, y * w + x, a);
    QuotientUnique(y * w + x, w, y, x);
  }

  /** Every row is some cell's and some anchor's. */
  lemma CellOfRow(h: nat, w: nat, A: nat, r: nat) returns (y: nat, x: nat, a: nat)
    requires w > 0 && A > 0 && r < h * w * A
    ensures y < h && x < w && a < A && RowIndex(w, A, y, x, a) == r
  {
    QuotientBound(r, h * w, A);
    QuotientBound(r / A, h, w);
    y, x, a := r / A / w, r / A % w, r % A;
  }

  lemma QuotientBound(r: nat, n: nat, d: nat)
    requires d > 0 && r < n * d
    ensures r / d < n && r / d * d + r % d == r
  {
    if r / d >= n { MulMonotone(n, r / d, d); }
  }

  // ---------- anchors of one level ----------

  /** Corner coordinates and angle. */
  datatype Anchor = Anchor(x1: real, y1: real, x2: real, y2: real, theta: real)

  /** The anchor moved to the centre of a cell. */
  function At(anchor: Anchor, y: nat, x: nat, stride: nat): Anchor
  {
    var sx, sy := (x as real + 0.5) * stride as real, (y as real + 0.5) * stride as real;
    Anchor(anchor.x1 + sx, anchor.y1 + sy, anchor.x2 + sx, anchor.y2 + sy, anchor.theta)
  }

  /** `shift`: the grid of cells is raveled row by row, and every cell takes all anchors in turn. */
  function Shift(size: Size, stride: nat, anchors: seq<Anchor>): (rows: seq<Anchor>)
    requires NonEmpty(size) && anchors != []
    ensures |rows| == size.h * size.w * |anchors|
  {
    seq(size.h * size.w * |anchors|, r requires 0 <= r => ShiftedRow(size.w, stride, anchors, r))
  }

  function ShiftedRow(w: nat, stride: nat, anchors: seq<Anchor>, r: nat): Anchor
    requires w > 0 && anchors != []
  {
    var cell := r / |anchors|;
    At(anchors[r % |anchors|], cell / w, cell % w, stride)
  }

  lemma ShiftAt(size: Size, stride: nat, anchors: seq<Anchor>, y: nat, x: nat, a: nat)
    requires NonEmpty(size) && y < size.h && x < size.w && a < |anchors|
    ensures var r := RowIndex(size.w, |anchors|, y, x, a);
            r < |Shift(size, stride, anchors)| && Shift(size, stride, anchors)[r] == At(anchors[a], y, x, stride)
  {
    RowInRange(size.h, size.w, |anchors|, y, x, a);
    RowDecodes(size.w, |anchors|, y, x, a);
  }

  // ---------- head outputs of one level ----------

  /** `permute(0, 2, 3, 1)`: from channel-major to cell-major order. */
  function Permute(feature: seq<real>, channels: nat, cells: nat): (nhwc: seq<real>)
    requires channels > 0 && |feature| == channels * cells
    ensures |nhwc| == |feature|
  {
    seq(|feature|, q requires 0 <= q < |feature| =>
      ChannelInRange(q, channels, cells); feature[q % channels * cells + q / channels])
  }

  lemma ChannelInRange(q: nat, channels: nat, cells: nat)
    requires channels > 0 && q < channels * cells
    ensures 0 <= q % channels * cells + q / channels < channels * cells
  {
    assert cells * channels == channels * cells;
    QuotientBound(q, cells, channels);
    MulMonotone(q % channels + 1, channels, cells);
    assert (q % channels + 1) * cells == q % channels * cells + cells;
  }

  /** `reshape(n, -1, width)`. */
  function Reshape(flat: seq<real>, width: nat): (rows: seq<seq<real>>)
    requires width > 0
    ensures |rows| == |flat| / width
  {
    seq(|flat| / width, r requires 0 <= r < |flat| / width => ReshapedRow(flat, width, r))
  }

  function ReshapedRow(flat: seq<real>, width: nat, r: nat): (row: seq<real>)
    requires width > 0 && r < |flat| / width
    ensures |row| == width
  {
    RowFits(r, |flat|, width);
    seq(width, k requires 0 <= k < width => flat[r * width + k])
  }

  lemma RowFits(r: nat, n: nat, width: nat)
    requires width > 0 && r < n / width
    ensures 0 <= r * width && r * width + width <= n
  {
    MulMonotone(r + 1, n / width, width);
    assert n / width * width <= n;
    assert (r + 1) * width == r * width + width;
  }

  /** Rows a head produces from a feature of A K channels: A rows per cell, K numbers per row. */
  function HeadRows(feature: seq<real>, A: nat, K: nat, cells: nat): (rows: seq<seq<real>>)
    requires A > 0 && K > 0 && A * K > 0 && |feature| == A * K * cells
  {
    Reshape(Permute(feature, A * K, cells), K)
  }

  lemma HeadRowCount(feature: seq<real>, A: nat, K: nat, cells: nat)
    requires A > 0 && K > 0 && A * K > 0 && |feature| == A * K * cells
    ensures |HeadRows(feature, A, K, cells)| == cells * A
  {
    assert A * K * cells == cells * A * K;
    QuotientUnique(|feature|, K, cells * A, 0);
  }

  /** Row a of a cell holds that cell's channels a K to a K + K - 1. */
  lemma HeadRowAt(feature: seq<real>, A: nat, K: nat, cells: nat, cell: nat, a: nat, k: nat)
    requires A > 0 && K > 0 && A * K > 0 && |feature| == A * K * cells
    requires cell < cells && a < A && k < K
    ensures cell * A + a < |HeadRows(feature, A, K, cells)|
    ensures |HeadRows(feature, A, K, cells)[cell * A + a]| == K
    ensures 0 <= (a * K + k) * cells + cell < |feature|
    ensures HeadRows(feature, A, K, cells)[cell * A + a][k] == feature[(a * K + k) * cells + cell]
  {
    var r, c := cell * A + a, a * K + k;
    RowInRange(1, cells, A, 0, cell, a);
    HeadRowCount(feature, A, K, cells);
    RowFits(r, |feature|, K);
    RowInRange(1, A, K, 0, a, k);
    RowInRange(1, A * K, cells, 0, c, cell);
    ElementOfRow(cell, A, K, a, k);
    QuotientUnique(r * K + k, A * K, cell, c);
    assert HeadRows(feature, A, K, cells)[r][k] == Permute(feature, A * K, cells)[r * K + k];
  }

  lemma ElementOfRow(cell: nat, A: nat, K: nat, a: nat, k: nat)
    ensures (cell * A + a) * K + k == cell * (A * K) + (a * K + k)
  {
    assert (cell * A + a) * K == cell * A * K + a * K;
    assert cell * A * K == cell * (A * K);
  }

  // ---------- all levels ----------

  datatype Cell = Cell(level: nat, y: nat, x: nat, a: nat)

  function Concat<T>(parts: seq<seq<T>>): seq<T>
  {
    if parts == [] then [] else Concat(parts[..|parts| - 1]) + parts[|parts| - 1]
  }

  function LevelRows(size: Size, A: nat): nat { size.h * size.w * A }

  /** Rows of the levels before a given one. */
  function Offset(sizes: seq<Size>, A: nat, level: nat): nat
    requires level <= |sizes|
  {
    if level == 0 then 0
    else Offset(sizes, A, level - 1) + LevelRows(sizes[level - 1], A)
  }

  ghost predicate IsCell(sizes: seq<Size>, A: nat, c: Cell)
  {
    c.level < |sizes| && c.y < sizes[c.level].h && c.x < sizes[c.level].w && c.a < A
  }

  function Index(sizes: seq<Size>, A: nat, c: Cell): nat
    requires IsCell(sizes, A, c)
  {
    Offset(sizes, A, c.level) + RowIndex(sizes[c.level].w, A, c.y, c.x, c.a)
  }

  lemma {:induction false} OffsetsGrow(sizes: seq<Size>, A: nat, level: nat, later: nat)
    requires level < later <= |sizes|
    ensures Offset(sizes, A, level) + LevelRows(sizes[level], A) <= Offset(sizes, A, later)
  {
    if level + 1 < later { OffsetsGrow(sizes, A, level, later - 1); }
  }

  lemma IndexInLevel(sizes: seq<Size>, A: nat, c: Cell)
    requires IsCell(sizes, A, c)
    ensures Offset(sizes, A, c.level) <= Index(sizes, A, c) < Offset(sizes, A, c.level + 1)
  {
    RowInRange(sizes[c.level].h, sizes[c.level].w, A, c.y, c.x, c.a);
  }

  /** Different cells have different rows. */
  lemma IndexInjective(sizes: seq<Size>, A: nat, c: Cell, d: Cell)
    requires IsCell(sizes, A, c) && IsCell(sizes, A, d)
    requires Index(sizes, A, c) == Index(sizes, A, d)
    ensures c == d
  {
    IndexInLevel(sizes, A, c);
    IndexInLevel(sizes, A, d);
    if c.level < d.level { OffsetsGrow(sizes, A, c.level, d.level); }
    if d.level < c.level { OffsetsGrow(sizes, A, d.level, c.level); }
    RowDecodes(sizes[c.level].w, A, c.y, c.x, c.a);
    RowDecodes(sizes[c.level].w, A, d.y, d.x, d.a);
  }

  /** And every row belongs to a cell. */
  lemma {:induction false} IndexSurjective(sizes: seq<Size>, A: nat, levels: nat, i: nat) returns (c: Cell)
    requires A > 0 && forall s :: s in sizes ==> NonEmpty(s)
    requires levels <= |sizes| && i < Offset(sizes, A, levels)
    ensures IsCell(sizes, A, c) && Index(sizes, A, c) == i
  {
    var start := Offset(sizes, A, levels - 1);
    if i < start {
      c := IndexSurjective(sizes, A, levels - 1, i);
    } else {
      assert NonEmpty(sizes[levels - 1]);
      var y, x, a := CellOfRow(sizes[levels - 1].h, sizes[levels - 1].w, A, i - start);
      c := Cell(levels - 1, y, x, a);
    }
  }

  ghost predicate AreLevelRows<T>(parts: seq<seq<T>>, sizes: seq<Size>, A: nat)
  {
    |parts| == |sizes| && forall l :: 0 <= l < |parts| ==> |parts[l]| == LevelRows(sizes[l], A)
  }

  lemma {:induction false} ConcatLength<T>(parts: seq<seq<T>>, sizes: seq<Size>, A: nat, levels: nat)
    requires AreLevelRows(parts, sizes, A) && levels <= |parts|
    ensures |Concat(parts[..levels])| == Offset(sizes, A, levels)
  {
    if levels > 0 {
      ConcatLength(parts, sizes, A, levels - 1);
      assert parts[..levels][..levels - 1] == parts[..levels - 1];
    }
  }

  lemma {:induction false} ConcatAt<T>(parts: seq<seq<T>>, sizes: seq<Size>, A: nat, levels: nat, level: nat, r: nat)
    requires AreLevelRows(parts, sizes, A) && level < levels <= |parts| && r < |parts[level]|
    ensures Offset(sizes, A, level) + r < |Concat(parts[..levels])|
    ensures Concat(parts[..levels])[Offset(sizes, A, level) + r] == parts[level][r]
  {
    ConcatLength(parts, sizes, A, levels - 1);
    assert parts[..levels][..levels - 1] == parts[..levels - 1];
    if level < levels - 1 {
      ConcatAt(parts, sizes, A, levels - 1, level, r);
    }
  }

  // ---------- the network's rows ----------

  const LEVELS := [3, 4, 5, 6, 7]

  /** The generator's grid at level p: (shape + 2^p - 1) // 2^p. */
  function GridSize(image: Size, p: nat): Size { CeilSize(image, Pow2(p)) }

  method AnchorsForward(image: Size, baseAnchors: seq<seq<Anchor>>, A: nat) returns (allAnchors: seq<Anchor>)
    requires NonEmpty(image) && A > 0 && |baseAnchors| == |LEVELS| && forall b :: b in baseAnchors ==> |b| == A
    ensures allAnchors == Concat(AnchorParts(image, baseAnchors, A))
  {
    var imageShapes := seq(|LEVELS|, i requires 0 <= i < |LEVELS| => GridSize(image, LEVELS[i]));
    GridsNonEmpty(image);
    ghost var parts := AnchorParts(image, baseAnchors, A);
    allAnchors := [];
    var idx := 0;
    while idx < |LEVELS|
      invariant 0 <= idx <= |LEVELS|
      invariant allAnchors == Concat(parts[..idx])
    {
      var shiftedAnchors := Shift(imageShapes[idx], Pow2(LEVELS[idx]), baseAnchors[idx]);
      assert parts[..idx + 1][..idx] == parts[..idx];
      allAnchors := allAnchors + shiftedAnchors;
      idx := idx + 1;
    }
    assert parts[..|LEVELS|] == parts;
  }

  lemma GridsNonEmpty(image: Size)
    requires NonEmpty(image)
    ensures forall p: nat :: NonEmpty(GridSize(image, p))
  {
    forall p: nat ensures NonEmpty(GridSize(image, p)) {
      CeilDivSpec(image.h, Pow2(p));
      CeilDivSpec(image.w, Pow2(p));
    }
  }

  function Grids(image: Size): (sizes: seq<Size>)
    ensures |sizes| == |LEVELS|
  {
    seq(|LEVELS|, l requires 0 <= l < |LEVELS| => GridSize(image, LEVELS[l]))
  }

  function AnchorParts(image: Size, baseAnchors: seq<seq<Anchor>>, A: nat): (parts: seq<seq<Anchor>>)
    requires NonEmpty(image) && A > 0 && |baseAnchors| == |LEVELS| && forall b :: b in baseAnchors ==> |b| == A
    ensures AreLevelRows(parts, Grids(image), A)
  {
    GridsNonEmpty(image);
    seq(|LEVELS|, l requires 0 <= l < |LEVELS| => Shift(GridSize(image, LEVELS[l]), Pow2(LEVELS[l]), baseAnchors[l]))
  }

  /** A feature map per level, of the sizes the network produces, with A K channels. */
  ghost predicate AreFeatures(features: seq<seq<real>>, sizes: seq<Size>, A: nat, K: nat)
  {
    |features| == |sizes| && forall l :: 0 <= l < |sizes| ==> |features[l]| == A * K * (sizes[l].h * sizes[l].w)
  }

  function HeadParts(features: seq<seq<real>>, sizes: seq<Size>, A: nat, K: nat): (parts: seq<seq<seq<real>>>)
    requires A > 0 && K > 0 && A * K > 0 && AreFeatures(features, sizes, A, K)
    ensures AreLevelRows(parts, sizes, A)
  {
    var parts := seq(|features|, l requires 0 <= l < |features| =>
      HeadRows(features[l], A, K, sizes[l].h * sizes[l].w));
    assert forall l :: 0 <= l < |parts| ==> |parts[l]| == sizes[l].h * sizes[l].w * A by {
      forall l | 0 <= l < |parts| ensures |parts[l]| == sizes[l].h * sizes[l].w * A {
        HeadRowCount(features[l], A, K, sizes[l].h * sizes[l].w);
      }
    }
    parts
  }

  method BackboneMeetsGrids(kind: Kind, blocks: (nat, nat, nat, nat), image: Size)
    returns (c3: Shape, c4: Shape, c5: Shape)
    requires NonEmpty(image)
    ensures c3 == Shape(128 * kind.Expansion(), GridSize(image, 3))
    ensures c4 == Shape(256 * kind.Expansion(), GridSize(image, 4))
    ensures c5 == Shape(512 * kind.Expansion(), GridSize(image, 5))
  {
    c3, c4, c5 := Features(kind, blocks, (false, false, false), image);
    DefaultStrides();
  }

  /** A stride-1 pooling of the SPPF block. */
  function Pooled(s: Shape): (p: Shape)
    requires NonEmpty(s.size)
    ensures p == s
  {
    ConvKeeps(s.size, 5, 2);
    Shape(s.channels, Conv(s.size, 5, 1, 2))
  }

  /** Whatever the image size, the depth and the block kind, P3 to P7 have the sizes of the anchor grids. */
  method PyramidMeetsGrids(kind: Kind, blocks: (nat, nat, nat, nat), image: Size) returns (sizes: seq<Size>)
    requires NonEmpty(image)
    ensures sizes == Grids(image)
  {
    var c3, c4, c5 := BackboneMeetsGrids(kind, blocks, image);
    GridChain(image);
    var levels := Pyramid([c3, c4, Pooled(c5)], [c3.channels, c4.channels, c5.channels], 256);
    sizes := seq(5, l requires 0 <= l < 5 => levels[l].size);
    LevelGrids(image, sizes);
  }

  lemma LevelGrids(image: Size, sizes: seq<Size>)
    requires |sizes| == 5 && sizes[0] == GridSize(image, 3) && sizes[1] == GridSize(image, 4)
    requires sizes[2] == GridSize(image, 5) && sizes[3] == GridSize(image, 6) && sizes[4] == GridSize(image, 7)
    ensures sizes == Grids(image)
  {
  }

  lemma PowersOfTwo()
    ensures Pow2(3) == 8 && Pow2(4) == 16 && Pow2(5) == 32 && Pow2(6) == 64 && Pow2(7) == 128
  {
    assert Pow2(1) == 2 && Pow2(2) == 4;
  }

  lemma DefaultStrides()
    ensures Strides((false, false, false)) == (Pow2(3), Pow2(4), Pow2(5))
  {
    PowersOfTwo();
  }

  /** The grids of the levels, the last two by halving. */
  lemma GridChain(image: Size)
    requires NonEmpty(image)
    ensures forall p: nat :: NonEmpty(GridSize(image, p))
    ensures GridSize(image, 6) == CeilSize(GridSize(image, 5), 2)
    ensures GridSize(image, 7) == CeilSize(GridSize(image, 6), 2)
  {
    GridsNonEmpty(image);
    PowersOfTwo();
    NestedCeilSize(image, 32, 2);
    NestedCeilSize(image, 64, 2);
  }

  lemma SmallCeils()
    ensures CeilDiv(32, 4) == 8 && CeilDiv(32, 8) == 4 && CeilDiv(32, 16) == 2 && CeilDiv(32, 32) == 1
  {
  }

  /** Do C3, C4 and C5 have the sizes of their anchor grids? */
  predicate MeetsGrids(image: Size, strides: (nat, nat, nat))
    requires strides.0 > 0 && strides.1 > 0 && strides.2 > 0
  {
    && CeilSize(image, strides.0) == GridSize(image, 3)
    && CeilSize(image, strides.1) == GridSize(image, 4)
    && CeilSize(image, strides.2) == GridSize(image, 5)
  }

  /** The agreement rests on the default: replacing any stride by dilation breaks it for some image. */
  lemma OnlyWithoutDilation(r: (bool, bool, bool))
    ensures (forall image: Size :: NonEmpty(image) ==> MeetsGrids(image, Strides(r))) <==> r == (false, false, false)
  {
    DefaultStrides();
    if r != (false, false, false) {
      DilationBreaks(r);
      assert NonEmpty(Size(32, 32));
    }
  }

  lemma DilationBreaks(r: (bool, bool, bool))
    requires r != (false, false, false)
    ensures !MeetsGrids(Size(32, 32), Strides(r))
  {
    PowersOfTwo();
    SmallCeils();
    if r.0 {
      assert Strides(r).0 == 4;
    } else if r.1 {
      assert Strides(r).1 == 8;
    } else {
      assert Strides(r).2 == 16;
    }
  }

  /** Row `row` of a head holds, at k, channel a K + k of the cell of the level's feature map. */
  ghost predicate IsHeadRow(row: seq<real>, feature: seq<real>, size: Size, c: Cell, K: nat, k: nat)
  {
    var at := (c.a * K + k) * (size.h * size.w) + (c.y * size.w + c.x);
    k < K == |row| && 0 <= at < |feature| && row[k] == feature[at]
  }

  /**
    The loss may pair rows: there are equally many of them, and at the row of any cell the anchors
    hold that anchor moved to the middle of that cell's pixels, and a head its numbers for that anchor at that cell.
    With IndexInjective and IndexSurjective, this describes every row, once.
  */
  lemma RowsAligned(image: Size, baseAnchors: seq<seq<Anchor>>, A: nat, features: seq<seq<real>>, K: nat, c: Cell,
                    k: nat)
    requires NonEmpty(image) && A > 0 && K > 0 && A * K > 0 && k < K
    requires |baseAnchors| == |LEVELS| && forall b :: b in baseAnchors ==> |b| == A
    requires AreFeatures(features, Grids(image), A, K)
    requires IsCell(Grids(image), A, c)
    ensures var anchors := Concat(AnchorParts(image, baseAnchors, A));
            var rows := Concat(HeadParts(features, Grids(image), A, K));
            var i := Index(Grids(image), A, c);
            && |anchors| == |rows| == Offset(Grids(image), A, |LEVELS|) && i < |rows|
            && IsMovedTo(baseAnchors[c.level][c.a], anchors[i], c.y, c.x, StrideOf(c.level))
            && IsHeadRow(rows[i], features[c.level], GridSize(image, LEVELS[c.level]), c, K, k)
  {
    AnchorRowIs(image, baseAnchors, A, c);
    AnchorLiesInCell(image, baseAnchors, A, c);
    HeadRowIs(features, Grids(image), A, K, c, k);
  }

  /** Pixels per cell at each level. */
  function StrideOf(level: nat): nat
    requires level < 5
  {
    [8, 16, 32, 64, 128][level]
  }

  /** A base anchor moved so that the origin comes to lie on the centre of the patch of pixels of cell (y, x). */
  predicate IsMovedTo(anchor: Anchor, moved: Anchor, y: nat, x: nat, stride: nat)
  {
    && 2.0 * (moved.x1 - anchor.x1) == ((2 * x + 1) * stride) as real
    && 2.0 * (moved.y1 - anchor.y1) == ((2 * y + 1) * stride) as real
    && moved.x2 - moved.x1 == anchor.x2 - anchor.x1 && moved.y2 - moved.y1 == anchor.y2 - anchor.y1
    && moved.theta == anchor.theta
  }

  /** The centre lies inside the patch of pixels of cell (y, x): x between its columns, y between its rows. */
  predicate IsCentredIn(anchor: Anchor, y: nat, x: nat, stride: nat)
  {
    && ((x * stride) as real < (anchor.x1 + anchor.x2) / 2.0 < ((x + 1) * stride) as real)
    && ((y * stride) as real < (anchor.y1 + anchor.y2) / 2.0 < ((y + 1) * stride) as real)
  }

  lemma HalfCell(v: nat, stride: nat)
    ensures 2.0 * ((v as real + 0.5) * stride as real) == ((2 * v + 1) * stride) as real
  {
    assert ((2 * v + 1) * stride) as real == (2 * v + 1) as real * stride as real;
  }

  lemma AtIsMoved(anchor: Anchor, y: nat, x: nat, stride: nat)
    ensures IsMovedTo(anchor, At(anchor, y, x, stride), y, x, stride)
  {
    HalfCell(x, stride);
    HalfCell(y, stride);
  }

  lemma MiddleOfPatch(v: nat, stride: nat)
    requires stride > 0
    ensures 2 * (v * stride) < (2 * v + 1) * stride < 2 * ((v + 1) * stride)
  {
    assert (2 * v + 1) * stride == 2 * (v * stride) + stride;
    assert (v + 1) * stride == v * stride + stride;
  }

  lemma MovedIsCentred(anchor: Anchor, moved: Anchor, y: nat, x: nat, stride: nat)
    requires IsMovedTo(anchor, moved, y, x, stride) && stride > 0 && anchor.x1 == -anchor.x2 && anchor.y1 == -anchor.y2
    ensures IsCentredIn(moved, y, x, stride)
    ensures moved.x1 + moved.x2 == ((2 * x + 1) * stride) as real
    ensures moved.y1 + moved.y2 == ((2 * y + 1) * stride) as real
  {
    MiddleOfPatch(x, stride);
    MiddleOfPatch(y, stride);
    AxisCentred(anchor.x1, anchor.x2, moved.x1, moved.x2, x * stride, (2 * x + 1) * stride, (x + 1) * stride);
    AxisCentred(anchor.y1, anchor.y2, moved.y1, moved.y2, y * stride, (2 * y + 1) * stride, (y + 1) * stride);
  }

  lemma AxisCentred(a1: real, a2: real, m1: real, m2: real, lo: int, twice: int, hi: int)
    requires a1 == -a2 && 2.0 * (m1 - a1) == twice as real && m2 - m1 == a2 - a1 && 2 * lo < twice < 2 * hi
    ensures m1 + m2 == twice as real && lo as real < (m1 + m2) / 2.0 < hi as real
  {
  }

  /** Cells of a grid start inside the image. */
  lemma CellMeetsImage(n: nat, stride: nat, v: nat)
    requires stride > 0 && v < CeilDiv(n, stride)
    ensures v * stride < n
  {
    CeilDivSpec(n, stride);
    MulMonotone(v + 1, CeilDiv(n, stride), stride);
    assert (v + 1) * stride == v * stride + stride;
  }

  /**
    Where the anchor of any row lies in the image: its base anchor, moved to the middle of the patch of pixels its cell
    stands for, column by column and row by row. So a base anchor centred on the origin ends up centred on
    that patch, which begins inside the image.
  */
  lemma AnchorLiesInCell(image: Size, baseAnchors: seq<seq<Anchor>>, A: nat, c: Cell)
    requires NonEmpty(image) && A > 0
    requires |baseAnchors| == 5 && forall b :: b in baseAnchors ==> |b| == A
    requires IsCell(Grids(image), A, c)
    ensures var rows, i := Concat(AnchorParts(image, baseAnchors, A)), Index(Grids(image), A, c);
            var base, stride := baseAnchors[c.level][c.a], StrideOf(c.level);
            && i < |rows| && IsMovedTo(base, rows[i], c.y, c.x, stride)
            && (base.x1 == -base.x2 && base.y1 == -base.y2 ==> IsCentredIn(rows[i], c.y, c.x, stride))
            && c.x * stride < image.w && c.y * stride < image.h
  {
    PowersOfTwo();
    var base, stride := baseAnchors[c.level][c.a], Pow2(LEVELS[c.level]);
    AnchorRowIs(image, baseAnchors, A, c);
    AtIsMoved(base, c.y, c.x, stride);
    if base.x1 == -base.x2 && base.y1 == -base.y2 {
      MovedIsCentred(base, At(base, c.y, c.x, stride), c.y, c.x, stride);
    }
    CellMeetsImage(image.w, stride, c.x);
    CellMeetsImage(image.h, stride, c.y);
  }

  lemma AnchorRowIs(image: Size, baseAnchors: seq<seq<Anchor>>, A: nat, c: Cell)
    requires NonEmpty(image) && A > 0
    requires |baseAnchors| == |LEVELS| && forall b :: b in baseAnchors ==> |b| == A
    requires IsCell(Grids(image), A, c)
    ensures var rows, i := Concat(AnchorParts(image, baseAnchors, A)), Index(Grids(image), A, c);
            && |rows| == Offset(Grids(image), A, |LEVELS|) && i < |rows|
            && rows[i] == At(baseAnchors[c.level][c.a], c.y, c.x, Pow2(LEVELS[c.level]))
  {
    var parts := AnchorParts(image, baseAnchors, A);
    PartAt(parts, Grids(image), A, c);
    GridsNonEmpty(image);
    ShiftAt(Grids(image)[c.level], Pow2(LEVELS[c.level]), baseAnchors[c.level], c.y, c.x, c.a);
  }

  lemma HeadRowIs(features: seq<seq<real>>, sizes: seq<Size>, A: nat, K: nat, c: Cell, k: nat)
    requires A > 0 && K > 0 && A * K > 0 && k < K
    requires AreFeatures(features, sizes, A, K) && IsCell(sizes, A, c)
    ensures var rows, i := Concat(HeadParts(features, sizes, A, K)), Index(sizes, A, c);
            && |rows| == Offset(sizes, A, |sizes|) && i < |rows|
            && IsHeadRow(rows[i], features[c.level], sizes[c.level], c, K, k)
  {
    var size := sizes[c.level];
    PartAt(HeadParts(features, sizes, A, K), sizes, A, c);
    RowInRange(size.h, size.w, A, c.y, c.x, c.a);
    HeadRowAt(features[c.level], A, K, size.h * size.w, c.y * size.w + c.x, c.a, k);
  }

  /** A cell's row among all rows is its row within its level. */
  lemma PartAt<T>(parts: seq<seq<T>>, sizes: seq<Size>, A: nat, c: Cell)
    requires AreLevelRows(parts, sizes, A) && IsCell(sizes, A, c)
    ensures var i, r := Index(sizes, A, c), RowIndex(sizes[c.level].w, A, c.y, c.x, c.a);
            && |Concat(parts)| == Offset(sizes, A, |sizes|) && i < |Concat(parts)|
            && r < |parts[c.level]| && Concat(parts)[i] == parts[c.level][r]
  {
    assert parts[..|sizes|] == parts;
    ConcatLength(parts, sizes, A, |sizes|);
    RowInRange(sizes[c.level].h, sizes[c.level].w, A, c.y, c.x, c.a);
    ConcatAt(parts, sizes, A, |sizes|, c.level, RowIndex(sizes[c.level].w, A, c.y, c.x, c.a));
  }
}
