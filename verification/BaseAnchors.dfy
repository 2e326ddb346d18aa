/** models/anchors.py, `generate_anchors`: the anchors of one cell, one per ratio, rotation and scale. */
module BaseAnchors {
  import opened IntegerMath
  import opened AnchorRows

  ghost predicate IsSqrt(sqrt: real -> real)
  {
    forall v: real :: v >= 0.0 ==> sqrt(v) >= 0.0 && sqrt(v) * sqrt(v) == v
  }

  /** Centred on the origin, with a square of the given side's area, the ratio of height to width, and the rotation. */
  predicate IsBase(anchor: Anchor, side: real, ratio: real, rotation: real)
  {
    && anchor.x1 == -anchor.x2 && anchor.y1 == -anchor.y2 && anchor.x2 >= anchor.x1
    && (anchor.x2 - anchor.x1) * (anchor.y2 - anchor.y1) == side * side
    && anchor.y2 - anchor.y1 == ratio * (anchor.x2 - anchor.x1)
    && anchor.theta == rotation
  }

  /** One row, through the columns in the order the code fills them. */
  function BaseAnchor(side: real, ratio: real, rotation: real, sqrt: real -> real): Anchor
    requires ratio > 0.0
  {
    var w := sqrt(side * side / ratio);
    var h := w * ratio;
    Anchor(0.0 - w * 0.5, 0.0 - h * 0.5, w - w * 0.5, h - h * 0.5, rotation)
  }

  lemma BaseAnchorIsBase(side: real, ratio: real, rotation: real, sqrt: real -> real)
    requires IsSqrt(sqrt) && ratio > 0.0
    ensures IsBase(BaseAnchor(side, ratio, rotation, sqrt), side, ratio, rotation)
  {
    AreaOverRatio(side, ratio);
    SidesOf(side, ratio, sqrt(side * side / ratio));
  }

  lemma SplitRow(O: nat, S: nat, r: nat, o: nat, s: nat)
    ensures (r * O + o) * S + s == r * (S * O) + (o * S + s)
  {
    assert (r * O + o) * S == r * O * S + o * S;
    assert r * O * S == r * (O * S) == r * (S * O);
  }

  /** r n + m, for m below n and r below R, is below R n. */
  lemma BelowProduct(R: nat, n: nat, r: nat, m: nat)
    requires r < R && m < n
    ensures 0 <= r * n + m < R * n
  {
    MulMonotone(r + 1, R, n);
  }

  lemma RowOf(R: nat, O: nat, S: nat, r: nat, o: nat, s: nat)
    requires r < R && o < O && s < S
    ensures var i := RowIndex(O, S, r, o, s);
            && i < R * S * O && S * O > 0 && i / (S * O) == r && i % (S * O) / S == o && i % S == s
  {
    var n, inner := S * O, o * S + s;
    TableSizes(R, S, O);
    BelowProduct(O, S, o, s);
    BelowProduct(R, n, r, inner);
    SplitRow(O, S, r, o, s);
    QuotientUnique(RowIndex(O, S, r, o, s), n, r, inner);
    QuotientUnique(inner, S, o, s);
    QuotientUnique(RowIndex(O, S, r, o, s), S, r * O + o, s);
  }

  function RepeatedAt(s: seq<real>, k: nat, i: nat): (v: real)
    requires k > 0 && i < |s| * k
    ensures 0 <= i / k < |s| && v == s[i / k] && v in s
  {
    QuotientBound(i, |s|, k);
    s[i / k]
  }

  /** `np.repeat` and `np.tile`: every element k times, the whole sequence k times. */
  function Repeat(s: seq<real>, k: nat): (r: seq<real>)
    requires k > 0
    ensures |r| == |s| * k
    ensures forall i: nat :: i < |r| ==> r[i] == RepeatedAt(s, k, i)
  {
    seq(|s| * k, i requires 0 <= i < |s| * k => RepeatedAt(s, k, i))
  }

  function Tile(s: seq<real>, k: nat): (r: seq<real>)
    requires s != []
    ensures |r| == k * |s|
    ensures forall i :: 0 <= i < |r| ==> r[i] == s[i % |s|]
  {
    seq(k * |s|, i requires 0 <= i < k * |s| => s[i % |s|])
  }

  lemma SidesOf(side: real, ratio: real, w: real)
    requires ratio > 0.0 && w >= 0.0 && w * w == side * side / ratio
    ensures w * (w * ratio) == side * side
  {
    assert w * (w * ratio) == w * w * ratio;
    assert side * side / ratio * ratio == side * side;
  }

  ghost predicate IsRowFor(anchors: seq<Anchor>, i: nat, side: real, ratio: real, rotation: real, sqrt: real -> real)
  {
    i < |anchors| && ratio > 0.0 && anchors[i] == BaseAnchor(side, ratio, rotation, sqrt)
  }

  /** Every row of the table is the anchor of its three columns. */
  ghost predicate IsTable(anchors: seq<Anchor>, sides: seq<real>, ratios: seq<real>, rotations: seq<real>,
                          sqrt: real -> real)
  {
    && |anchors| == |sides| == |ratios| == |rotations|
    && forall i :: 0 <= i < |anchors| ==> IsRowFor(anchors, i, sides[i], ratios[i], rotations[i], sqrt)
  }

  method FillTable(zeros: seq<Anchor>, sides: seq<real>, ratios: seq<real>, rotations: seq<real>, sqrt: real -> real)
    returns (anchors: seq<Anchor>)
    requires |zeros| == |sides| == |ratios| == |rotations| && forall i :: 0 <= i < |ratios| ==> ratios[i] > 0.0
    ensures |anchors| == |zeros| && IsTable(anchors, sides, ratios, rotations, sqrt)
  {
    anchors := zeros;
    for i := 0 to |zeros|
      invariant |anchors| == |zeros|
      invariant forall k :: 0 <= k < i ==> anchors[k] == BaseAnchor(sides[k], ratios[k], rotations[k], sqrt)
    {
      anchors := anchors[i := BaseAnchor(sides[i], ratios[i], rotations[i], sqrt)];
    }
  }

  /** Row (r O + o) S + s is the anchor of ratio r, rotation o and scale s. */
  method GenerateAnchors(baseSize: real, ratios: seq<real>, scales: seq<real>, rotations: seq<real>, sqrt: real -> real)
    returns (anchors: seq<Anchor>)
    requires forall r :: r in ratios ==> r > 0.0
    ensures |anchors| == |ratios| * |scales| * |rotations|
    ensures forall r: nat, o: nat, s: nat {:trigger RowIndex(|rotations|, |scales|, r, o, s)} ::
      r < |ratios| && o < |rotations| && s < |scales| ==>
        IsRowFor(anchors, RowIndex(|rotations|, |scales|, r, o, s), baseSize * scales[s], ratios[r], rotations[o], sqrt)
  {
    var S, O := |scales|, |rotations|;
    var n := |ratios| * S * O;
    anchors := seq(n, _ => Anchor(0.0, 0.0, 0.0, 0.0, 0.0));
    if n == 0 {
      NoRows(|ratios|, O, S);
      return;
    }
    SomeRows(|ratios|, S, O);
    TableSizes(|ratios|, S, O);
    var cellSides := seq(S, s requires 0 <= s < S => baseSize * scales[s]);
    var sides := Tile(cellSides, |ratios| * O);
    var repeatedRatios := Repeat(ratios, S * O);
    var tiledRotations := Tile(Repeat(rotations, S), |ratios|);
    anchors := FillTable(anchors, sides, repeatedRatios, tiledRotations, sqrt);
    forall r: nat, o: nat, s: nat | r < |ratios| && o < O && s < S
      ensures IsRowFor(anchors, RowIndex(O, S, r, o, s), baseSize * scales[s], ratios[r], rotations[o], sqrt)
    {
      TableRow(anchors, cellSides, ratios, rotations, sqrt, r, o, s);
      assert cellSides[s] == baseSize * scales[s];
    }
  }

  /** What the three columns hold at the row of a ratio, a rotation and a scale. */
  lemma RowEntries(sides: seq<real>, ratios: seq<real>, rotations: seq<real>, r: nat, o: nat, s: nat)
    requires r < |ratios| && o < |rotations| && s < |sides|
    ensures var R, O, S := |ratios|, |rotations|, |sides|;
            var i := RowIndex(O, S, r, o, s);
            && S * O > 0 && i < R * S * O && i < |Tile(sides, R * O)| && Tile(sides, R * O)[i] == sides[s]
            && i < |Repeat(ratios, S * O)| && Repeat(ratios, S * O)[i] == ratios[r]
            && i < |Tile(Repeat(rotations, S), R)| && Tile(Repeat(rotations, S), R)[i] == rotations[o]
  {
    var R, O, S := |ratios|, |rotations|, |sides|;
    RowOf(R, O, S, r, o, s);
    TableSizes(R, S, O);
  }

  lemma TableRow(anchors: seq<Anchor>, sides: seq<real>, ratios: seq<real>, rotations: seq<real>, sqrt: real -> real,
                 r: nat, o: nat, s: nat)
    requires r < |ratios| && o < |rotations| && s < |sides| && |sides| * |rotations| > 0
    requires IsTable(anchors, Tile(sides, |ratios| * |rotations|), Repeat(ratios, |sides| * |rotations|),
                     Tile(Repeat(rotations, |sides|), |ratios|), sqrt)
    ensures IsRowFor(anchors, RowIndex(|rotations|, |sides|, r, o, s), sides[s], ratios[r], rotations[o], sqrt)
  {
    RowEntries(sides, ratios, rotations, r, o, s);
  }

  lemma TableSizes(R: nat, S: nat, O: nat)
    ensures R * O * S == R * S * O == R * (S * O) == R * (O * S)
  {
    assert O * S == S * O;
  }

  lemma NoRows(R: nat, O: nat, S: nat)
    requires R * S * O == 0
    ensures R == 0 || O == 0 || S == 0
  {
    if R > 0 && S > 0 { assert R * S > 0; }
  }

  lemma SomeRows(R: nat, S: nat, O: nat)
    requires R * S * O > 0
    ensures S > 0 && O > 0 && S * O > 0
  {
  }

  lemma AreaOverRatio(side: real, ratio: real)
    requires ratio > 0.0
    ensures side * side / ratio >= 0.0
  {
    assert side * side >= 0.0;
    var q := side * side / ratio;
    assert q * ratio == side * side;
  }
}
