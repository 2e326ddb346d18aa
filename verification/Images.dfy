/** Pixel grids, and the scaling of their sides. */
module Images {

  type Grid = seq<seq<int>>

  predicate IsGrid(grid: Grid, h: nat, w: nat) { |grid| == h && forall y :: 0 <= y < h ==> |grid[y]| == w }

  /** OpenCV's resampling to a given height and width. */
  type Resize = (Grid, nat, nat) -> Grid

  ghost predicate IsResize(resize: Resize) { forall g: Grid, h: nat, w: nat :: IsGrid(resize(g, h, w), h, w) }

  function ScaledBy(side: nat, scale: real): real { side as real * scale }

  lemma QuotientBack(a: real, b: real)
    requires b != 0.0
    ensures a / b * b == a && b * (a / b) == a
  {
  }

  lemma ScaleOrder(a: real, b: real, m: real)
    requires a <= b && m >= 0.0
    ensures a * m <= b * m
  {
    assert (b - a) * m >= 0.0;
  }

  lemma StrictOrder(a: real, b: real, m: real)
    requires a < b && m > 0.0
    ensures a * m < b * m
  {
    assert (b - a) * m > 0.0;
  }

  lemma Regroup(s: real, b: real, q: real, n: real)
    requires q * b == n
    ensures (s * q) * b == s * n
  {
  }

  lemma NonNegativeQuotient(a: real, b: real)
    requires a >= 0.0 && b > 0.0
    ensures a / b >= 0.0
  {
  }
}
