/**
  Letterboxing (utils/letterbox.py): an image is scaled to fit a given size, its borders are filled up, and
  `unletterbox_map` cuts the result out of a map of that size again.
*/
module Letterbox {
  import opened Images
  import opened Options
  import opened Rounding

  function Ratio(h: nat, w: nat, newH: nat, newW: nat): real
    requires h > 0 && w > 0
  {
    var a := newH as real / h as real;
    var b := newW as real / w as real;
    if a <= b then a else b
  }

  function Inner(side: nat, ratio: real): int { Round(ScaledBy(side, ratio)) }

  datatype Pads = Pads(left: int, right: int, top: int, bottom: int)

  function PadsFor(innerH: int, innerW: int, newH: int, newW: int): Pads
  {
    var dw := (newW - innerW) as real;
    var dh := (newH - innerH) as real;
    Pads((dw / 2.0).Floor, Ceil(dw / 2.0), (dh / 2.0).Floor, Ceil(dh / 2.0))
  }

  /** The ratio is the largest one at which both sides still fit. */
  lemma RatioIsLargest(h: nat, w: nat, newH: nat, newW: nat, s: real)
    requires h > 0 && w > 0
    ensures s <= Ratio(h, w, newH, newW) <==> ScaledBy(h, s) <= newH as real && ScaledBy(w, s) <= newW as real
  {
    QuotientOrder(newH, h, s);
    QuotientOrder(newW, w, s);
  }

  lemma QuotientOrder(a: nat, b: nat, s: real)
    requires b > 0
    ensures s <= a as real / b as real <==> ScaledBy(b, s) <= a as real
  {
    var q := a as real / b as real;
    QuotientBack(a as real, b as real);
    if s <= q { ScaleOrder(s, q, b as real); } else { StrictOrder(q, s, b as real); }
  }

  /** Both sides fit the target, and one of them fills it. */
  lemma InnerFits(h: nat, w: nat, newH: nat, newW: nat)
    requires h > 0 && w > 0
    ensures var r := Ratio(h, w, newH, newW);
            && 0 <= Inner(h, r) <= newH && 0 <= Inner(w, r) <= newW
            && (Inner(h, r) == newH || Inner(w, r) == newW)
  {
    var r := Ratio(h, w, newH, newW);
    NonNegativeQuotient(newH as real, h as real);
    NonNegativeQuotient(newW as real, w as real);
    RatioIsLargest(h, w, newH, newW, r);
    InnerWithin(h, r, newH);
    InnerWithin(w, r, newW);
    QuotientBack(newH as real, h as real);
    QuotientBack(newW as real, w as real);
    RoundInt(newH);
    RoundInt(newW);
  }

  lemma InnerWithin(side: nat, ratio: real, limit: nat)
    requires ratio >= 0.0 && ScaledBy(side, ratio) <= limit as real
    ensures 0 <= Inner(side, ratio) <= limit
  {
    ScaleOrder(0.0, side as real, ratio);
    RoundInt(limit);
    RoundInt(0);
    RoundMonotone(ScaledBy(side, ratio), limit as real);
    RoundMonotone(0.0, ScaledBy(side, ratio));
  }

  /** The pads are non-negative, make up exactly what is missing, and centre the image to within a pixel. */
  lemma PadsAreFair(innerH: int, innerW: int, newH: int, newW: int)
    requires innerH <= newH && innerW <= newW
    ensures var p := PadsFor(innerH, innerW, newH, newW);
            && 0 <= p.left <= p.right <= p.left + 1 && p.left + innerW + p.right == newW
            && 0 <= p.top <= p.bottom <= p.top + 1 && p.top + innerH + p.bottom == newH
  {
    HalvesMakeWhole(newW - innerW);
    HalvesMakeWhole(newH - innerH);
  }

  lemma HalvesMakeWhole(d: int)
    requires d >= 0
    ensures var lo, hi := (d as real / 2.0).Floor, Ceil(d as real / 2.0);
            0 <= lo <= hi <= lo + 1 && lo + hi == d
  {
    var half := d / 2;
    assert d == 2 * half || d == 2 * half + 1;
    assert (d as real / 2.0).Floor == half;
  }

  /** `copyMakeBorder` with a constant. */
  function Bordered(grid: Grid, h: nat, w: nat, p: Pads, value: int): (g: Grid)
    requires IsGrid(grid, h, w) && p.left >= 0 && p.right >= 0 && p.top >= 0 && p.bottom >= 0
    ensures IsGrid(g, p.top + h + p.bottom, p.left + w + p.right)
  {
    seq(p.top + h + p.bottom, y requires 0 <= y => seq(p.left + w + p.right, x requires 0 <= x =>
      if p.top <= y < p.top + h && p.left <= x < p.left + w then grid[y - p.top][x - p.left] else value))
  }

  /** `prob_lb[top : H - bottom, left : W - right]`. */
  function Crop(grid: Grid, bigH: nat, bigW: nat, p: Pads): Grid
    requires IsGrid(grid, bigH, bigW) && 0 <= p.top <= bigH - p.bottom <= bigH && 0 <= p.left <= bigW - p.right <= bigW
  {
    var rows := grid[p.top..bigH - p.bottom];
    seq(|rows|, y requires 0 <= y < |rows| => rows[y][p.left..bigW - p.right])
  }

  predicate BorderIs(grid: Grid, bigH: nat, bigW: nat, p: Pads, value: int)
    requires IsGrid(grid, bigH, bigW)
  {
    forall y, x :: 0 <= y < bigH && 0 <= x < bigW ==>
      (p.top <= y < bigH - p.bottom && p.left <= x < bigW - p.right) || grid[y][x] == value
  }

  lemma CropOfBordered(grid: Grid, h: nat, w: nat, p: Pads, value: int)
    requires IsGrid(grid, h, w) && p.left >= 0 && p.right >= 0 && p.top >= 0 && p.bottom >= 0
    ensures Crop(Bordered(grid, h, w, p, value), p.top + h + p.bottom, p.left + w + p.right, p) == grid
    ensures BorderIs(Bordered(grid, h, w, p, value), p.top + h + p.bottom, p.left + w + p.right, p, value)
  {
    var big := Bordered(grid, h, w, p, value);
    var c := Crop(big, p.top + h + p.bottom, p.left + w + p.right, p);
    forall y | 0 <= y < h ensures c[y] == grid[y] {
      assert c[y] == big[y + p.top][p.left..p.left + w];
    }
  }

  datatype Boxed = Boxed(image: Grid, ratio: real, pads: Pads)

  /** None: `cv2.resize` refuses a size with an empty side. */
  function LetterboxPair(image: Grid, h: nat, w: nat, newH: nat, newW: nat, value: int, resize: Resize): Option<Boxed>
    requires IsGrid(image, h, w) && h > 0 && w > 0 && IsResize(resize)
  {
    var r := Ratio(h, w, newH, newW);
    var innerH, innerW := Inner(h, r), Inner(w, r);
    InnerFits(h, w, newH, newW);
    PadsAreFair(innerH, innerW, newH, newW);
    if innerH == 0 || innerW == 0 then None
    else
      var p := PadsFor(innerH, innerW, newH, newW);
      Some(Boxed(Bordered(resize(image, innerH, innerW), innerH, innerW, p, value), r, p))
  }

  function UnletterboxMap(prob: Grid, bigH: nat, bigW: nat, h: nat, w: nat, p: Pads, resize: Resize): Grid
    requires IsGrid(prob, bigH, bigW) && 0 <= p.top <= bigH - p.bottom <= bigH && 0 <= p.left <= bigW - p.right <= bigW
  {
    resize(Crop(prob, bigH, bigW, p), h, w)
  }

  /** A side that is not the one to fill the target comes out empty when the image is too elongated. */
  lemma EmptyInner(side: nat, other: nat, newSide: nat, newOther: nat)
    requires side > 0 && other > 0
    ensures Inner(side, Ratio(other, side, newOther, newSide)) == 0 <==> newSide == 0 || 2 * (side * newOther) <= other
  {
    var a := newOther as real / other as real;
    var b := newSide as real / side as real;
    QuotientBack(newSide as real, side as real);
    HalfQuotient(side, newOther, other);
    if a <= b { ScaleOrder(a, b, side as real); } else { StrictOrder(b, a, side as real); }
    EmptyWhen(ScaledBy(side, a), newSide, ScaledBy(side, Ratio(other, side, newOther, newSide)));
  }

  lemma EmptyWhen(v: real, limit: nat, least: real)
    requires v >= 0.0 && least == if v <= limit as real then v else limit as real
    ensures Round(least) == 0 <==> limit == 0 || v <= 0.5
  {
    if v > limit as real { RoundInt(limit); }
  }

  lemma HalfQuotient(side: nat, newOther: nat, other: nat)
    requires other > 0
    ensures ScaledBy(side, newOther as real / other as real) <= 0.5 <==> 2 * (side * newOther) <= other
  {
    var q := newOther as real / other as real;
    QuotientBack(newOther as real, other as real);
    Regroup(side as real, other as real, q, newOther as real);
    var v := side as real * q;
    if v <= 0.5 { ScaleOrder(v, 0.5, other as real); } else { StrictOrder(0.5, v, other as real); }
  }

  /** Letterboxing fails exactly on images too elongated for the target size. */
  lemma FailsOnlyWhenElongated(image: Grid, h: nat, w: nat, newH: nat, newW: nat, value: int, resize: Resize)
    requires IsGrid(image, h, w) && h > 0 && w > 0 && IsResize(resize)
    ensures LetterboxPair(image, h, w, newH, newW, value, resize) == None
       <==> 2 * (w * newH) <= h || 2 * (h * newW) <= w
  {
    EmptyInner(h, w, newH, newW);
    EmptyInner(w, h, newW, newH);
    RatioSwaps(h, w, newH, newW);
    ZeroProducts(w, newH);
    ZeroProducts(h, newW);
  }

  lemma RatioSwaps(h: nat, w: nat, newH: nat, newW: nat)
    requires h > 0 && w > 0
    ensures Ratio(h, w, newH, newW) == Ratio(w, h, newW, newH)
  {
  }

  lemma ZeroProducts(a: nat, b: nat)
    ensures b == 0 ==> a * b == 0
  {
  }

  /**
    Otherwise the result has the target size, the image in it keeps its aspect ratio to within half a pixel, and
    un-letterboxing sees exactly the resized image.
  */
  lemma LetterboxRoundTrip(image: Grid, h: nat, w: nat, newH: nat, newW: nat, value: int, resize: Resize)
    requires IsGrid(image, h, w) && h > 0 && w > 0 && IsResize(resize)
    requires LetterboxPair(image, h, w, newH, newW, value, resize).Some?
    ensures var b := LetterboxPair(image, h, w, newH, newW, value, resize).value;
            && IsGrid(b.image, newH, newW) && BorderIs(b.image, newH, newW, b.pads, value)
            && 0 <= b.pads.left <= b.pads.right <= b.pads.left + 1 && 0 <= b.pads.top <= b.pads.bottom <= b.pads.top + 1
            && (b.pads.left == b.pads.right == 0 || b.pads.top == b.pads.bottom == 0)
            && b.pads.left + b.pads.right <= newW && b.pads.top + b.pads.bottom <= newH
            && b.ratio == Ratio(h, w, newH, newW)
            && AbsReal((newH - b.pads.top - b.pads.bottom) as real - ScaledBy(h, b.ratio)) <= 0.5
            && AbsReal((newW - b.pads.left - b.pads.right) as real - ScaledBy(w, b.ratio)) <= 0.5
            && UnletterboxMap(b.image, newH, newW, h, w, b.pads, resize)
               == resize(resize(image, newH - b.pads.top - b.pads.bottom, newW - b.pads.left - b.pads.right), h, w)
  {
    var r := Ratio(h, w, newH, newW);
    var innerH, innerW := Inner(h, r), Inner(w, r);
    InnerFits(h, w, newH, newW);
    PadsAreFair(innerH, innerW, newH, newW);
    CropOfBordered(resize(image, innerH, innerW), innerH, innerW, PadsFor(innerH, innerW, newH, newW), value);
  }
}
