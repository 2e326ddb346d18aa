/** utils/SPPF.py: three chained stride-1 max poolings of a map, concatenated with the map itself. */
module Sppf {
  import opened Rounding

  /** One channel; padding counts as minus infinity, that is, windows are clipped to the map. */
  ghost predicate IsMap(m: seq<seq<real>>, h: nat, w: nat)
  {
    h > 0 && w > 0 && |m| == h && forall y :: 0 <= y < h ==> |m[y]| == w
  }

  function RowMax(row: seq<real>, left: nat, right: nat): real
    requires left <= right < |row|
    decreases right - left
  {
    if left == right then row[left] else MaxReal(row[left], RowMax(row, left + 1, right))
  }

  function BlockMax(m: seq<seq<real>>, top: nat, bottom: nat, left: nat, right: nat): real
    requires top <= bottom < |m| && left <= right && forall y :: 0 <= y < |m| ==> right < |m[y]|
    decreases bottom - top
  {
    if top == bottom then RowMax(m[top], left, right)
    else MaxReal(RowMax(m[top], left, right), BlockMax(m, top + 1, bottom, left, right))
  }

  /** First and last index, clipped, of the window of output y: k entries from y - k/2 on. */
  function Lo(y: int, k: int): int { Max(0, y - k / 2) }

  function Hi(y: int, k: int, n: int): int { Min(n - 1, y - k / 2 + k - 1) }

  /** Side length after a pooling with window k, stride 1 and padding k/2. */
  function PooledSide(n: nat, k: nat): nat
    requires n > 0 && k > 0
  {
    n + 2 * (k / 2) - k + 1
  }

  /** The four maps can only be concatenated if pooling keeps the size, which is so exactly for odd windows. */
  lemma SizeKeptIffOdd(n: nat, k: nat)
    requires n > 0 && k > 0
    ensures PooledSide(n, k) == n <==> k % 2 == 1
  {
  }

  function WindowMax(m: seq<seq<real>>, h: nat, w: nat, k: nat, y: nat, x: nat): real
    requires IsMap(m, h, w) && k > 0 && y < PooledSide(h, k) && x < PooledSide(w, k)
  {
    BlockMax(m, Lo(y, k), Hi(y, k, h), Lo(x, k), Hi(x, k, w))
  }

  function Pool(m: seq<seq<real>>, h: nat, w: nat, k: nat): (p: seq<seq<real>>)
    requires IsMap(m, h, w) && k > 0
    ensures IsMap(p, PooledSide(h, k), PooledSide(w, k))
  {
    seq(PooledSide(h, k), y requires 0 <= y < PooledSide(h, k) =>
      seq(PooledSide(w, k), x requires 0 <= x < PooledSide(w, k) => WindowMax(m, h, w, k, y, x)))
  }

  /** Pooling with an odd window, given by its radius. */
  function OddPool(m: seq<seq<real>>, h: nat, w: nat, r: nat): (p: seq<seq<real>>)
    requires IsMap(m, h, w)
    ensures IsMap(p, h, w)
  {
    SizeKeptIffOdd(h, 2 * r + 1);
    SizeKeptIffOdd(w, 2 * r + 1);
    Pool(m, h, w, 2 * r + 1)
  }

  predicate InReach(y: int, r: nat, n: int, q: int) { 0 <= q < n && y - r <= q <= y + r }

  /** v is the largest value of the map within reach of (y, x). */
  ghost predicate IsReachMax(m: seq<seq<real>>, h: nat, w: nat, r: nat, y: int, x: int, v: real)
    requires IsMap(m, h, w)
  {
    && (forall a, b :: InReach(y, r, h, a) && InReach(x, r, w, b) ==> m[a][b] <= v)
    && (exists a, b :: InReach(y, r, h, a) && InReach(x, r, w, b) && m[a][b] == v)
  }

  lemma {:induction false} RowMaxIsMax(row: seq<real>, left: nat, right: nat) returns (at: nat)
    requires left <= right < |row|
    ensures left <= at <= right && row[at] == RowMax(row, left, right)
    ensures forall b :: left <= b <= right ==> row[b] <= row[at]
    decreases right - left
  {
    at := left;
    if left < right {
      var rest := RowMaxIsMax(row, left + 1, right);
      if row[left] < row[rest] { at := rest; }
    }
  }

  lemma {:induction false} BlockMaxIsMax(m: seq<seq<real>>, top: nat, bottom: nat, left: nat, right: nat)
    returns (y: nat, x: nat)
    requires top <= bottom < |m| && left <= right && forall y :: 0 <= y < |m| ==> right < |m[y]|
    ensures top <= y <= bottom && left <= x <= right && m[y][x] == BlockMax(m, top, bottom, left, right)
    ensures forall a, b :: top <= a <= bottom && left <= b <= right ==> m[a][b] <= m[y][x]
    decreases bottom - top
  {
    y := top;
    x := RowMaxIsMax(m[top], left, right);
    if top < bottom {
      var y', x' := BlockMaxIsMax(m, top + 1, bottom, left, right);
      if m[y][x] < m[y'][x'] { y, x := y', x'; }
    }
  }

  lemma OddWindow(y: int, r: nat, n: int)
    requires 0 <= y < n
    ensures Lo(y, 2 * r + 1) == Max(0, y - r) && Hi(y, 2 * r + 1, n) == Min(n - 1, y + r)
  {
  }

  lemma PoolIsMax(m: seq<seq<real>>, h: nat, w: nat, r: nat, y: nat, x: nat)
    requires IsMap(m, h, w) && y < h && x < w
    ensures IsReachMax(m, h, w, r, y, x, OddPool(m, h, w, r)[y][x])
  {
    SizeKeptIffOdd(h, 2 * r + 1);
    SizeKeptIffOdd(w, 2 * r + 1);
    OddWindow(y, r, h);
    OddWindow(x, r, w);
    var a, b := BlockMaxIsMax(m, Max(0, y - r), Min(h - 1, y + r), Max(0, x - r), Min(w - 1, x + r));
    assert InReach(y, r, h, a) && InReach(x, r, w, b);
  }

  /** From y one step of at most r towards q. */
  function Towards(y: int, q: int, r: nat): int { if q > y + r then y + r else if q < y - r then y - r else q }

  /** Whatever two steps can reach is reached through a point of the map. */
  lemma ReachSplits(y: int, q: int, n: nat, r: nat, s: nat)
    requires 0 <= y < n && InReach(y, r + s, n, q)
    ensures InReach(y, s, n, Towards(y, q, s)) && InReach(Towards(y, q, s), r, n, q)
  {
  }

  /** The largest of the maxima within reach r, taken within reach s, is the maximum within reach r + s. */
  lemma MaxOfMaxima(m: seq<seq<real>>, h: nat, w: nat, r: nat, s: nat, y: nat, x: nat, v: real)
    requires IsMap(m, h, w) && y < h && x < w
    requires IsReachMax(OddPool(m, h, w, r), h, w, s, y, x, v)
    ensures IsReachMax(m, h, w, r + s, y, x, v)
  {
    var inner := OddPool(m, h, w, r);
    forall a, b | InReach(y, r + s, h, a) && InReach(x, r + s, w, b) ensures m[a][b] <= v {
      ReachSplits(y, a, h, r, s);
      ReachSplits(x, b, w, r, s);
      var c, d := Towards(y, a, s), Towards(x, b, s);
      PoolIsMax(m, h, w, r, c, d);
      assert m[a][b] <= inner[c][d];
    }
    var c, d :| InReach(y, s, h, c) && InReach(x, s, w, d) && inner[c][d] == v;
    PoolIsMax(m, h, w, r, c, d);
    var a, b :| InReach(c, r, h, a) && InReach(d, r, w, b) && m[a][b] == v;
    assert InReach(y, r + s, h, a) && InReach(x, r + s, w, b);
  }

  lemma ReachMaxUnique(m: seq<seq<real>>, h: nat, w: nat, r: nat, y: int, x: int, v: real, u: real)
    requires IsMap(m, h, w) && IsReachMax(m, h, w, r, y, x, v) && IsReachMax(m, h, w, r, y, x, u)
    ensures v == u
  {
  }

  /** Pooling with radius r and then with radius s is pooling with radius r + s, borders included. */
  lemma PoolTwice(m: seq<seq<real>>, h: nat, w: nat, r: nat, s: nat)
    requires IsMap(m, h, w)
    ensures OddPool(OddPool(m, h, w, r), h, w, s) == OddPool(m, h, w, r + s)
  {
    var inner := OddPool(m, h, w, r);
    var twice, once := OddPool(inner, h, w, s), OddPool(m, h, w, r + s);
    forall y: nat, x: nat | y < h && x < w ensures twice[y][x] == once[y][x] {
      PoolIsMax(inner, h, w, s, y, x);
      MaxOfMaxima(m, h, w, r, s, y, x, twice[y][x]);
      PoolIsMax(m, h, w, r + s, y, x);
      ReachMaxUnique(m, h, w, r + s, y, x, twice[y][x], once[y][x]);
    }
    forall y: nat | y < h ensures twice[y] == once[y] {
      assert forall x: nat :: x < w ==> twice[y][x] == once[y][x];
    }
  }

  /** The channels that are concatenated for one input channel. */
  function Forward(x: seq<seq<real>>, h: nat, w: nat, k: nat): (ys: seq<seq<seq<real>>>)
    requires IsMap(x, h, w) && k > 0 && k % 2 == 1
    ensures |ys| == 4 && forall i :: 0 <= i < 4 ==> IsMap(ys[i], h, w)
  {
    var y1 := Pool(x, h, w, k);
    var y2 := Pool(y1, h, w, k);
    var y3 := Pool(y2, h, w, k);
    [x, y1, y2, y3]
  }

  /** The cheap chain computes what single poolings with windows k, 2k-1 and 3k-2 would. */
  lemma ChainIsLargePools(x: seq<seq<real>>, h: nat, w: nat, k: nat)
    requires IsMap(x, h, w) && k > 0 && k % 2 == 1
    ensures Forward(x, h, w, k) == [x, Pool(x, h, w, k), Pool(x, h, w, 2 * k - 1), Pool(x, h, w, 3 * k - 2)]
  {
    var r := k / 2;
    assert k == 2 * r + 1 && 2 * k - 1 == 2 * (r + r) + 1 && 3 * k - 2 == 2 * (r + r + r) + 1;
    var y1 := OddPool(x, h, w, r);
    var y2 := OddPool(y1, h, w, r);
    assert Forward(x, h, w, k) == [x, y1, y2, OddPool(y2, h, w, r)];
    PoolTwice(x, h, w, r, r);
    PoolTwice(x, h, w, r + r, r);
  }
}
