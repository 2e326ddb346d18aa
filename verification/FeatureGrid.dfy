/**
  Shape arithmetic of the detector: models/FcaNet.py (backbone), models/FPAN.py (pyramid) and the grid
  sizes of models/anchors.py. Only shapes are modelled; `torch` refuses to add maps of different
  shapes, which here is a precondition of `Add` that every caller has to prove.
*/
module FeatureGrid {
  import opened IntegerMath

  datatype Size = Size(h: nat, w: nat)

  datatype Shape = Shape(channels: nat, size: Size)

  // ---------- convolutions ----------

  /** Length of one side after a convolution or pooling with the given window, stride and padding. */
  function ConvOut(n: nat, window: nat, stride: nat, padding: nat): nat
    requires stride > 0 && n + 2 * padding >= window
  {
    (n + 2 * padding - window) / stride + 1
  }

  function CeilDiv(n: nat, d: nat): nat
    requires d > 0
  {
    (n + d - 1) / d
  }

  function CeilSize(s: Size, d: nat): Size
    requires d > 0
  {
    Size(CeilDiv(s.h, d), CeilDiv(s.w, d))
  }

  lemma CeilDivUnique(n: nat, d: nat, q: nat)
    requires d > 0 && n <= q * d < n + d
    ensures q == CeilDiv(n, d)
  {
    QuotientUnique(n + d - 1, d, q, n + d - 1 - q * d);
  }

  lemma CeilDivSpec(n: nat, d: nat)
    requires d > 0
    ensures n <= CeilDiv(n, d) * d < n + d
    ensures n > 0 ==> CeilDiv(n, d) > 0
  {
    var q := CeilDiv(n, d);
    assert n + d - 1 == q * d + (n + d - 1) % d;
  }

  /** Every window the network uses, with its padding, divides a side by its stride, rounding up. */
  lemma ConvOutIsCeil(n: nat, window: nat, stride: nat, padding: nat)
    requires stride > 0 && n > 0 && window == 2 * padding + 1
    ensures ConvOut(n, window, stride, padding) == CeilDiv(n, stride)
  {
    var q := (n - 1) / stride;
    assert n - 1 == q * stride + (n - 1) % stride;
    assert (q + 1) * stride == q * stride + stride;
    CeilDivUnique(n, stride, q + 1);
  }

  lemma Regroup(q: nat, a: nat, b: nat)
    ensures q * b * a == q * (a * b)
  {
  }

  lemma Spread(m: nat, b: nat, a: nat)
    requires b > 0
    ensures (m + b - 1) * a == m * a + b * a - a
  {
  }

  lemma PositiveProduct(a: nat, b: nat)
    requires a > 0 && b > 0
    ensures a * b > 0 && a * b == b * a
  {
  }

  /** Rounding up twice is rounding up once by the product. */
  lemma NestedCeil(n: nat, a: nat, b: nat)
    requires a > 0 && b > 0
    ensures a * b > 0 && CeilDiv(CeilDiv(n, a), b) == CeilDiv(n, a * b)
  {
    var m := CeilDiv(n, a);
    var q := CeilDiv(m, b);
    CeilDivSpec(n, a);
    CeilDivSpec(m, b);
    MulMonotone(m, q * b, a);
    MulMonotone(q * b, m + b - 1, a);
    Regroup(q, a, b);
    Spread(m, b, a);
    PositiveProduct(a, b);
    CeilDivBetween(n, a * b, q, m * a, a);
  }

  lemma CeilDivBetween(n: nat, d: nat, q: nat, lower: nat, slack: nat)
    requires d > 0 && n <= lower < n + slack && lower <= q * d <= lower + d - slack
    ensures q == CeilDiv(n, d)
  {
    CeilDivUnique(n, d, q);
  }

  lemma CeilByOne(n: nat)
    ensures CeilDiv(n, 1) == n
  {
  }

  predicate NonEmpty(s: Size) { s.h > 0 && s.w > 0 }

  function Conv(s: Size, window: nat, stride: nat, padding: nat): Size
    requires NonEmpty(s) && stride > 0 && window == 2 * padding + 1
  {
    Size(ConvOut(s.h, window, stride, padding), ConvOut(s.w, window, stride, padding))
  }

  lemma ConvIsCeil(s: Size, window: nat, stride: nat, padding: nat)
    requires NonEmpty(s) && stride > 0 && window == 2 * padding + 1
    ensures Conv(s, window, stride, padding) == CeilSize(s, stride)
    ensures NonEmpty(CeilSize(s, stride))
  {
    ConvOutIsCeil(s.h, window, stride, padding);
    ConvOutIsCeil(s.w, window, stride, padding);
    CeilDivSpec(s.h, stride);
    CeilDivSpec(s.w, stride);
  }

  lemma ConvKeeps(s: Size, window: nat, padding: nat)
    requires NonEmpty(s) && window == 2 * padding + 1
    ensures Conv(s, window, 1, padding) == s
  {
    ConvIsCeil(s, window, 1, padding);
    CeilByOne(s.h);
    CeilByOne(s.w);
  }

  /** Elementwise sum of two maps. */
  function Add(a: Shape, b: Shape): Shape
    requires a == b
  {
    a
  }

  // ---------- backbone ----------

  datatype Kind = BasicBlock | Bottleneck {
    function Expansion(): nat { if BasicBlock? then 1 else 4 }
  }

  datatype Block = Block(kind: Kind, inplanes: nat, planes: nat, stride: nat, downsample: bool) {
    ghost predicate Valid()
    {
      && stride > 0
      && (!downsample ==> stride == 1 && inplanes == planes * kind.Expansion())
    }

    function MainPath(x: Shape): Shape
      requires stride > 0 && NonEmpty(x.size) && x.channels == inplanes
    {
      ConvIsCeil(x.size, 3, stride, 1);
      ConvIsCeil(x.size, 1, 1, 0);
      if kind.BasicBlock? then
        Shape(planes, Conv(Conv(x.size, 3, stride, 1), 3, 1, 1))
      else
        ConvKeeps(x.size, 1, 0);
        Shape(planes * 4, Conv(Conv(Conv(x.size, 1, 1, 0), 3, stride, 1), 1, 1, 0))
    }

    function Residual(x: Shape): Shape
      requires stride > 0 && NonEmpty(x.size) && x.channels == inplanes
    {
      if downsample then Shape(planes * kind.Expansion(), Conv(x.size, 1, stride, 0)) else x
    }

    lemma PathsAgree(x: Shape)
      requires Valid() && NonEmpty(x.size) && x.channels == inplanes
      ensures MainPath(x) == Residual(x) == Shape(planes * kind.Expansion(), CeilSize(x.size, stride))
      ensures NonEmpty(CeilSize(x.size, stride))
    {
      ConvIsCeil(x.size, 3, stride, 1);
      ConvIsCeil(x.size, 1, stride, 0);
      ConvKeeps(x.size, 1, 0);
      ConvKeeps(CeilSize(x.size, stride), 3, 1);
      ConvKeeps(CeilSize(x.size, stride), 1, 0);
      CeilByOne(x.size.h);
      CeilByOne(x.size.w);
    }

    function Forward(x: Shape): (y: Shape)
      requires Valid() && NonEmpty(x.size) && x.channels == inplanes
      ensures y == Shape(planes * kind.Expansion(), CeilSize(x.size, stride)) && NonEmpty(y.size)
    {
      PathsAgree(x);
      Add(MainPath(x), Residual(x))
    }
  }

  /** A stage of blocks each of which accepts what the one before it produces. */
  ghost predicate IsStage(layers: seq<Block>, inplanes: nat, outplanes: nat, stride: nat)
  {
    && layers != []
    && layers[0].Valid() && layers[0].inplanes == inplanes && layers[0].stride == stride
    && (forall i :: 0 <= i < |layers| ==> layers[i].planes * layers[i].kind.Expansion() == outplanes)
    && (forall i :: 1 <= i < |layers| ==> layers[i].Valid() && layers[i].inplanes == outplanes && layers[i].stride == 1)
  }

  function RunBlocks(layers: seq<Block>, x: Shape, inplanes: nat, outplanes: nat, stride: nat): (y: Shape)
    requires IsStage(layers, inplanes, outplanes, stride) && NonEmpty(x.size) && x.channels == inplanes
    ensures y == Shape(outplanes, CeilSize(x.size, stride)) && NonEmpty(y.size)
    decreases |layers|
  {
    var y := layers[0].Forward(x);
    if |layers| == 1 then y
    else
      CeilByOne(y.size.h);
      CeilByOne(y.size.w);
      RunBlocks(layers[1..], y, outplanes, outplanes, 1)
  }

  class ResNet {
    const kind: Kind
    var inplanes: nat
    var dilation: nat
    var layer1: seq<Block>
    var layer2: seq<Block>
    var layer3: seq<Block>
    var layer4: seq<Block>

    method MakeLayer(planes: nat, blocks: nat, stride0: nat, dilate: bool) returns (layers: seq<Block>)
      requires stride0 > 0
      modifies this`inplanes, this`dilation
      ensures IsStage(layers, old(inplanes), planes * kind.Expansion(), if dilate then 1 else stride0)
      ensures |layers| == if blocks < 1 then 1 else blocks
      ensures inplanes == planes * kind.Expansion()
    {
      var stride := stride0;
      if dilate {
        dilation := dilation * stride;
        stride := 1;
      }
      var downsample := stride != 1 || inplanes != planes * kind.Expansion();
      layers := [Block(kind, inplanes, planes, stride, downsample)];
      inplanes := planes * kind.Expansion();
      var i := 1;
      while i < blocks
        invariant |layers| == i && (i <= blocks || i == 1)
        invariant inplanes == planes * kind.Expansion()
        invariant IsStage(layers, old(inplanes), planes * kind.Expansion(), stride)
      {
        layers := layers + [Block(kind, inplanes, planes, 1, false)];
        i := i + 1;
      }
    }

    constructor (kind: Kind, blocks: (nat, nat, nat, nat), replaceStride: (bool, bool, bool))
      ensures this.kind == kind
      ensures IsStage(layer1, 64, 64 * kind.Expansion(), 1)
      ensures IsStage(layer2, 64 * kind.Expansion(), 128 * kind.Expansion(), StageStride(replaceStride.0))
      ensures IsStage(layer3, 128 * kind.Expansion(), 256 * kind.Expansion(), StageStride(replaceStride.1))
      ensures IsStage(layer4, 256 * kind.Expansion(), 512 * kind.Expansion(), StageStride(replaceStride.2))
    {
      this.kind := kind;
      inplanes, dilation := 64, 1;
      layer1, layer2, layer3, layer4 := [], [], [], [];
      new;
      var l1 := MakeLayer(64, blocks.0, 1, false);
      var l2 := MakeLayer(128, blocks.1, 2, replaceStride.0);
      var l3 := MakeLayer(256, blocks.2, 2, replaceStride.1);
      var l4 := MakeLayer(512, blocks.3, 2, replaceStride.2);
      layer1, layer2, layer3, layer4 := l1, l2, l3, l4;
    }
  }

  function StageStride(replaced: bool): nat { if replaced then 1 else 2 }

  /** Strides of C3, C4 and C5 relative to the image. */
  function Strides(r: (bool, bool, bool)): (nat, nat, nat)
  {
    var s3 := 4 * StageStride(r.0);
    var s4 := s3 * StageStride(r.1);
    (s3, s4, s4 * StageStride(r.2))
  }

  /** Shapes of C3, C4 and C5 for any image, any depth of the stages and any strides replaced by dilation. */
  method Features(kind: Kind, blocks: (nat, nat, nat, nat), replaceStride: (bool, bool, bool), image: Size)
    returns (c3: Shape, c4: Shape, c5: Shape)
    requires NonEmpty(image)
    ensures c3 == Shape(128 * kind.Expansion(), CeilSize(image, Strides(replaceStride).0))
    ensures c4 == Shape(256 * kind.Expansion(), CeilSize(image, Strides(replaceStride).1))
    ensures c5 == Shape(512 * kind.Expansion(), CeilSize(image, Strides(replaceStride).2))
  {
    var net := new ResNet(kind, blocks, replaceStride);
    var e := kind.Expansion();
    var s2, s3, s4 := StageStride(replaceStride.0), StageStride(replaceStride.1), StageStride(replaceStride.2);
    ConvIsCeil(image, 7, 2, 3);
    var c1 := Conv(image, 7, 2, 3);
    ConvIsCeil(c1, 3, 2, 1);
    NestedCeilSize(image, 2, 2);
    var pooled := Shape(64, Conv(c1, 3, 2, 1));
    var c2 := RunBlocks(net.layer1, pooled, 64, 64 * e, 1);
    CeilByOne(pooled.size.h);
    CeilByOne(pooled.size.w);
    c3 := RunBlocks(net.layer2, c2, 64 * e, 128 * e, s2);
    NestedCeilSize(image, 4, s2);
    c4 := RunBlocks(net.layer3, c3, 128 * e, 256 * e, s3);
    NestedCeilSize(image, 4 * s2, s3);
    c5 := RunBlocks(net.layer4, c4, 256 * e, 512 * e, s4);
    NestedCeilSize(image, 4 * s2 * s3, s4);
  }

  lemma NestedCeilSize(s: Size, a: nat, b: nat)
    requires a > 0 && b > 0
    ensures a * b > 0 && CeilSize(CeilSize(s, a), b) == CeilSize(s, a * b)
  {
    NestedCeil(s.h, a, b);
    NestedCeil(s.w, a, b);
  }

  // ---------- attention between two levels ----------

  datatype Matrix = Matrix(rows: nat, cols: nat)

  function Elements(s: Shape): nat { s.channels * (s.size.h * s.size.w) }

  /** `view(b, -1, width)`. */
  function View(s: Shape, width: nat): Matrix
    requires width > 0 && Elements(s) % width == 0
  {
    Matrix(Elements(s) / width, width)
  }

  /** `view(b, channels, h, w)` of a matrix. */
  function ViewAs(m: Matrix, s: Shape): Shape
    requires m.rows * m.cols == Elements(s)
  {
    s
  }

  function Permute(m: Matrix): Matrix { Matrix(m.cols, m.rows) }

  function Bmm(a: Matrix, b: Matrix): Matrix
    requires a.cols == b.rows
  {
    Matrix(a.rows, b.cols)
  }

  function Linear(m: Matrix, inFeatures: nat, outFeatures: nat): Matrix
    requires m.cols == inFeatures
  {
    Matrix(m.rows, outFeatures)
  }

  lemma ViewOfChannels(s: Shape)
    requires s.channels > 0
    ensures Elements(s) % s.channels == 0 && View(s, s.channels) == Matrix(s.size.h * s.size.w, s.channels)
  {
    var cells := s.size.h * s.size.w;
    assert Elements(s) == cells * s.channels;
    QuotientUnique(Elements(s), s.channels, cells, 0);
  }

  /** A 1x1 or padded 3x3 convolution of stride 1. */
  function KeepingConv(s: Shape, inChannels: nat, outChannels: nat, window: nat): (r: Shape)
    requires NonEmpty(s.size) && s.channels == inChannels && (window == 1 || window == 3)
    ensures r == Shape(outChannels, s.size)
  {
    ConvKeeps(s.size, window, window / 2);
    Shape(outChannels, Conv(s.size, window, 1, window / 2))
  }

  /**
    `MSAM.forward`: every row of the low map attends to every row of the high map. Whatever the size of the
    high map, all products are defined and the result has the shape of the low map.
  */
  function Attention(low: Shape, high: Shape, channelsHigh: nat, channels: nat): (out: Shape)
    requires low.channels == channels > 0 && high.channels == channelsHigh && NonEmpty(high.size)
    ensures out == low
  {
    ViewOfChannels(low);
    var converted := KeepingConv(high, channelsHigh, channels, 1);
    ViewOfChannels(converted);
    var featLow, featHigh := View(low, channels), View(converted, channels);
    var midLow := Linear(featLow, channels, channels / 4);
    var midHigh := Permute(Linear(featHigh, channels, channels / 4));
    var attention := Bmm(midLow, midHigh);
    ViewAs(Bmm(Permute(featHigh), Permute(attention)), Shape(channels, low.size))
  }

  // ---------- pyramid ----------

  function HalvingConv(s: Shape, inChannels: nat, outChannels: nat): (r: Shape)
    requires NonEmpty(s.size) && s.channels == inChannels
    ensures r == Shape(outChannels, CeilSize(s.size, 2)) && NonEmpty(r.size)
  {
    ConvIsCeil(s.size, 3, 2, 1);
    Shape(outChannels, Conv(s.size, 3, 2, 1))
  }

  /** `F.interpolate` to a given size. */
  function Interpolate(s: Shape, size: Size): Shape { Shape(s.channels, size) }

  /** The top-down path: lateral maps, and each of them with the interpolated map above it added. */
  method TopDown(x: seq<Shape>, inChannels: seq<nat>, channels: nat)
    returns (features: seq<Shape>, middles: seq<Shape>)
    requires |x| == |inChannels| == 3 && channels > 0
    requires forall i :: 0 <= i < 3 ==> NonEmpty(x[i].size) && x[i].channels == inChannels[i]
    ensures |features| == |middles| == 3
    ensures forall i :: 0 <= i < 3 ==> features[i] == middles[i] == Shape(channels, x[i].size)
  {
    var lastInner := KeepingConv(x[2], inChannels[2], channels, 1);
    features, middles := [lastInner], [lastInner];
    var i := 1;
    while i >= 0
      invariant -1 <= i <= 1
      invariant |features| == |middles| == 2 - i
      invariant forall k :: 0 <= k < 2 - i ==> features[k] == middles[k] == Shape(channels, x[i + 1 + k].size)
      invariant lastInner.channels == channels
    {
      var innerLateral := KeepingConv(x[i], inChannels[i], channels, 1);
      var innerTopDown := Interpolate(lastInner, innerLateral.size);
      lastInner := Add(innerLateral, innerTopDown);
      features := [innerLateral] + features;
      middles := [lastInner] + middles;
      i := i - 1;
    }
  }

  method Outputs(middles: seq<Shape>, channels: nat) returns (results: seq<Shape>)
    requires |middles| == 3
    requires forall i :: 0 <= i < 3 ==> NonEmpty(middles[i].size) && middles[i].channels == channels
    ensures results == middles
  {
    results := [];
    var i := 0;
    while i < 3
      invariant 0 <= i <= 3 && results == middles[..i]
    {
      results := results + [KeepingConv(middles[i], channels, channels, 3)];
      i := i + 1;
    }
  }

  /** P3 to P7 from C3, C4 and C5; every sum of maps is of equal shapes. */
  method Pyramid(x: seq<Shape>, inChannels: seq<nat>, channels: nat) returns (results: seq<Shape>)
    requires |x| == |inChannels| == 3 && channels > 0
    requires forall i :: 0 <= i < 3 ==> NonEmpty(x[i].size) && x[i].channels == inChannels[i]
    ensures |results| == 5
    ensures forall i :: 0 <= i < 3 ==> results[i] == Shape(channels, x[i].size)
    ensures results[3] == Shape(channels, CeilSize(x[2].size, 2))
    ensures results[4] == Shape(channels, CeilSize(CeilSize(x[2].size, 2), 2))
  {
    var features, middles := TopDown(x, inChannels, channels);
    var p6 := HalvingConv(x[2], inChannels[2], channels);
    var p7 := HalvingConv(p6, channels, channels);
    var att5 := Attention(features[2], p6, channels, channels);
    var att4 := Attention(features[1], x[2], inChannels[2], channels);
    var att3 := Attention(features[0], x[1], inChannels[1], channels);
    middles := middles[2 := Add(middles[2], att5)];
    middles := middles[1 := Add(middles[1], att4)];
    middles := middles[0 := Add(middles[0], att3)];
    results := Outputs(middles, channels);
    results := results + [p6, p7];
  }
}
