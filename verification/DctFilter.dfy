/**
  models/FcaNet.py, `get_dct_filter`: the channels of a feature map are dealt out to frequencies, a run of
  equally many channels each. `build` stands for the cosine basis `build_filter(pos, freq, size)`.
*/
module DctFilter {
  import opened IntegerMath

  type Build = (nat, int, nat) -> real

  datatype Frequencies = Frequencies(xs: seq<int>, ys: seq<int>)

  /** What a channel of the filter should hold at (x, y). */
  function Entry(f: Frequencies, part: nat, build: Build, h: nat, w: nat, c: nat, x: nat, y: nat): real
  {
    if part > 0 && c / part < |f.xs| && c / part < |f.ys|
    then build(x, f.xs[c / part], h) * build(y, f.ys[c / part], w)
    else 0.0
  }

  /** The channels of frequency i are those from i part on, part of them. */
  lemma PartOf(i: nat, part: nat, c: nat)
    requires part > 0
    ensures c / part == i <==> i * part <= c < (i + 1) * part
  {
    if i * part <= c < (i + 1) * part {
      QuotientUnique(c, part, i, c - i * part);
    }
    assert c / part * part <= c < c / part * part + part;
  }

  /** Some channel is left at zero by the fill exactly if the frequencies do not divide the channels evenly. */
  lemma NoChannelLeft(n: nat, channel: nat)
    requires n > 0
    ensures (forall c: nat :: c < channel ==> channel / n > 0 && c / (channel / n) < n) <==> channel % n == 0
  {
    var part := channel / n;
    assert channel == n * part + channel % n;
    if channel % n != 0 {
      if part > 0 {
        PartBeyond(n * part, n, part);
        assert n * part < channel;
      } else {
        assert 0 < channel;
      }
    } else {
      forall c: nat | c < channel ensures part > 0 && c / part < n {
        PartBelow(c, n, part);
      }
    }
  }

  lemma PartBelow(c: nat, n: nat, part: nat)
    requires c < n * part
    ensures part > 0 && c / part < n
  {
    if c / part >= n { MulMonotone(n, c / part, part); }
  }

  /** The inner loops: one frequency's value for every position, in all of its channels. */
  method FillPart(filter: array3<real>, lo: nat, hi: nat, u: int, v: int, build: Build)
    requires lo <= hi <= filter.Length0
    modifies filter
    ensures forall c: nat, x: nat, y: nat :: c < filter.Length0 && x < filter.Length1 && y < filter.Length2 ==>
      filter[c, x, y] == if lo <= c < hi then build(x, u, filter.Length1) * build(y, v, filter.Length2)
                         else old(filter[c, x, y])
  {
    var h, w := filter.Length1, filter.Length2;
    for tx := 0 to h
      invariant forall c: nat, x: nat, y: nat :: c < filter.Length0 && x < h && y < w ==>
        filter[c, x, y] == if lo <= c < hi && x < tx then build(x, u, h) * build(y, v, w) else old(filter[c, x, y])
    {
      for ty := 0 to w
        invariant forall c: nat, x: nat, y: nat :: c < filter.Length0 && x < h && y < w ==>
          filter[c, x, y] == if lo <= c < hi && (x < tx || (x == tx && y < ty)) then build(x, u, h) * build(y, v, w)
                             else old(filter[c, x, y])
      {
        var value := build(tx, u, h) * build(ty, v, w);
        forall c | lo <= c < hi { filter[c, tx, ty] := value; }
      }
    }
  }

  method GetDctFilter(h: nat, w: nat, f: Frequencies, channel: nat, build: Build) returns (filter: array3<real>)
    requires |f.xs| == |f.ys| > 0
    ensures fresh(filter) && filter.Length0 == channel && filter.Length1 == h && filter.Length2 == w
    ensures forall c: nat, x: nat, y: nat :: c < channel && x < h && y < w ==>
      filter[c, x, y] == Entry(f, channel / |f.xs|, build, h, w, c, x, y)
  {
    filter := new real[channel, h, w]((c, x, y) => 0.0);
    var part := channel / |f.xs|;
    ghost var owner := Owners(channel, part, |f.xs|);
    for i := 0 to |f.xs|
      invariant forall c: nat, x: nat, y: nat :: c < channel && x < h && y < w ==>
        filter[c, x, y] == if owner[c] < i then build(x, f.xs[owner[c]], h) * build(y, f.ys[owner[c]], w) else 0.0
    {
      PartEnds(i, part, |f.xs|, channel);
      OwnersOf(channel, part, |f.xs|, i);
      FillPart(filter, i * part, (i + 1) * part, f.xs[i], f.ys[i], build);
    }
    forall c: nat, x: nat, y: nat | c < channel && x < h && y < w
      ensures filter[c, x, y] == Entry(f, part, build, h, w, c, x, y)
    {
      assert owner[c] < |f.xs| <==> part > 0 && c / part < |f.xs|;
    }
  }

  /** The frequency every channel belongs to, or n if it belongs to none. */
  ghost function Owners(channel: nat, part: nat, n: nat): (owner: seq<nat>)
    ensures |owner| == channel
    ensures forall c :: 0 <= c < channel ==> owner[c] == if part > 0 && c / part < n then c / part else n
  {
    seq(channel, c requires 0 <= c => if part > 0 && c / part < n then c / part else n)
  }

  lemma OwnersOf(channel: nat, part: nat, n: nat, i: nat)
    requires i < n
    ensures forall c :: 0 <= c < channel ==> (Owners(channel, part, n)[c] == i <==> i * part <= c < (i + 1) * part)
  {
    forall c: nat | c < channel ensures Owners(channel, part, n)[c] == i <==> i * part <= c < (i + 1) * part {
      if part > 0 { PartOf(i, part, c); }
    }
  }

  lemma PartEnds(i: nat, part: nat, n: nat, channel: nat)
    requires i < n && part == channel / n
    ensures i * part <= (i + 1) * part <= channel
  {
    MulMonotone(i, i + 1, part);
    MulMonotone(i + 1, n, part);
    assert n * part <= channel;
  }

  lemma PartBeyond(c: nat, n: nat, part: nat)
    requires c >= n * part
    ensures part == 0 || c / part >= n
  {
    if part > 0 && c / part < n {
      MulMonotone(c / part + 1, n, part);
    }
  }
}
