/**
  Resolving which way the ship goes: utils/wavelength.py (`correct_heading_by_cc_topk_vote`) and
  utils/utils.py (`resolve_heading_by_first_last`, `resolve_heading_by_midline_majority`). All three
  start from an edge of the box whose direction is arbitrary, so what matters is whether the answer is
  the same for the edge u and for -u. The Euclidean norm is a parameter.
*/
module Heading {
  import opened Options
  import opened Ordering
  import opened Rounding
  import opened Flip

  datatype Vec = Vec(x: real, y: real) {
    function Neg(): Vec { Vec(-x, -y) }
    function Dot(o: Vec): real { x * o.x + y * o.y }
    function Over(d: real): Vec
      requires d != 0.0
    {
      Vec(x / d, y / d)
    }
  }

  ghost predicate IsNorm(norm: Vec -> real)
  {
    forall v: Vec :: norm(v) >= 0.0 && norm(v.Neg()) == norm(v)
  }

  /** A connected component: its pixel count and its centroid. */
  datatype Blob = Blob(area: int, c: Vec)

  function Large(blobs: seq<Blob>, minArea: int): seq<Blob>
  {
    if blobs == [] then [] else (if blobs[0].area >= minArea then [blobs[0]] else []) + Large(blobs[1..], minArea)
  }

  // ---------- voting against the largest component ----------

  datatype Vote = Pos | Neg | Skip {
    function Opposite(): Vote { match this case Pos => Vote.Neg case Neg => Vote.Pos case Skip => Skip }
  }

  function VoteOf(blob: Blob, base: Blob, v: Vec, dotEps: real, norm: Vec -> real): Vote
    requires norm(v) >= 0.0
  {
    var away := Vec(blob.c.x - base.c.x, blob.c.y - base.c.y);
    var nrm := norm(away);
    if nrm < 0.000001 then Skip
    else
      var dot := away.Over(nrm + 0.000000001).Dot(v.Over(norm(v) + 0.000000001));
      if dot >= dotEps then Vote.Pos else if dot <= -dotEps then Vote.Neg else Skip
  }

  function Count(blobs: seq<Blob>, base: Blob, v: Vec, dotEps: real, norm: Vec -> real, kind: Vote): nat
    requires norm(v) >= 0.0
  {
    if blobs == [] then 0
    else
      var vote := VoteOf(blobs[|blobs| - 1], base, v, dotEps, norm);
      Count(blobs[..|blobs| - 1], base, v, dotEps, norm, kind) + if vote == kind then 1 else 0
  }

  /** The components that take part: the largest first, at most topK of them. */
  function Voters(blobs: seq<Blob>, minArea: int, topK: nat): seq<Blob>
  {
    var ranked := SortBy(Large(blobs, minArea), (b: Blob) => -(b.area as real));
    ranked[..Min(topK, |ranked|)]
  }

  /** The component the others are compared with is the largest that passes the filter. */
  lemma BaseIsLargest(blobs: seq<Blob>, minArea: int, topK: nat, b: Blob)
    requires topK >= 1 && b in Large(blobs, minArea)
    ensures Voters(blobs, minArea, topK) != [] && Voters(blobs, minArea, topK)[0].area >= b.area
  {
    var key := (b: Blob) => -(b.area as real);
    var large := Large(blobs, minArea);
    SortBySorts(large, key);
    assert b in multiset(SortBy(large, key));
    var k :| 0 <= k < |SortBy(large, key)| && SortBy(large, key)[k] == b;
    assert k > 0 ==> key(SortBy(large, key)[0]) <= key(SortBy(large, key)[k]);
  }

  /** Python's `%` on floats. */
  function Mod360(a: real): real { a - 360.0 * (a / 360.0).Floor as real }

  ghost predicate SameHeading(a: real, b: real) { Congruent(a, b, 180.0) }

  datatype Tally = Tally(pos: nat, neg: nat, skipped: nat)

  function TallyOf(blobs: seq<Blob>, v: Vec, minArea: int, topK: nat, dotEps: real, norm: Vec -> real): Tally
    requires norm(v) >= 0.0
  {
    var comps := Voters(blobs, minArea, topK);
    if |comps| < 2 then Tally(0, 0, 0)
    else
      Tally(Count(comps[1..], comps[0], v, dotEps, norm, Vote.Pos),
            Count(comps[1..], comps[0], v, dotEps, norm, Vote.Neg),
            Count(comps[1..], comps[0], v, dotEps, norm, Skip))
  }

  function Corrected(t: Tally, headingDeg: real): real
  {
    if t.neg > t.pos then Mod360(headingDeg + 180.0) else headingDeg
  }

  method CountVotes(rest: seq<Blob>, base: Blob, v: Vec, dotEps: real, norm: Vec -> real)
    returns (votesPos: nat, votesNeg: nat, skipped: nat)
    requires norm(v) >= 0.0
    ensures votesPos == Count(rest, base, v, dotEps, norm, Vote.Pos)
    ensures votesNeg == Count(rest, base, v, dotEps, norm, Vote.Neg)
    ensures skipped == Count(rest, base, v, dotEps, norm, Skip)
    ensures votesPos + votesNeg + skipped == |rest|
  {
    votesPos, votesNeg, skipped := 0, 0, 0;
    for i := 0 to |rest|
      invariant votesPos == Count(rest[..i], base, v, dotEps, norm, Vote.Pos)
      invariant votesNeg == Count(rest[..i], base, v, dotEps, norm, Vote.Neg)
      invariant skipped == Count(rest[..i], base, v, dotEps, norm, Skip)
      invariant votesPos + votesNeg + skipped == i
    {
      assert rest[..i + 1][..i] == rest[..i];
      match VoteOf(rest[i], base, v, dotEps, norm)
      case Pos => votesPos := votesPos + 1;
      case Neg => votesNeg := votesNeg + 1;
      case Skip => skipped := skipped + 1;
    }
    assert rest[..|rest|] == rest;
  }

  method KeepLarge(blobs: seq<Blob>, minCcArea: int) returns (comps: seq<Blob>)
    ensures comps == Large(blobs, minCcArea)
  {
    comps := [];
    for lab := 0 to |blobs|
      invariant comps + Large(blobs[lab..], minCcArea) == Large(blobs, minCcArea)
    {
      assert blobs[lab..][1..] == blobs[lab + 1..];
      if blobs[lab].area >= minCcArea {
        comps := comps + [blobs[lab]];
      }
    }
  }

  method CorrectHeading(blobs: seq<Blob>, v: Vec, headingDeg: real, topK: nat, minCcArea: int, dotEps: real,
                        norm: Vec -> real)
    returns (headingCorr: real, flipped: bool, tally: Tally)
    requires IsNorm(norm) && topK >= 1
    ensures var t := TallyOf(blobs, v, minCcArea, topK, dotEps, norm);
            && headingCorr == Corrected(t, headingDeg) && (flipped <==> t.neg > t.pos) && tally == t
    ensures var voters := |Voters(blobs, minCcArea, topK)|;
            tally.pos + tally.neg + tally.skipped == if voters < 2 then 0 else voters - 1
    ensures IsTally(tally, Voters(blobs, minCcArea, topK), v, dotEps, norm)
    ensures if flipped then IsTurned(headingCorr, headingDeg) else headingCorr == headingDeg
  {
    TallyMeans(blobs, v, minCcArea, topK, dotEps, norm);
    CorrectedMeans(TallyOf(blobs, v, minCcArea, topK, dotEps, norm), headingDeg);
    var comps := KeepLarge(blobs, minCcArea);
    if |comps| < 2 {
      return headingDeg, false, Tally(0, 0, 0);
    }
    comps := SortBy(comps, (b: Blob) => -(b.area as real));
    comps := comps[..Min(topK, |comps|)];
    var votesPos, votesNeg, skipped := CountVotes(comps[1..], comps[0], v, dotEps, norm);
    tally := Tally(votesPos, votesNeg, skipped);
    if votesPos + votesNeg == 0 {
      return headingDeg, false, tally;
    }
    flipped := votesNeg > votesPos;
    headingCorr := if flipped then Mod360(headingDeg + 180.0) else headingDeg;
  }

  // ---------- what a vote means ----------

  /** b lies from a along v: not at the same place, and with a cosine of at least eps to v, as the code computes it. */
  predicate LiesAlong(a: Vec, b: Vec, v: Vec, eps: real, norm: Vec -> real)
  {
    var d := Vec(b.x - a.x, b.y - a.y);
    norm(d) >= 0.000001 && d.x * v.x + d.y * v.y >= eps * ((norm(d) + 0.000000001) * (norm(v) + 0.000000001))
  }

  /** b lies from a against v: with a cosine of at most -eps. */
  predicate LiesAgainst(a: Vec, b: Vec, v: Vec, eps: real, norm: Vec -> real)
  {
    var d := Vec(b.x - a.x, b.y - a.y);
    norm(d) >= 0.000001 && d.x * v.x + d.y * v.y <= -eps * ((norm(d) + 0.000000001) * (norm(v) + 0.000000001))
  }

  lemma QuotientProduct(a: real, b: real, m: real, n: real)
    requires m > 0.0 && n > 0.0
    ensures a / m * (b / n) * (m * n) == a * b
  {
    TimesQuotient(a, m);
    TimesQuotient(b, n);
    var p, q := a / m, b / n;
    assert p * q * (m * n) == p * m * (q * n);
  }

  lemma TimesQuotient(a: real, m: real)
    requires m > 0.0
    ensures a / m * m == a
  {
  }

  lemma CompareScaled(x: real, bound: real, m: real)
    requires m > 0.0
    ensures x >= bound <==> x * m >= bound * m
    ensures x <= bound <==> x * m <= bound * m
  {
    if x < bound { assert (bound - x) * m > 0.0; }
    if x > bound { assert (x - bound) * m > 0.0; }
  }

  /** The dot product of the shortened vectors against a bound. */
  lemma ShortenedDot(d: Vec, v: Vec, m: real, n: real, eps: real)
    requires m > 0.0 && n > 0.0
    ensures d.Over(m).Dot(v.Over(n)) >= eps <==> d.x * v.x + d.y * v.y >= eps * (m * n)
    ensures d.Over(m).Dot(v.Over(n)) <= eps <==> d.x * v.x + d.y * v.y <= eps * (m * n)
  {
    QuotientProduct(d.x, v.x, m, n);
    QuotientProduct(d.y, v.y, m, n);
    var x, y, scale := d.x / m * (v.x / n), d.y / m * (v.y / n), m * n;
    assert scale > 0.0;
    assert (x + y) * scale == x * scale + y * scale;
    CompareScaled(x + y, eps, scale);
  }

  /** Which way a vote points. */
  lemma VoteMeans(blob: Blob, base: Blob, v: Vec, dotEps: real, norm: Vec -> real)
    requires IsNorm(norm)
    ensures VoteOf(blob, base, v, dotEps, norm) == Vote.Pos <==> LiesAlong(base.c, blob.c, v, dotEps, norm)
    ensures VoteOf(blob, base, v, dotEps, norm) == Vote.Neg
       <==> LiesAgainst(base.c, blob.c, v, dotEps, norm) && !LiesAlong(base.c, blob.c, v, dotEps, norm)
  {
    var d := Vec(blob.c.x - base.c.x, blob.c.y - base.c.y);
    assert norm(d) >= 0.0 && norm(v) >= 0.0;
    ShortenedDot(d, v, norm(d) + 0.000000001, norm(v) + 0.000000001, dotEps);
    ShortenedDot(d, v, norm(d) + 0.000000001, norm(v) + 0.000000001, -dotEps);
  }

  /** How many of the first n voters lie from the base, which is the first, along v, and how many against v. */
  ghost function CountAlong(voters: seq<Blob>, n: nat, v: Vec, eps: real, norm: Vec -> real): nat
    requires 1 <= n <= |voters|
  {
    if n == 1 then 0
    else
      CountAlong(voters, n - 1, v, eps, norm) + if LiesAlong(voters[0].c, voters[n - 1].c, v, eps, norm) then 1 else 0
  }

  ghost function CountAgainst(voters: seq<Blob>, n: nat, v: Vec, eps: real, norm: Vec -> real): nat
    requires 1 <= n <= |voters|
  {
    if n == 1 then 0
    else
      CountAgainst(voters, n - 1, v, eps, norm)
      + if LiesAgainst(voters[0].c, voters[n - 1].c, v, eps, norm)
           && !LiesAlong(voters[0].c, voters[n - 1].c, v, eps, norm) then 1 else 0
  }

  lemma {:induction false} CountMeans(voters: seq<Blob>, n: nat, v: Vec, eps: real, norm: Vec -> real)
    requires IsNorm(norm) && norm(v) >= 0.0 && 1 <= n <= |voters|
    ensures Count(voters[1..n], voters[0], v, eps, norm, Vote.Pos) == CountAlong(voters, n, v, eps, norm)
    ensures Count(voters[1..n], voters[0], v, eps, norm, Vote.Neg) == CountAgainst(voters, n, v, eps, norm)
  {
    if n > 1 {
      CountMeans(voters, n - 1, v, eps, norm);
      CountSnoc(voters[1..n - 1], voters[n - 1], voters[1..n], voters[0], v, eps, norm, Vote.Pos);
      CountSnoc(voters[1..n - 1], voters[n - 1], voters[1..n], voters[0], v, eps, norm, Vote.Neg);
      VoteMeans(voters[n - 1], voters[0], v, eps, norm);
    }
  }

  lemma CountSnoc(rest: seq<Blob>, b: Blob, more: seq<Blob>, base: Blob, v: Vec, eps: real, norm: Vec -> real,
                  kind: Vote)
    requires norm(v) >= 0.0 && more == rest + [b]
    ensures Count(more, base, v, eps, norm, kind)
         == Count(rest, base, v, eps, norm, kind) + if VoteOf(b, base, v, eps, norm) == kind then 1 else 0
  {
    assert more[..|more| - 1] == rest;
  }

  ghost predicate IsTally(t: Tally, voters: seq<Blob>, v: Vec, eps: real, norm: Vec -> real)
  {
    if |voters| < 2 then t.pos == t.neg == 0
    else t.pos == CountAlong(voters, |voters|, v, eps, norm) && t.neg == CountAgainst(voters, |voters|, v, eps, norm)
  }

  /** The votes are the numbers of voters that lie along v and against it. */
  lemma TallyMeans(blobs: seq<Blob>, v: Vec, minArea: int, topK: nat, eps: real, norm: Vec -> real)
    requires IsNorm(norm) && norm(v) >= 0.0
    ensures IsTally(TallyOf(blobs, v, minArea, topK, eps, norm), Voters(blobs, minArea, topK), v, eps, norm)
  {
    var voters := Voters(blobs, minArea, topK);
    if |voters| >= 2 {
      assert voters[1..|voters|] == voters[1..];
      CountMeans(voters, |voters|, v, eps, norm);
    }
  }

  /** Turned by half a turn, to a heading from 0 up to 360. */
  ghost predicate IsTurned(turned: real, heading: real)
  {
    0.0 <= turned < 360.0 && SameHeading(turned, heading + 180.0)
  }

  lemma ModTurns(heading: real)
    ensures IsTurned(Mod360(heading + 180.0), heading)
  {
    assert ApartBy(Mod360(heading + 180.0), heading + 180.0, 180.0, -((heading + 180.0) / 360.0).Floor);
  }

  lemma CorrectedMeans(t: Tally, heading: real)
    ensures if t.neg > t.pos then IsTurned(Corrected(t, heading), heading) else Corrected(t, heading) == heading
  {
    ModTurns(heading);
  }

  /** All voters along v leave the heading as it is, all against it turn it. */
  lemma UnanimousVote(blobs: seq<Blob>, v: Vec, headingDeg: real, minArea: int, topK: nat, eps: real,
                      norm: Vec -> real)
    requires IsNorm(norm) && norm(v) >= 0.0 && eps > 0.0 && |Voters(blobs, minArea, topK)| >= 2
    ensures var voters, t := Voters(blobs, minArea, topK), TallyOf(blobs, v, minArea, topK, eps, norm);
            && (AllAlong(voters, v, eps, norm) ==> Corrected(t, headingDeg) == headingDeg)
            && (AllAgainst(voters, v, eps, norm) ==> IsTurned(Corrected(t, headingDeg), headingDeg))
  {
    var voters := Voters(blobs, minArea, topK);
    TallyMeans(blobs, v, minArea, topK, eps, norm);
    ModTurns(headingDeg);
    if AllAlong(voters, v, eps, norm) { CountIfAll(voters, |voters|, v, eps, norm); }
    if AllAgainst(voters, v, eps, norm) { CountIfAll(voters, |voters|, v, eps, norm); }
  }

  ghost predicate AllAlong(voters: seq<Blob>, v: Vec, eps: real, norm: Vec -> real)
  {
    forall i :: 1 <= i < |voters| ==> LiesAlong(voters[0].c, voters[i].c, v, eps, norm)
  }

  ghost predicate AllAgainst(voters: seq<Blob>, v: Vec, eps: real, norm: Vec -> real)
  {
    forall i :: 1 <= i < |voters| ==> LiesAgainst(voters[0].c, voters[i].c, v, eps, norm)
  }

  lemma {:induction false} CountIfAll(voters: seq<Blob>, n: nat, v: Vec, eps: real, norm: Vec -> real)
    requires IsNorm(norm) && eps > 0.0 && 1 <= n <= |voters|
    ensures AllAlong(voters, v, eps, norm) ==> CountAgainst(voters, n, v, eps, norm) == 0
    ensures AllAgainst(voters, v, eps, norm) ==>
      CountAlong(voters, n, v, eps, norm) == 0 && CountAgainst(voters, n, v, eps, norm) == n - 1
  {
    if n > 1 {
      CountIfAll(voters, n - 1, v, eps, norm);
      NotBoth(voters[0].c, voters[n - 1].c, v, eps, norm);
    }
  }

  lemma NotBoth(a: Vec, b: Vec, v: Vec, eps: real, norm: Vec -> real)
    requires IsNorm(norm) && eps > 0.0
    ensures !(LiesAlong(a, b, v, eps, norm) && LiesAgainst(a, b, v, eps, norm))
  {
    var d := Vec(b.x - a.x, b.y - a.y);
    assert norm(d) >= 0.0 && norm(v) >= 0.0;
    var scale := (norm(d) + 0.000000001) * (norm(v) + 0.000000001);
    assert scale > 0.0;
    assert eps * scale > 0.0 && -eps * scale == -(eps * scale);
  }

  ghost predicate IsFalling(s: seq<Blob>) { forall i, j :: 0 <= i < j < |s| ==> s[i].area >= s[j].area }

  /** The top ones are among all, and none of the others is larger. */
  ghost predicate AreLargestOf(top: seq<Blob>, all: multiset<Blob>)
  {
    && multiset(top) <= all
    && forall i, b :: 0 <= i < |top| && b in all - multiset(top) ==> top[i].area >= b.area
  }

  /** The voters are the largest components that pass the filter, in falling order of size. */
  lemma VotersAreLargest(blobs: seq<Blob>, minArea: int, topK: nat)
    ensures var voters, large := Voters(blobs, minArea, topK), Large(blobs, minArea);
            |voters| == Min(topK, |large|) && IsFalling(voters) && AreLargestOf(voters, multiset(large))
  {
    var key := (b: Blob) => -(b.area as real);
    var large := Large(blobs, minArea);
    var ranked := SortBy(large, key);
    SortBySorts(large, key);
    RankedFalls(ranked, key);
    PrefixIsLargest(ranked, Min(topK, |ranked|));
  }

  lemma RankedFalls(ranked: seq<Blob>, key: Blob -> real)
    requires Ascending(ranked, key) && forall b :: key(b) == -(b.area as real)
    ensures IsFalling(ranked)
  {
    forall i, j | 0 <= i < j < |ranked| ensures ranked[i].area >= ranked[j].area {
      assert key(ranked[i]) <= key(ranked[j]);
    }
  }

  lemma PrefixIsLargest(ranked: seq<Blob>, n: nat)
    requires n <= |ranked| && IsFalling(ranked)
    ensures IsFalling(ranked[..n]) && AreLargestOf(ranked[..n], multiset(ranked))
  {
    var top, rest := ranked[..n], ranked[n..];
    assert ranked == top + rest;
    forall i: int, b: Blob | 0 <= i < n && b in multiset(rest) ensures top[i].area >= b.area {
      var k :| 0 <= k < |rest| && rest[k] == b;
      assert rest[k] == ranked[n + k];
    }
    TopAmong(top, rest);
  }

  lemma TopAmong(top: seq<Blob>, rest: seq<Blob>)
    requires forall i: int, b: Blob :: 0 <= i < |top| && b in multiset(rest) ==> top[i].area >= b.area
    ensures AreLargestOf(top, multiset(top + rest))
  {
    assert multiset(top + rest) - multiset(top) == multiset(rest);
  }

  /** Large enough components, and no others, pass the filter. */
  lemma {:induction false} LargeMeans(blobs: seq<Blob>, minArea: int)
    ensures forall b :: multiset(Large(blobs, minArea))[b] == if b.area >= minArea then multiset(blobs)[b] else 0
  {
    if blobs != [] {
      LargeMeans(blobs[1..], minArea);
      assert blobs == [blobs[0]] + blobs[1..];
    }
  }

  // ---------- the two directions of the edge ----------

  lemma VoteSwaps(blob: Blob, base: Blob, v: Vec, dotEps: real, norm: Vec -> real)
    requires IsNorm(norm) && dotEps > 0.0
    ensures VoteOf(blob, base, v.Neg(), dotEps, norm) == VoteOf(blob, base, v, dotEps, norm).Opposite()
  {
    var away := Vec(blob.c.x - base.c.x, blob.c.y - base.c.y);
    assert norm(away) >= 0.0 && norm(v) >= 0.0 && norm(v.Neg()) == norm(v);
    var a, u := away.Over(norm(away) + 0.000000001), v.Over(norm(v) + 0.000000001);
    NegatedOver(v, norm(v) + 0.000000001);
    NegatedDot(a, u);
  }

  lemma NegatedOver(v: Vec, d: real)
    requires d > 0.0
    ensures v.Neg().Over(d) == v.Over(d).Neg()
  {
  }

  lemma NegatedDot(a: Vec, u: Vec)
    ensures a.Dot(u.Neg()) == -a.Dot(u)
  {
  }

  lemma {:induction false} CountSwaps(blobs: seq<Blob>, base: Blob, v: Vec, dotEps: real, norm: Vec -> real, kind: Vote)
    requires IsNorm(norm) && dotEps > 0.0
    ensures Count(blobs, base, v.Neg(), dotEps, norm, kind) == Count(blobs, base, v, dotEps, norm, kind.Opposite())
  {
    if blobs != [] {
      CountSwaps(blobs[..|blobs| - 1], base, v, dotEps, norm, kind);
      VoteSwaps(blobs[|blobs| - 1], base, v, dotEps, norm);
    }
  }

  lemma TallySwaps(blobs: seq<Blob>, v: Vec, minArea: int, topK: nat, dotEps: real, norm: Vec -> real)
    requires IsNorm(norm) && dotEps > 0.0
    ensures var t := TallyOf(blobs, v, minArea, topK, dotEps, norm);
            TallyOf(blobs, v.Neg(), minArea, topK, dotEps, norm) == Tally(t.neg, t.pos, t.skipped)
  {
    var comps := Voters(blobs, minArea, topK);
    if |comps| >= 2 {
      CountSwaps(comps[1..], comps[0], v, dotEps, norm, Vote.Pos);
      CountSwaps(comps[1..], comps[0], v, dotEps, norm, Vote.Neg);
      CountSwaps(comps[1..], comps[0], v, dotEps, norm, Skip);
    }
  }

  lemma HalfTurnDiffers(a: real)
    ensures SameHeading(Mod360(a), a) && !SameHeading(a, a + 180.0) && !SameHeading(Mod360(a), a + 180.0)
  {
    var turns := (a / 360.0).Floor;
    assert ApartBy(Mod360(a), a, 180.0, -turns);
    NotHalfATurnOff(a, a + 180.0, 0);
    NotHalfATurnOff(Mod360(a), a + 180.0, turns);
  }

  lemma NotHalfATurnOff(a: real, b: real, turns: int)
    requires b == a + 360.0 * turns as real + 180.0
    ensures !SameHeading(a, b)
  {
    forall k ensures !ApartBy(a, b, 180.0, k) {
    }
  }

  /** The corrected heading does not depend on which way the edge points, exactly when the vote is not tied. */
  lemma VoteIgnoresEdgeDirection(blobs: seq<Blob>, v: Vec, headingDeg: real, minArea: int, topK: nat, dotEps: real,
                                 norm: Vec -> real)
    requires IsNorm(norm) && dotEps > 0.0
    ensures var t := TallyOf(blobs, v, minArea, topK, dotEps, norm);
            var t' := TallyOf(blobs, v.Neg(), minArea, topK, dotEps, norm);
            SameHeading(Corrected(t, headingDeg), Corrected(t', headingDeg + 180.0)) <==> t.pos != t.neg
  {
    TallySwaps(blobs, v, minArea, topK, dotEps, norm);
    var h := headingDeg;
    HalfTurnDiffers(h);
    HalfTurnDiffers(h + 180.0);
    TurnedRound(h);
  }

  lemma TurnedRound(h: real)
    ensures SameHeading(h, Mod360(h + 180.0 + 180.0))
    ensures SameHeading(Mod360(h + 180.0), h + 180.0)
  {
    assert ApartBy(h, Mod360(h + 180.0 + 180.0), 180.0, ((h + 180.0 + 180.0) / 360.0).Floor - 1);
    assert ApartBy(Mod360(h + 180.0), h + 180.0, 180.0, -((h + 180.0) / 360.0).Floor);
  }

  // ---------- nearest and farthest component on the fuller side ----------

  /** A component's area and its signed distance from the ship along the edge. */
  datatype Projected = Projected(area: int, s: real)

  /** What the code keeps of it. */
  datatype Item = Item(area: int, absS: real)

  function Along(b: Blob, ship: Vec, u: Vec): real { Vec(b.c.x - ship.x, b.c.y - ship.y).Dot(u) }

  function Project(comps: seq<Blob>, ship: Vec, u: Vec): (ps: seq<Projected>)
    ensures |ps| == |comps|
  {
    seq(|comps|, i requires 0 <= i < |comps| => Projected(comps[i].area, Along(comps[i], ship, u)))
  }

  /** Where a component lies: in front of the ship along the edge, level with it, or behind. */
  datatype Place = Front | Level | Rear {
    function Mirror(): Place { match this case Front => Rear case Level => Level case Rear => Front }
  }

  function PlaceOf(s: real): Place { if s > 0.0 then Front else if s == 0.0 then Level else Rear }

  /** Some of the places. */
  datatype Zone = Zone(front: bool, level: bool, rear: bool) {
    predicate Has(p: Place) { match p case Front => front case Level => level case Rear => rear }
    function Mirror(): Zone { Zone(rear, level, front) }
  }

  const FRONT := Zone(true, false, false)
  const FRONT_OR_LEVEL := Zone(true, true, false)
  const LEVEL := Zone(false, true, false)
  const REAR_OR_LEVEL := Zone(false, true, true)
  const REAR := Zone(false, false, true)

  function Items(ps: seq<Projected>, zone: Zone): seq<Item>
  {
    if ps == [] then []
    else
      var last := ps[|ps| - 1];
      Items(ps[..|ps| - 1], zone) + if zone.Has(PlaceOf(last.s)) then [Item(last.area, AbsReal(last.s))] else []
  }

  /** The code's two sides: a component level with the ship counts as ahead. */
  function Side(ps: seq<Projected>, ahead: bool): seq<Item> { Items(ps, if ahead then FRONT_OR_LEVEL else REAR) }

  function SumAreas(items: seq<Item>): int
  {
    if items == [] then 0 else SumAreas(items[..|items| - 1]) + items[|items| - 1].area
  }

  function Area(ps: seq<Projected>, zone: Zone): int { SumAreas(Items(ps, zone)) }

  /** Is the nearest component of a side at least as large as its farthest? */
  predicate NearIsLarger(items: seq<Item>)
    requires items != []
  {
    var sorted := SortBy(items, (x: Item) => x.absS);
    sorted[0].area >= sorted[|sorted| - 1].area
  }

  function FirstLast(ps: seq<Projected>, u: Vec): Option<Vec>
  {
    var ahead, behind := Side(ps, true), Side(ps, false);
    var wake := if SumAreas(ahead) >= SumAreas(behind) then ahead else behind;
    var dir := if SumAreas(ahead) >= SumAreas(behind) then u else u.Neg();
    if wake == [] then None else Some(if NearIsLarger(wake) then dir else dir.Neg())
  }

  /** The nearest component of a side, the first of them if several are equally near. */
  ghost predicate IsNearest(items: seq<Item>, i: nat)
  {
    i < |items| && forall j: nat :: j < |items| ==>
      items[i].absS < items[j].absS || (items[i].absS == items[j].absS && i <= j)
  }

  /** The farthest, the last of them if several are equally far. */
  ghost predicate IsFarthest(items: seq<Item>, i: nat)
  {
    i < |items| && forall j: nat :: j < |items| ==>
      items[j].absS < items[i].absS || (items[j].absS == items[i].absS && j <= i)
  }

  /**
    The promised rule: on the side with more pixels, from the larger of the nearest and the farthest component
    to the smaller.
  */
  ghost predicate IsResolved(ps: seq<Projected>, u: Vec, v: Option<Vec>)
  {
    var onAhead := Area(ps, FRONT) + Area(ps, LEVEL) >= Area(ps, REAR);
    var wake := Items(ps, if onAhead then FRONT_OR_LEVEL else REAR);
    if wake == [] then v == None
    else exists near: nat, far: nat ::
           && IsNearest(wake, near) && IsFarthest(wake, far)
           && v == Some(if (wake[near].area >= wake[far].area) == onAhead then u else u.Neg())
  }

  lemma NearestAgainstFarthest(items: seq<Item>) returns (near: nat, far: nat)
    requires items != []
    ensures IsNearest(items, near) && IsFarthest(items, far)
    ensures NearIsLarger(items) <==> items[near].area >= items[far].area
  {
    var key := (x: Item) => x.absS;
    near := SortHead(items, key);
    far := SortLast(items, key);
    forall j: nat | j < |items|
      ensures items[near].absS < items[j].absS || (items[near].absS == items[j].absS && near <= j)
      ensures items[j].absS < items[far].absS || (items[j].absS == items[far].absS && j <= far)
    {
      assert key(items[near]) < key(items[j]) || (key(items[near]) == key(items[j]) && near <= j);
      assert key(items[j]) < key(items[far]) || (key(items[j]) == key(items[far]) && j <= far);
    }
  }

  lemma FirstLastResolves(ps: seq<Projected>, u: Vec)
    ensures IsResolved(ps, u, FirstLast(ps, u))
  {
    AreasAdd(ps);
    assert u.Neg().Neg() == u;
    var wake := if SumAreas(Side(ps, true)) >= SumAreas(Side(ps, false)) then Side(ps, true) else Side(ps, false);
    if wake != [] { var near, far := NearestAgainstFarthest(wake); }
  }

  lemma {:induction false} AreasAdd(ps: seq<Projected>)
    ensures Area(ps, FRONT_OR_LEVEL) == Area(ps, FRONT) + Area(ps, LEVEL)
    ensures Area(ps, REAR_OR_LEVEL) == Area(ps, REAR) + Area(ps, LEVEL)
  {
    if ps != [] {
      var n := |ps| - 1;
      AreasAdd(ps[..n]);
      AreaNext(ps, FRONT_OR_LEVEL);
      AreaNext(ps, REAR_OR_LEVEL);
      AreaNext(ps, FRONT);
      AreaNext(ps, LEVEL);
      AreaNext(ps, REAR);
    }
  }

  lemma AreaNext(ps: seq<Projected>, zone: Zone)
    requires ps != []
    ensures var last := ps[|ps| - 1];
            Area(ps, zone) == Area(ps[..|ps| - 1], zone) + if zone.Has(PlaceOf(last.s)) then last.area else 0
  {
    SumSnoc(Items(ps[..|ps| - 1], zone), Item(ps[|ps| - 1].area, AbsReal(ps[|ps| - 1].s)));
  }

  lemma SumSnoc(items: seq<Item>, x: Item)
    ensures SumAreas(items + [x]) == SumAreas(items) + x.area && SumAreas(items + []) == SumAreas(items)
  {
    assert (items + [x])[..|items|] == items && items + [] == items;
  }

  method ResolveByFirstLast(blobs: seq<Blob>, ship: Vec, u: Vec, minArea: int) returns (v: Option<Vec>)
    ensures IsResolved(Project(Large(blobs, minArea), ship, u), u, v)
    ensures v == FirstLast(Project(Large(blobs, minArea), ship, u), u)
  {
    var comps := Large(blobs, minArea);
    var ps := Project(comps, ship, u);
    v := FirstLastOf(ps, u);
    FirstLastResolves(ps, u);
  }

  method FirstLastOf(ps: seq<Projected>, u: Vec) returns (v: Option<Vec>)
    ensures v == FirstLast(ps, u)
  {
    var sidePos, sideNeg := SplitSides(ps);
    if sidePos == [] && sideNeg == [] {
      return None;
    }
    var sumPos, sumNeg := SumAreas(sidePos), SumAreas(sideNeg);
    var wakeSide, sign := sidePos, u;
    if sumPos < sumNeg {
      wakeSide, sign := sideNeg, u.Neg();
    }
    if wakeSide == [] {
      return None;
    }
    wakeSide := SortBy(wakeSide, (x: Item) => x.absS);
    v := Some(if wakeSide[0].area >= wakeSide[|wakeSide| - 1].area then sign else sign.Neg());
  }

  method SplitSides(ps: seq<Projected>) returns (sidePos: seq<Item>, sideNeg: seq<Item>)
    ensures sidePos == Side(ps, true) && sideNeg == Side(ps, false)
  {
    sidePos, sideNeg := [], [];
    for i := 0 to |ps|
      invariant sidePos == Side(ps[..i], true) && sideNeg == Side(ps[..i], false)
    {
      assert ps[..i + 1][..i] == ps[..i];
      var item := Item(ps[i].area, AbsReal(ps[i].s));
      if ps[i].s >= 0.0 {
        sidePos := sidePos + [item];
      } else {
        sideNeg := sideNeg + [item];
      }
    }
    assert ps[..|ps|] == ps;
  }

  // ---------- all components on one side ----------

  /** How far a component lies from the ship in the direction of u. */
  function Ahead(b: Blob, ship: Vec, u: Vec): real { (b.c.x - ship.x) * u.x + (b.c.y - ship.y) * u.y }

  /** The first of the components nearest to the ship, counted in the direction of u. */
  ghost predicate IsFirstNearest(comps: seq<Blob>, ship: Vec, u: Vec, k: nat)
  {
    k < |comps| && forall j: nat :: j < |comps| ==>
      Ahead(comps[k], ship, u) < Ahead(comps[j], ship, u)
      || (Ahead(comps[k], ship, u) == Ahead(comps[j], ship, u) && k <= j)
  }

  /** The last of the farthest. */
  ghost predicate IsLastFarthest(comps: seq<Blob>, ship: Vec, u: Vec, k: nat)
  {
    k < |comps| && forall j: nat :: j < |comps| ==>
      Ahead(comps[j], ship, u) < Ahead(comps[k], ship, u)
      || (Ahead(comps[j], ship, u) == Ahead(comps[k], ship, u) && j <= k)
  }

  /** The items of a side to which everything belongs. */
  ghost predicate AreAllItems(ps: seq<Projected>, items: seq<Item>)
  {
    |items| == |ps| && forall i :: 0 <= i < |ps| ==> items[i] == Item(ps[i].area, AbsReal(ps[i].s))
  }

  ghost predicate AreOnSide(ps: seq<Projected>, ahead: bool)
  {
    forall i :: 0 <= i < |ps| ==> ps[i].area > 0 && ps[i].s != 0.0 && (ps[i].s > 0.0 <==> ahead)
  }

  lemma {:induction false} AllOnOneSide(ps: seq<Projected>, ahead: bool)
    requires AreOnSide(ps, ahead)
    ensures AreAllItems(ps, Side(ps, ahead)) && Side(ps, !ahead) == []
  {
    if ps != [] {
      AllOnOneSide(ps[..|ps| - 1], ahead);
    }
  }

  lemma {:induction false} SumPositive(items: seq<Item>)
    requires items != [] && forall i :: 0 <= i < |items| ==> items[i].area > 0
    ensures SumAreas(items) > 0
  {
    var n := |items| - 1;
    if n > 0 { SumPositive(items[..n]); } else { assert items[..n] == []; }
  }

  /** The wake is the side everything is on. */
  lemma WakeIsSide(ps: seq<Projected>, u: Vec, ahead: bool)
    requires Side(ps, ahead) != [] && Side(ps, !ahead) == [] && SumAreas(Side(ps, ahead)) > 0
    ensures FirstLast(ps, u) == Some(if NearIsLarger(Side(ps, ahead)) == ahead then u else u.Neg())
  {
    assert u.Neg().Neg() == u;
  }

  /**
    With all components in the direction of w, which is u or -u, the heading is w if the nearest is at least as
    large as the farthest, and else the opposite.
  */
  lemma OneSidedWake(comps: seq<Blob>, ship: Vec, u: Vec, w: Vec) returns (near: nat, far: nat)
    requires comps != [] && (w == u || w == u.Neg())
    requires forall b :: b in comps ==> b.area > 0 && Ahead(b, ship, w) > 0.0
    ensures IsFirstNearest(comps, ship, w, near) && IsLastFarthest(comps, ship, w, far)
    ensures FirstLast(Project(comps, ship, u), u)
         == Some(if comps[near].area >= comps[far].area then w else w.Neg())
  {
    var items := Side(Project(comps, ship, u), w == u);
    SideOfAll(comps, ship, u, w);
    SumPositive(items);
    WakeIsSide(Project(comps, ship, u), u, w == u);
    near, far := NearestAgainstFarthest(items);
    NearestIsFirst(comps, ship, w, items, near, far);
    assert u.Neg().Neg() == u;
  }

  /** The items are the components at their distances in the direction of w. */
  ghost predicate AreItemsOf(items: seq<Item>, comps: seq<Blob>, ship: Vec, w: Vec)
  {
    |items| == |comps| && forall i :: 0 <= i < |items| ==> items[i] == Item(comps[i].area, Ahead(comps[i], ship, w))
  }

  lemma SideOfAll(comps: seq<Blob>, ship: Vec, u: Vec, w: Vec)
    requires w == u || w == u.Neg()
    requires forall b :: b in comps ==> b.area > 0 && Ahead(b, ship, w) > 0.0
    ensures AreItemsOf(Side(Project(comps, ship, u), w == u), comps, ship, w)
    ensures forall i :: 0 <= i < |comps| ==> comps[i].area > 0
    ensures Side(Project(comps, ship, u), w != u) == []
  {
    ProjectedOnSide(comps, ship, u, w);
    AllOnOneSide(Project(comps, ship, u), w == u);
    forall i | 0 <= i < |comps| ensures comps[i].area > 0 {
      assert comps[i] in comps;
    }
  }

  lemma ProjectedOnSide(comps: seq<Blob>, ship: Vec, u: Vec, w: Vec)
    requires w == u || w == u.Neg()
    requires forall b :: b in comps ==> b.area > 0 && Ahead(b, ship, w) > 0.0
    ensures AreOnSide(Project(comps, ship, u), w == u)
    ensures forall i :: 0 <= i < |comps| ==> AbsReal(Project(comps, ship, u)[i].s) == Ahead(comps[i], ship, w)
  {
    forall i | 0 <= i < |comps|
      ensures IsProjectedTo(Project(comps, ship, u)[i], comps[i].area, Ahead(comps[i], ship, w), w == u)
    {
      assert comps[i] in comps;
      ProjectedAhead(comps[i], ship, u, w);
    }
  }

  /** At a positive distance on one side. */
  ghost predicate IsProjectedTo(p: Projected, area: int, distance: real, ahead: bool)
  {
    p.area == area > 0 && p.s == (if ahead then distance else -distance) && distance > 0.0
  }

  lemma ProjectedAhead(b: Blob, ship: Vec, u: Vec, w: Vec)
    requires b.area > 0 && Ahead(b, ship, w) > 0.0 && (w == u || w == u.Neg())
    ensures IsProjectedTo(Projected(b.area, Along(b, ship, u)), b.area, Ahead(b, ship, w), w == u)
  {
    NegatedDot(Vec(b.c.x - ship.x, b.c.y - ship.y), u);
  }

  lemma NearestIsFirst(comps: seq<Blob>, ship: Vec, w: Vec, items: seq<Item>, near: nat, far: nat)
    requires AreItemsOf(items, comps, ship, w) && IsNearest(items, near) && IsFarthest(items, far)
    ensures IsFirstNearest(comps, ship, w, near) && IsLastFarthest(comps, ship, w, far)
  {
    forall j: nat | j < |comps| ensures items[j].absS == Ahead(comps[j], ship, w) {
    }
  }

  /** The projections on the opposite edge. */
  ghost predicate AreOpposite(ps: seq<Projected>, qs: seq<Projected>)
  {
    |qs| == |ps| && forall i :: 0 <= i < |ps| ==> qs[i] == Projected(ps[i].area, -ps[i].s)
  }

  lemma ProjectNegated(comps: seq<Blob>, ship: Vec, u: Vec)
    ensures AreOpposite(Project(comps, ship, u), Project(comps, ship, u.Neg()))
  {
    forall i | 0 <= i < |comps| ensures Along(comps[i], ship, u.Neg()) == -Along(comps[i], ship, u) {
      NegatedDot(Vec(comps[i].c.x - ship.x, comps[i].c.y - ship.y), u);
    }
  }

  lemma {:induction false} ItemsMirrored(ps: seq<Projected>, qs: seq<Projected>, zone: Zone)
    requires AreOpposite(ps, qs)
    ensures Items(qs, zone.Mirror()) == Items(ps, zone)
  {
    if ps != [] {
      var n := |ps| - 1;
      ItemsMirrored(ps[..n], qs[..n], zone);
      assert PlaceOf(qs[n].s) == PlaceOf(ps[n].s).Mirror();
    }
  }

  /** The side the rule looks at for the edge u, and for the opposite edge, and whether it is that edge's own front. */
  function OwnFront(ps: seq<Projected>): bool { Area(ps, FRONT) + Area(ps, LEVEL) >= Area(ps, REAR) }

  function OwnFrontOpposite(ps: seq<Projected>): bool { Area(ps, REAR) + Area(ps, LEVEL) >= Area(ps, FRONT) }

  function Wake(ps: seq<Projected>): seq<Item> { Items(ps, if OwnFront(ps) then FRONT_OR_LEVEL else REAR) }

  function WakeOpposite(ps: seq<Projected>): seq<Item>
  {
    Items(ps, if OwnFrontOpposite(ps) then REAR_OR_LEVEL else FRONT)
  }

  lemma FirstLastHere(ps: seq<Projected>, u: Vec)
    ensures FirstLast(ps, u) == if Wake(ps) == [] then None
                                else Some(if NearIsLarger(Wake(ps)) == OwnFront(ps) then u else u.Neg())
  {
    AreasAdd(ps);
    assert u.Neg().Neg() == u;
  }

  lemma FirstLastOpposite(ps: seq<Projected>, qs: seq<Projected>, u: Vec)
    requires AreOpposite(ps, qs)
    ensures FirstLast(qs, u.Neg()) == if WakeOpposite(ps) == [] then None
                                      else
                                        var near := NearIsLarger(WakeOpposite(ps));
                                        Some(if near == OwnFrontOpposite(ps) then u.Neg() else u)
  {
    FirstLastHere(qs, u.Neg());
    ItemsMirrored(ps, qs, REAR_OR_LEVEL);
    ItemsMirrored(ps, qs, FRONT);
    ItemsMirrored(ps, qs, REAR);
    ItemsMirrored(ps, qs, LEVEL);
    assert u.Neg().Neg() == u;
  }

  /**
    When the answer does not depend on which way the edge points. A component level with the ship counts
    as ahead for either edge. If the sides' areas differ by no more than those components, each edge looks at
    its own front, and the answers agree only if the two looks disagree about near and far; otherwise both
    look at the same side, one of them with the level components, and have to agree.
  */
  lemma FirstLastIgnoresEdgeDirection(comps: seq<Blob>, ship: Vec, u: Vec)
    ensures var ps := Project(comps, ship, u);
            var w1, w2 := Wake(ps), WakeOpposite(ps);
            (FirstLast(Project(comps, ship, u.Neg()), u.Neg()) == FirstLast(ps, u)) <==>
              || u == u.Neg()
              || (w1 == [] && w2 == [])
              || (w1 != [] && w2 != []
                  && (OwnFront(ps) == OwnFrontOpposite(ps)) == (NearIsLarger(w1) != NearIsLarger(w2)))
  {
    ProjectNegated(comps, ship, u);
    FirstLastHere(Project(comps, ship, u), u);
    FirstLastOpposite(Project(comps, ship, u), Project(comps, ship, u.Neg()), u);
  }

  /** With positive areas and nothing level with the ship, only sides of equal area can make the direction decide. */
  lemma FirstLastWithoutLevel(comps: seq<Blob>, ship: Vec, u: Vec)
    requires forall b :: b in comps ==> b.area > 0 && Along(b, ship, u) != 0.0
    requires u != u.Neg()
    ensures var ps := Project(comps, ship, u);
            var front, rear := Items(ps, FRONT), Items(ps, REAR);
            (FirstLast(Project(comps, ship, u.Neg()), u.Neg()) == FirstLast(ps, u)) <==>
              || comps == []
              || SumAreas(front) != SumAreas(rear)
              || (front != [] && rear != [] && NearIsLarger(front) != NearIsLarger(rear))
  {
    var ps := Project(comps, ship, u);
    forall i | 0 <= i < |ps| ensures ps[i].area > 0 && PlaceOf(ps[i].s) != Level {
      assert comps[i] in comps;
    }
    NothingLevel(ps);
    FirstLastIgnoresEdgeDirection(comps, ship, u);
  }

  lemma {:induction false} NothingLevel(ps: seq<Projected>)
    requires forall i :: 0 <= i < |ps| ==> ps[i].area > 0 && PlaceOf(ps[i].s) != Level
    ensures Items(ps, FRONT_OR_LEVEL) == Items(ps, FRONT) && Items(ps, REAR_OR_LEVEL) == Items(ps, REAR)
    ensures Items(ps, LEVEL) == []
    ensures Area(ps, FRONT) >= 0 && (Area(ps, FRONT) == 0 <==> Items(ps, FRONT) == [])
    ensures Area(ps, REAR) >= 0 && (Area(ps, REAR) == 0 <==> Items(ps, REAR) == [])
    ensures Items(ps, FRONT) == [] && Items(ps, REAR) == [] ==> ps == []
  {
    if ps != [] {
      var n := |ps| - 1;
      NothingLevel(ps[..n]);
      AreaNext(ps, FRONT);
      AreaNext(ps, REAR);
    }
  }

  /** A single component at the ship's own position: the sides' areas differ, and yet the edge's direction decides. */
  lemma LevelComponentDecides(area: int, ship: Vec, u: Vec)
    requires area > 0 && u != u.Neg()
    ensures var comps := [Blob(area, ship)];
            var ps, qs := Project(comps, ship, u), Project(comps, ship, u.Neg());
            && SumAreas(Side(ps, true)) != SumAreas(Side(ps, false))
            && FirstLast(ps, u) == Some(u) && FirstLast(qs, u.Neg()) == Some(u.Neg())
  {
    LevelAlone(Blob(area, ship), ship, u);
    LevelAlone(Blob(area, ship), ship, u.Neg());
  }

  lemma LevelAlone(b: Blob, ship: Vec, u: Vec)
    requires b.area > 0 && b.c == ship
    ensures Project([b], ship, u) == [Projected(b.area, 0.0)]
    ensures SumAreas(Side(Project([b], ship, u), true)) == b.area && SumAreas(Side(Project([b], ship, u), false)) == 0
    ensures FirstLast(Project([b], ship, u), u) == Some(u)
  {
    var ps, item := [Projected(b.area, 0.0)], Item(b.area, 0.0);
    assert Along(b, ship, u) == 0.0;
    assert Project([b], ship, u) == ps;
    assert ps[..0] == [] && [item][..0] == [];
    assert Items([], FRONT_OR_LEVEL) == Items([], REAR) == [];
    assert Side(ps, true) == [item] && Side(ps, false) == [];
    assert SumAreas([item]) == b.area;
    assert SortBy([item], (x: Item) => x.absS) == [item];
  }

  // ---------- majority of pixels along the edge ----------

  /** Is the pixel, given by its offset from the centre, in the corridor around the edge and far enough out? */
  predicate InCorridor(d: Vec, u: Vec, corridor: real, exclude: real)
  {
    AbsReal(d.Dot(Vec(u.y, -u.x))) <= corridor && d.Dot(d) >= exclude * exclude
  }

  /** Signed distances along the edge of the pixels that are in the corridor. */
  function Selected(pixels: seq<Vec>, u: Vec, corridor: real, exclude: real): seq<real>
  {
    if pixels == [] then []
    else
      (if InCorridor(pixels[0], u, corridor, exclude) then [pixels[0].Dot(u)] else [])
      + Selected(pixels[1..], u, corridor, exclude)
  }

  function CountAt(sel: seq<real>, place: Place): nat
  {
    if sel == [] then 0 else (if PlaceOf(sel[0]) == place then 1 else 0) + CountAt(sel[1..], place)
  }

  /** What the code counts: a pixel level with the centre is ahead. */
  function CountSide(sel: seq<real>, ahead: bool): nat
  {
    if sel == [] then 0 else (if (sel[0] >= 0.0) == ahead then 1 else 0) + CountSide(sel[1..], ahead)
  }

  function Difference(pos: nat, neg: nat): real { Abs(pos - neg) as real / Max(pos + neg, 1) as real }

  function Fuller(pos: nat, neg: nat, diff: real, tau: real, u: Vec): Option<Vec>
  {
    if diff < tau then None else Some(if pos > neg then u.Neg() else u)
  }

  /** The choice among the selected pixels; `tau` is the relative difference below which the sides count as equal. */
  function Majority(sel: seq<real>, tau: real, u: Vec): Option<Vec>
  {
    var pos, neg := CountSide(sel, true), CountSide(sel, false);
    if sel == [] then None else Fuller(pos, neg, Difference(pos, neg), tau, u)
  }

  function Midline(pixels: seq<Vec>, u: Vec, corridor: real, exclude: real, minFg: int, tau: real): Option<Vec>
  {
    if |pixels| < minFg then None else Majority(Selected(pixels, u, corridor, exclude), tau, u)
  }

  lemma {:induction false} SidesAreCounts(sel: seq<real>)
    ensures CountSide(sel, true) == CountAt(sel, Front) + CountAt(sel, Level)
    ensures CountSide(sel, false) == CountAt(sel, Rear)
    ensures CountAt(sel, Front) + CountAt(sel, Level) + CountAt(sel, Rear) == |sel|
  {
    if sel != [] { SidesAreCounts(sel[1..]); }
  }

  ghost predicate AreNegated(sel: seq<real>, opp: seq<real>)
  {
    |sel| == |opp| && forall i :: 0 <= i < |sel| ==> opp[i] == -sel[i]
  }

  lemma {:induction false} CountsMirrored(sel: seq<real>, opp: seq<real>)
    requires AreNegated(sel, opp)
    ensures CountAt(opp, Front) == CountAt(sel, Rear) && CountAt(opp, Level) == CountAt(sel, Level)
    ensures CountAt(opp, Rear) == CountAt(sel, Front)
  {
    if sel != [] { CountsMirrored(sel[1..], opp[1..]); }
  }

  /** The opposite edge selects the same pixels, at negated distances. */
  lemma {:induction false} SelectedNegated(pixels: seq<Vec>, u: Vec, corridor: real, exclude: real)
    ensures AreNegated(Selected(pixels, u, corridor, exclude), Selected(pixels, u.Neg(), corridor, exclude))
  {
    if pixels != [] {
      NegatedDot(pixels[0], u);
      NegatedDot(pixels[0], Vec(u.y, -u.x));
      assert Vec(u.Neg().y, -u.Neg().x) == Vec(u.y, -u.x).Neg();
      SelectedNegated(pixels[1..], u, corridor, exclude);
    }
  }

  /** The pixel, given by its offset from the centre, is in the corridor along u and far enough from the centre. */
  predicate Counts(d: Vec, u: Vec, corridor: real, exclude: real)
  {
    AbsReal(d.x * u.y - d.y * u.x) <= corridor && d.x * d.x + d.y * d.y >= exclude * exclude
  }

  /** How many of the pixels that count lie in the direction of u, and how many neither in that nor in the opposite. */
  function CountFront(pixels: seq<Vec>, u: Vec, corridor: real, exclude: real): nat
  {
    if pixels == [] then 0
    else
      var d := pixels[0];
      (if Counts(d, u, corridor, exclude) && d.x * u.x + d.y * u.y > 0.0 then 1 else 0)
      + CountFront(pixels[1..], u, corridor, exclude)
  }

  function CountLevel(pixels: seq<Vec>, u: Vec, corridor: real, exclude: real): nat
  {
    if pixels == [] then 0
    else
      var d := pixels[0];
      (if Counts(d, u, corridor, exclude) && d.x * u.x + d.y * u.y == 0.0 then 1 else 0)
      + CountLevel(pixels[1..], u, corridor, exclude)
  }

  lemma {:induction false} CountsOfPixels(pixels: seq<Vec>, u: Vec, corridor: real, exclude: real)
    ensures var sel := Selected(pixels, u, corridor, exclude);
            && CountAt(sel, Front) == CountFront(pixels, u, corridor, exclude)
            && CountAt(sel, Level) == CountLevel(pixels, u, corridor, exclude)
            && |sel| == CountFront(pixels, u, corridor, exclude) + CountLevel(pixels, u, corridor, exclude)
                        + CountAt(sel, Rear)
  {
    if pixels != [] {
      CountsOfPixels(pixels[1..], u, corridor, exclude);
      var rest := Selected(pixels[1..], u, corridor, exclude);
      CountCons(pixels[0].Dot(u), rest, Front);
      CountCons(pixels[0].Dot(u), rest, Level);
      CountCons(pixels[0].Dot(u), rest, Rear);
      CorridorMeans(pixels[0], u, corridor, exclude);
    }
  }

  lemma CountCons(x: real, rest: seq<real>, place: Place)
    ensures CountAt([x] + rest, place) == CountAt(rest, place) + if PlaceOf(x) == place then 1 else 0
    ensures [] + rest == rest
  {
    assert ([x] + rest)[1..] == rest;
  }

  lemma CorridorMeans(d: Vec, u: Vec, corridor: real, exclude: real)
    ensures InCorridor(d, u, corridor, exclude) <==> Counts(d, u, corridor, exclude)
    ensures d.Dot(u) == d.x * u.x + d.y * u.y
  {
    assert d.Dot(Vec(u.y, -u.x)) == d.x * u.y - d.y * u.x;
  }

  /** What is in front for the opposite edge is behind. */
  lemma RearIsFront(pixels: seq<Vec>, u: Vec, corridor: real, exclude: real)
    ensures CountAt(Selected(pixels, u, corridor, exclude), Rear) == CountFront(pixels, u.Neg(), corridor, exclude)
    ensures CountLevel(pixels, u.Neg(), corridor, exclude) == CountLevel(pixels, u, corridor, exclude)
  {
    SelectedNegated(pixels, u, corridor, exclude);
    CountsMirrored(Selected(pixels, u, corridor, exclude), Selected(pixels, u.Neg(), corridor, exclude));
    CountsOfPixels(pixels, u, corridor, exclude);
    CountsOfPixels(pixels, u.Neg(), corridor, exclude);
  }

  /** The two sides differ by less than the share tau of their sum. */
  predicate DifferLittle(pos: nat, neg: nat, tau: real) { Abs(pos - neg) as real < tau * (pos + neg) as real }

  /** There is no answer exactly with too few pixels, none that count, or too small a difference. */
  lemma MidlineIsSilent(pixels: seq<Vec>, u: Vec, corridor: real, exclude: real, minFg: int, tau: real)
    ensures var pos := CountFront(pixels, u, corridor, exclude) + CountLevel(pixels, u, corridor, exclude);
            var neg := CountFront(pixels, u.Neg(), corridor, exclude);
            Midline(pixels, u, corridor, exclude, minFg, tau) == None
            <==> |pixels| < minFg || pos + neg == 0 || DifferLittle(pos, neg, tau)
  {
    var sel := Selected(pixels, u, corridor, exclude);
    CountsOfPixels(pixels, u, corridor, exclude);
    RearIsFront(pixels, u, corridor, exclude);
    SidesAreCounts(sel);
    MajorityIsSilent(sel, tau, u);
  }

  lemma MajorityIsSilent(sel: seq<real>, tau: real, u: Vec)
    ensures Majority(sel, tau, u) == None
       <==> sel == [] || DifferLittle(CountSide(sel, true), CountSide(sel, false), tau)
  {
    if sel != [] {
      SidesAreCounts(sel);
      DifferenceMeans(CountSide(sel, true), CountSide(sel, false), tau);
    }
  }

  lemma DifferenceMeans(pos: nat, neg: nat, tau: real)
    requires pos + neg > 0
    ensures Difference(pos, neg) < tau <==> DifferLittle(pos, neg, tau)
  {
    TimesQuotient(Abs(pos - neg) as real, (pos + neg) as real);
    CompareScaled(Difference(pos, neg), tau, (pos + neg) as real);
  }

  /**
    The promise: the heading points from the side with more pixels to the side with fewer. It holds for what
    lies strictly in front of the heading against the rest, and for strict front against strict rear except
    when the level pixels alone made the edge's front the fuller side.
  */
  lemma MidlinePointsAway(pixels: seq<Vec>, u: Vec, corridor: real, exclude: real, minFg: int, tau: real)
    requires Midline(pixels, u, corridor, exclude, minFg, tau).Some?
    ensures var v := Midline(pixels, u, corridor, exclude, minFg, tau).value;
            var front, rear := CountFront(pixels, u, corridor, exclude), CountFront(pixels, u.Neg(), corridor, exclude);
            var ahead := CountFront(pixels, v, corridor, exclude);
            var behind := CountFront(pixels, v.Neg(), corridor, exclude);
            var level := CountLevel(pixels, u, corridor, exclude);
            && (v == u || v == u.Neg()) && ahead <= level + behind
            && (ahead <= behind <==> !(front < rear < front + level))
  {
    CountsOfPixels(pixels, u, corridor, exclude);
    RearIsFront(pixels, u, corridor, exclude);
    assert u.Neg().Neg() == u;
    var sel, opp := Selected(pixels, u, corridor, exclude), Selected(pixels, u.Neg(), corridor, exclude);
    SelectedNegated(pixels, u, corridor, exclude);
    SidesAreCounts(sel);
    CountsMirrored(sel, opp);
  }

  /**
    Both looks find the difference too small, or both find it large enough and the level pixels, which count as
    ahead in either look, cannot tip the balance.
  */
  predicate NoTipping(front: nat, level: nat, rear: nat, here: real, there: real, tau: real)
  {
    (here < tau && there < tau) || (here >= tau && there >= tau && Abs(front - rear) >= Max(level, 1))
  }

  predicate LooksCoincide(sel: seq<real>, tau: real)
  {
    var front, level, rear := CountAt(sel, Front), CountAt(sel, Level), CountAt(sel, Rear);
    sel == [] || NoTipping(front, level, rear, Difference(front + level, rear), Difference(rear + level, front), tau)
  }

  lemma LooksAgree(front: nat, level: nat, rear: nat, here: real, there: real, tau: real, u: Vec)
    requires front + level + rear > 0 && u != u.Neg()
    ensures Fuller(rear + level, front, there, tau, u.Neg()) == Fuller(front + level, rear, here, tau, u)
       <==> NoTipping(front, level, rear, here, there, tau)
  {
    assert u.Neg().Neg() == u;
  }

  lemma MajorityAgrees(sel: seq<real>, opp: seq<real>, tau: real, u: Vec)
    requires AreNegated(sel, opp) && u != u.Neg()
    ensures Majority(opp, tau, u.Neg()) == Majority(sel, tau, u) <==> LooksCoincide(sel, tau)
  {
    var front, level, rear := CountAt(sel, Front), CountAt(sel, Level), CountAt(sel, Rear);
    SidesAreCounts(sel);
    SidesAreCounts(opp);
    CountsMirrored(sel, opp);
    if sel != [] {
      LooksAgree(front, level, rear, Difference(front + level, rear), Difference(rear + level, front), tau, u);
    }
  }

  /**
    The answer does not depend on which way the edge points exactly if there are too few pixels or both looks
    coincide.
  */
  lemma MidlineIgnoresEdgeDirection(pixels: seq<Vec>, u: Vec, corridor: real, exclude: real, minFg: int, tau: real)
    ensures Midline(pixels, u.Neg(), corridor, exclude, minFg, tau) == Midline(pixels, u, corridor, exclude, minFg, tau)
       <==> u == u.Neg() || |pixels| < minFg || LooksCoincide(Selected(pixels, u, corridor, exclude), tau)
  {
    SelectedNegated(pixels, u, corridor, exclude);
    if u != u.Neg() {
      MajorityAgrees(Selected(pixels, u, corridor, exclude), Selected(pixels, u.Neg(), corridor, exclude), tau, u);
    }
  }

  /**
    One pixel level with the centre is enough to make the edge's direction decide: (0, 5) for the edge (1, 0),
    say, with a corridor of 6 and an excluded radius of 4.
  */
  lemma LevelPixelDecides(d: Vec, u: Vec, corridor: real, exclude: real, minFg: int, tau: real)
    requires d.Dot(u) == 0.0 && InCorridor(d, u, corridor, exclude) && minFg <= 1 && tau <= 1.0
    ensures Midline([d], u, corridor, exclude, minFg, tau) == Some(u.Neg())
    ensures Midline([d], u.Neg(), corridor, exclude, minFg, tau) == Some(u)
  {
    assert [d][1..] == [];
    assert Selected([], u, corridor, exclude) == [];
    assert Selected([d], u, corridor, exclude) == [0.0];
    SelectedNegated([d], u, corridor, exclude);
    assert Selected([d], u.Neg(), corridor, exclude) == [0.0];
    OneLevelPixel(tau, u);
    OneLevelPixel(tau, u.Neg());
    assert u.Neg().Neg() == u;
  }

  lemma OneLevelPixel(tau: real, u: Vec)
    requires tau <= 1.0
    ensures Majority([0.0], tau, u) == Some(u.Neg())
  {
    assert [0.0][1..] == [];
    assert CountSide([], true) == CountSide([], false) == 0;
    assert CountSide([0.0], true) == 1 && CountSide([0.0], false) == 0;
    assert Difference(1, 0) == 1.0;
  }
}
