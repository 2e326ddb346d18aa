/**
  utils/map.py, `eval_mAP`: assigning one class' ranked detections to ground-truth boxes. The
  per-image JSON files that carry the `used` flags from one detection to the next are the map
  `files` of the store; the rotated-box overlap is a parameter.
*/
module Matching {
  type Box = seq<real>

  /** (overlap, intersection area) of a ground-truth box and a detection. */
  type Overlap = (Box, Box) -> (real, real)

  datatype GroundTruth = GroundTruth(className: string, bbox: Box, difficult: bool, used: bool)

  datatype Detection = Detection(confidence: real, fileId: string, bbox: Box)

  /** A ground-truth box: its image and its place in that image's list. */
  datatype Target = Target(fileId: string, index: nat)

  datatype Claim = NoClaim | Claims(target: Target)

  type Files = map<string, seq<GroundTruth>>

  datatype Setting = Setting(className: string, minOverlap: real, skewiou: Overlap)

  // ---------- which box a detection claims ----------

  predicate IsCandidate(gts: seq<GroundTruth>, bb: Box, c: Setting, k: nat)
    requires k < |gts|
  {
    && gts[k].className == c.className
    && c.skewiou(gts[k].bbox, bb).1 != 0.0
    && c.skewiou(gts[k].bbox, bb).0 > -1.0
  }

  /** k is the first of the candidates with the largest overlap. */
  ghost predicate IsBest(gts: seq<GroundTruth>, bb: Box, c: Setting, k: nat)
  {
    && k < |gts| && IsCandidate(gts, bb, c, k)
    && forall j: nat :: j < |gts| && IsCandidate(gts, bb, c, j) ==>
         && c.skewiou(gts[j].bbox, bb).0 <= c.skewiou(gts[k].bbox, bb).0
         && (j < k ==> c.skewiou(gts[j].bbox, bb).0 < c.skewiou(gts[k].bbox, bb).0)
  }

  ghost predicate HasCandidate(gts: seq<GroundTruth>, bb: Box, c: Setting)
  {
    exists k: nat :: k < |gts| && IsCandidate(gts, bb, c, k)
  }

  method BestOverlap(gts: seq<GroundTruth>, bb: Box, c: Setting) returns (ovmax: real, gtMatch: int)
    ensures gtMatch == -1 ==> ovmax == -1.0 && !HasCandidate(gts, bb, c)
    ensures gtMatch != -1 ==> gtMatch >= 0 && IsBest(gts, bb, c, gtMatch) && ovmax == c.skewiou(gts[gtMatch].bbox, bb).0
  {
    ovmax, gtMatch := -1.0, -1;
    for i := 0 to |gts|
      invariant gtMatch == -1 ==> ovmax == -1.0 && forall j: nat :: j < i ==> !IsCandidate(gts, bb, c, j)
      invariant gtMatch != -1 ==>
        && 0 <= gtMatch < i && IsCandidate(gts, bb, c, gtMatch) && ovmax == c.skewiou(gts[gtMatch].bbox, bb).0
        && forall j: nat :: j < i && IsCandidate(gts, bb, c, j) ==>
             && c.skewiou(gts[j].bbox, bb).0 <= ovmax
             && (j < gtMatch ==> c.skewiou(gts[j].bbox, bb).0 < ovmax)
    {
      if gts[i].className == c.className {
        var (iou, inter) := c.skewiou(gts[i].bbox, bb);
        if inter != 0.0 {
          var ov := iou;
          if ov > ovmax {
            ovmax := ov;
            gtMatch := i;
          }
        }
      }
    }
  }

  /** The box a detection claims: its best one, if that overlaps enough. */
  ghost function ClaimOf(files: Files, d: Detection, c: Setting): Claim
    requires d.fileId in files
  {
    var gts := files[d.fileId];
    if k: nat :| IsBest(gts, d.bbox, c, k) && c.skewiou(gts[k].bbox, d.bbox).0 >= c.minOverlap
    then Claims(Target(d.fileId, k)) else NoClaim
  }

  lemma ClaimOfBest(files: Files, d: Detection, c: Setting, k: nat)
    requires d.fileId in files && IsBest(files[d.fileId], d.bbox, c, k)
    ensures ClaimOf(files, d, c) ==
      if c.skewiou(files[d.fileId][k].bbox, d.bbox).0 >= c.minOverlap then Claims(Target(d.fileId, k)) else NoClaim
  {
  }

  /** Claims look at classes and boxes only, so marking boxes as used changes none of them. */
  ghost predicate SameBoxes(a: Files, b: Files)
  {
    && a.Keys == b.Keys
    && forall f :: f in a ==>
         && |a[f]| == |b[f]|
         && forall k :: 0 <= k < |a[f]| ==> a[f][k].(used := false) == b[f][k].(used := false)
  }

  lemma SameBoxesSameBest(a: Files, b: Files, f: string, bb: Box, c: Setting, k: nat)
    requires SameBoxes(a, b) && f in a && IsBest(a[f], bb, c, k)
    ensures IsBest(b[f], bb, c, k)
  {
    forall j: nat | j < |b[f]| && IsCandidate(b[f], bb, c, j)
      ensures c.skewiou(b[f][j].bbox, bb).0 <= c.skewiou(b[f][k].bbox, bb).0
      ensures j < k ==> c.skewiou(b[f][j].bbox, bb).0 < c.skewiou(b[f][k].bbox, bb).0
    {
      assert a[f][j].(used := false) == b[f][j].(used := false);
      assert IsCandidate(a[f], bb, c, j);
    }
  }

  // ---------- the declarative outcome ----------

  ghost function ClaimsOf(files: Files, dets: seq<Detection>, c: Setting): (cs: seq<Claim>)
    requires forall d :: d in dets ==> d.fileId in files
    ensures |cs| == |dets|
  {
    seq(|dets|, i requires 0 <= i < |dets| => ClaimOf(files, dets[i], c))
  }

  /** Nobody ranked before i claims i's box. */
  ghost predicate IsFirst(cs: seq<Claim>, i: nat)
    requires i < |cs|
  {
    forall j :: 0 <= j < i ==> cs[j] != cs[i]
  }

  ghost predicate IsDifficult(files: Files, t: Target)
  {
    t.fileId in files && t.index < |files[t.fileId]| && files[t.fileId][t.index].difficult
  }

  ghost predicate IsTruePositive(files: Files, cs: seq<Claim>, i: nat)
    requires i < |cs|
  {
    cs[i].Claims? && !IsDifficult(files, cs[i].target) && IsFirst(cs, i)
  }

  ghost predicate IsIgnored(files: Files, cs: seq<Claim>, i: nat)
    requires i < |cs|
  {
    cs[i].Claims? && IsDifficult(files, cs[i].target)
  }

  /** The boxes of the class that count: the class' ground-truth counter is their number. */
  ghost function Positives(files: Files, className: string): set<Target>
  {
    set f, k | f in files && 0 <= k < |files[f]| && files[f][k].className == className && !files[f][k].difficult
      :: Target(f, k)
  }

  /** tp and fp say, for the first n detections, which are true positives, ignored and false positives. */
  ghost predicate Scored(files: Files, cs: seq<Claim>, tp: seq<int>, fp: seq<int>, n: nat)
  {
    && |tp| == |fp| == |cs|
    && (forall i :: 0 <= i < n && i < |cs| ==> tp[i] == if IsTruePositive(files, cs, i) then 1 else 0)
    && (forall i :: 0 <= i < n && i < |cs| ==>
          fp[i] == if IsTruePositive(files, cs, i) || IsIgnored(files, cs, i) then 0 else 1)
  }

  /** Against the initial flags, the first n detections have marked exactly the boxes they claim and that count. */
  ghost predicate Marked(start: Files, files: Files, cs: seq<Claim>, n: nat)
  {
    && n <= |cs|
    && SameBoxes(start, files)
    && forall f, k :: f in files && 0 <= k < |files[f]| ==>
         (files[f][k].used <==> start[f][k].used || (!files[f][k].difficult && Claims(Target(f, k)) in cs[..n]))
  }

  ghost predicate AllUnused(files: Files, className: string)
  {
    forall f, k :: f in files && 0 <= k < |files[f]| && files[f][k].className == className ==> !files[f][k].used
  }

  function SumTo(s: seq<int>, n: nat): int
    requires n <= |s|
  {
    if n == 0 then 0 else SumTo(s, n - 1) + s[n - 1]
  }

  lemma {:induction false} SumOfPrefix(s: seq<int>, t: seq<int>, n: nat)
    requires n <= |s| && n <= |t| && forall k :: 0 <= k < n ==> s[k] == t[k]
    ensures SumTo(s, n) == SumTo(t, n)
  {
    if n > 0 { SumOfPrefix(s, t, n - 1); }
  }

  class Store {
    var files: Files

    constructor (files: Files)
      ensures this.files == files
    {
      this.files := files;
    }

    /** One detection: a hit on a box that is marked, a miss, or neither. */
    method Judge(ghost start: Files, ghost cs: seq<Claim>, drData: seq<Detection>, c: Setting, idx: nat)
      returns (hit: bool, miss: bool)
      requires c.minOverlap > -1.0 && AllUnused(start, c.className) && idx < |drData|
      requires forall d :: d in drData ==> d.fileId in start
      requires cs == ClaimsOf(start, drData, c) && Marked(start, files, cs, idx)
      modifies this
      ensures hit <==> IsTruePositive(start, cs, idx)
      ensures miss <==> !IsTruePositive(start, cs, idx) && !IsIgnored(start, cs, idx)
      ensures Marked(start, files, cs, idx + 1)
    {
      var fileId := drData[idx].fileId;
      var groundTruthData := files[fileId];
      var ovmax, gtMatch := BestOverlap(groundTruthData, drData[idx].bbox, c);
      Verdict(start, files, drData, c, idx, ovmax, gtMatch);
      hit, miss := false, false;
      if ovmax >= c.minOverlap {
        if !groundTruthData[gtMatch].difficult {
          if !groundTruthData[gtMatch].used {
            hit := true;
            MarkNew(start, files, cs, idx, fileId, gtMatch);
            files := files[fileId := groundTruthData[gtMatch := groundTruthData[gtMatch].(used := true)]];
          } else {
            miss := true;
            MarkNothing(start, files, cs, idx);
          }
        } else {
          MarkNothing(start, files, cs, idx);
        }
      } else {
        miss := true;
        MarkNothing(start, files, cs, idx);
      }
    }

    method AssignDetections(drData: seq<Detection>, c: Setting) returns (tp: seq<int>, fp: seq<int>, count: int)
      requires c.minOverlap > -1.0
      requires forall d :: d in drData ==> d.fileId in files
      requires AllUnused(files, c.className)
      modifies this
      ensures Scored(old(files), ClaimsOf(old(files), drData, c), tp, fp, |drData|)
      ensures Marked(old(files), files, ClaimsOf(old(files), drData, c), |drData|)
      ensures count == SumTo(tp, |tp|)
    {
      var nd := |drData|;
      tp := seq(nd, _ => 0);
      fp := seq(nd, _ => 0);
      count := 0;
      ghost var start := files;
      ghost var cs := ClaimsOf(start, drData, c);
      NoTally(start, cs, tp, fp);
      for idx := 0 to nd
        invariant IsTally(start, cs, tp, fp, count, idx) && Marked(start, files, cs, idx)
      {
        var hit, miss := Judge(start, cs, drData, c, idx);
        TallyNext(start, cs, tp, fp, count, hit, miss, idx);
        if hit {
          tp := tp[idx := 1];
          count := count + 1;
        }
        if miss {
          fp := fp[idx := 1];
        }
      }
    }
  }

  /** The flags and the hit count after n detections; all later flags are zero. */
  ghost predicate IsTally(files: Files, cs: seq<Claim>, tp: seq<int>, fp: seq<int>, count: int, n: nat)
  {
    && n <= |cs| && Scored(files, cs, tp, fp, n) && count == SumTo(tp, n)
    && forall i :: n <= i < |cs| ==> tp[i] == 0 && fp[i] == 0
  }

  lemma NoTally(files: Files, cs: seq<Claim>, tp: seq<int>, fp: seq<int>)
    requires |tp| == |fp| == |cs| && forall i :: 0 <= i < |cs| ==> tp[i] == 0 && fp[i] == 0
    ensures IsTally(files, cs, tp, fp, 0, 0) && Marked(files, files, cs, 0)
  {
  }

  lemma TallyNext(files: Files, cs: seq<Claim>, tp: seq<int>, fp: seq<int>, count: int, hit: bool, miss: bool, n: nat)
    requires IsTally(files, cs, tp, fp, count, n) && n < |cs|
    requires hit <==> IsTruePositive(files, cs, n)
    requires miss <==> !IsTruePositive(files, cs, n) && !IsIgnored(files, cs, n)
    ensures var tp', fp' := if hit then tp[n := 1] else tp, if miss then fp[n := 1] else fp;
            IsTally(files, cs, tp', fp', if hit then count + 1 else count, n + 1)
  {
    SumOfPrefix(if hit then tp[n := 1] else tp, tp, n);
  }

  /** Box k is the first of those the detection at bb overlaps most among its class, and it overlaps it enough. */
  predicate Wins(gts: seq<GroundTruth>, bb: Box, c: Setting, k: nat)
  {
    && k < |gts| && gts[k].className == c.className && c.skewiou(gts[k].bbox, bb).1 != 0.0
    && c.skewiou(gts[k].bbox, bb).0 >= c.minOverlap
    && forall j :: 0 <= j < |gts| && gts[j].className == c.className && c.skewiou(gts[j].bbox, bb).1 != 0.0 ==>
         if j < k then c.skewiou(gts[j].bbox, bb).0 < c.skewiou(gts[k].bbox, bb).0
         else c.skewiou(gts[j].bbox, bb).0 <= c.skewiou(gts[k].bbox, bb).0
  }

  lemma WinsMeans(gts: seq<GroundTruth>, bb: Box, c: Setting, k: nat)
    requires c.minOverlap > -1.0
    ensures Wins(gts, bb, c, k) <==> IsBest(gts, bb, c, k) && c.skewiou(gts[k].bbox, bb).0 >= c.minOverlap
  {
    if Wins(gts, bb, c, k) {
      assert IsCandidate(gts, bb, c, k);
    }
    if IsBest(gts, bb, c, k) && c.skewiou(gts[k].bbox, bb).0 >= c.minOverlap {
      forall j: nat | j < |gts| && gts[j].className == c.className && c.skewiou(gts[j].bbox, bb).1 != 0.0
        ensures if j < k then c.skewiou(gts[j].bbox, bb).0 < c.skewiou(gts[k].bbox, bb).0
                else c.skewiou(gts[j].bbox, bb).0 <= c.skewiou(gts[k].bbox, bb).0
      {
        assert IsCandidate(gts, bb, c, j) || c.skewiou(gts[j].bbox, bb).0 <= -1.0;
      }
    }
  }

  lemma ClaimMeans(files: Files, d: Detection, c: Setting, k: nat)
    requires d.fileId in files && c.minOverlap > -1.0
    ensures ClaimOf(files, d, c) == Claims(Target(d.fileId, k)) <==> Wins(files[d.fileId], d.bbox, c, k)
  {
    WinsMeans(files[d.fileId], d.bbox, c, k);
  }

  /** A true positive wins a box that is not difficult and that no detection ranked before it has won. */
  ghost predicate IsHit(files: Files, dets: seq<Detection>, c: Setting, i: nat, k: nat)
    requires i < |dets| && dets[i].fileId in files
  {
    && Wins(files[dets[i].fileId], dets[i].bbox, c, k) && !files[dets[i].fileId][k].difficult
    && forall j :: 0 <= j < i && dets[j].fileId == dets[i].fileId ==>
         !Wins(files[dets[i].fileId], dets[j].bbox, c, k)
  }

  lemma HitMeans(files: Files, dets: seq<Detection>, c: Setting, i: nat)
    requires c.minOverlap > -1.0 && i < |dets| && forall d :: d in dets ==> d.fileId in files
    ensures IsTruePositive(files, ClaimsOf(files, dets, c), i) <==> exists k: nat :: IsHit(files, dets, c, i, k)
  {
    var cs := ClaimsOf(files, dets, c);
    forall k: nat ensures IsHit(files, dets, c, i, k)
      <==> cs[i] == Claims(Target(dets[i].fileId, k)) && IsTruePositive(files, cs, i)
    {
      HitAt(files, dets, c, i, k);
    }
    ClaimIsInFile(files, dets[i], c);
  }

  lemma ClaimIsInFile(files: Files, d: Detection, c: Setting)
    requires d.fileId in files
    ensures ClaimOf(files, d, c) == NoClaim
         || ClaimOf(files, d, c) == Claims(Target(d.fileId, ClaimOf(files, d, c).target.index))
  {
  }

  lemma HitAt(files: Files, dets: seq<Detection>, c: Setting, i: nat, k: nat)
    requires c.minOverlap > -1.0 && i < |dets| && forall d :: d in dets ==> d.fileId in files
    ensures var cs := ClaimsOf(files, dets, c);
            IsHit(files, dets, c, i, k)
            <==> cs[i] == Claims(Target(dets[i].fileId, k)) && IsTruePositive(files, cs, i)
  {
    var cs := ClaimsOf(files, dets, c);
    ClaimMeans(files, dets[i], c, k);
    forall j | 0 <= j < i
      ensures cs[j] == Claims(Target(dets[i].fileId, k))
         <==> dets[j].fileId == dets[i].fileId && Wins(files[dets[i].fileId], dets[j].bbox, c, k)
    {
      ClaimIsInFile(files, dets[j], c);
      if dets[j].fileId == dets[i].fileId { ClaimMeans(files, dets[j], c, k); }
    }
  }

  /** A counting box is already used exactly when somebody ranked higher claims it. */
  lemma UsedMeansClaimed(start: Files, files: Files, cs: seq<Claim>, n: nat, c: Setting)
    requires Marked(start, files, cs, n) && n < |cs| && AllUnused(start, c.className)
    requires cs[n].Claims? && cs[n].target.fileId in files && cs[n].target.index < |files[cs[n].target.fileId]|
    requires files[cs[n].target.fileId][cs[n].target.index].className == c.className
    requires !files[cs[n].target.fileId][cs[n].target.index].difficult
    ensures files[cs[n].target.fileId][cs[n].target.index].used <==> !IsFirst(cs, n)
    ensures !IsDifficult(start, cs[n].target)
  {
    var f, k := cs[n].target.fileId, cs[n].target.index;
    assert start[f][k].(used := false) == files[f][k].(used := false);
    assert cs[n] in cs[..n] <==> !IsFirst(cs, n);
  }

  /** What the code looks at for detection n decides its standing. */
  lemma Verdict(start: Files, files: Files, dets: seq<Detection>, c: Setting, n: nat, ovmax: real, gtMatch: int)
    requires c.minOverlap > -1.0 && AllUnused(start, c.className) && n < |dets|
    requires forall d :: d in dets ==> d.fileId in start
    requires Marked(start, files, ClaimsOf(start, dets, c), n)
    requires var gts := files[dets[n].fileId];
             && (gtMatch == -1 ==> ovmax == -1.0 && !HasCandidate(gts, dets[n].bbox, c))
             && (gtMatch != -1 ==>
                   && gtMatch >= 0 && IsBest(gts, dets[n].bbox, c, gtMatch)
                   && ovmax == c.skewiou(gts[gtMatch].bbox, dets[n].bbox).0)
    ensures var cs, gts := ClaimsOf(start, dets, c), files[dets[n].fileId];
            if ovmax >= c.minOverlap then
              && 0 <= gtMatch < |gts| && cs[n] == Claims(Target(dets[n].fileId, gtMatch))
              && (IsIgnored(start, cs, n) <==> gts[gtMatch].difficult)
              && (IsTruePositive(start, cs, n) <==> !gts[gtMatch].difficult && !gts[gtMatch].used)
            else cs[n] == NoClaim
  {
    ClaimFound(start, files, dets[n], c, ovmax, gtMatch);
    if ovmax >= c.minOverlap && !files[dets[n].fileId][gtMatch].difficult {
      UsedMeansClaimed(start, files, ClaimsOf(start, dets, c), n, c);
    }
  }

  lemma MarkNew(start: Files, files: Files, cs: seq<Claim>, n: nat, f: string, k: nat)
    requires Marked(start, files, cs, n) && n < |cs| && cs[n] == Claims(Target(f, k))
    requires f in files && k < |files[f]| && !files[f][k].difficult
    ensures Marked(start, files[f := files[f][k := files[f][k].(used := true)]], cs, n + 1)
  {
    assert cs[..n + 1] == cs[..n] + [cs[n]];
  }

  lemma MarkNothing(start: Files, files: Files, cs: seq<Claim>, n: nat)
    requires Marked(start, files, cs, n) && n < |cs|
    requires cs[n].NoClaim? || (
      var t := cs[n].target;
      && t.fileId in files && t.index < |files[t.fileId]|
      && (files[t.fileId][t.index].difficult || files[t.fileId][t.index].used))
    ensures Marked(start, files, cs, n + 1)
  {
    assert cs[..n + 1] == cs[..n] + [cs[n]];
    if cs[n].Claims? {
      var f, k := cs[n].target.fileId, cs[n].target.index;
      assert files[f][k].difficult || files[f][k].used;
    }
  }

  lemma ClaimFound(start: Files, files: Files, d: Detection, c: Setting, ovmax: real, gtMatch: int)
    requires SameBoxes(start, files) && d.fileId in files && c.minOverlap > -1.0
    requires gtMatch == -1 ==> ovmax == -1.0 && !HasCandidate(files[d.fileId], d.bbox, c)
    requires gtMatch != -1 ==>
      && gtMatch >= 0 && IsBest(files[d.fileId], d.bbox, c, gtMatch)
      && ovmax == c.skewiou(files[d.fileId][gtMatch].bbox, d.bbox).0
    ensures ClaimOf(start, d, c) == if ovmax >= c.minOverlap then Claims(Target(d.fileId, gtMatch)) else NoClaim
    ensures ovmax >= c.minOverlap ==>
      && 0 <= gtMatch < |files[d.fileId]| && files[d.fileId][gtMatch].className == c.className
      && IsDifficult(start, Target(d.fileId, gtMatch)) == files[d.fileId][gtMatch].difficult
  {
    var gts := start[d.fileId];
    if gtMatch == -1 {
      forall k: nat ensures !IsBest(gts, d.bbox, c, k) {
        if IsBest(gts, d.bbox, c, k) {
          SameBoxesSameBest(start, files, d.fileId, d.bbox, c, k);
        }
      }
    } else {
      SameBoxesSameBest(files, start, d.fileId, d.bbox, c, gtMatch);
      ClaimOfBest(start, d, c, gtMatch);
      assert start[d.fileId][gtMatch].(used := false) == files[d.fileId][gtMatch].(used := false);
    }
  }

  // ---------- what the outcome adds up to ----------

  /** Every detection is counted once, as a hit or as a miss, unless its box is a difficult one. */
  lemma HitOrMiss(files: Files, cs: seq<Claim>, tp: seq<int>, fp: seq<int>, i: nat)
    requires Scored(files, cs, tp, fp, |cs|) && i < |cs|
    ensures tp[i] + fp[i] == if IsIgnored(files, cs, i) then 0 else 1
    ensures tp[i] in {0, 1} && fp[i] in {0, 1}
  {
  }

  /** A box is hit by the highest-ranked detection that claims it, and by no other. */
  lemma OneHitPerBox(files: Files, cs: seq<Claim>, tp: seq<int>, fp: seq<int>, i: nat, j: nat)
    requires Scored(files, cs, tp, fp, |cs|) && i < j < |cs| && cs[i] == cs[j]
    ensures tp[j] == 0
  {
    assert !IsFirst(cs, j);
  }

  ghost function HitBoxes(files: Files, cs: seq<Claim>, n: nat): set<Target>
    requires n <= |cs|
  {
    set i | 0 <= i < n && cs[i].Claims? && !IsDifficult(files, cs[i].target) :: cs[i].target
  }

  lemma {:induction false} TotalIsBoxesHit(files: Files, cs: seq<Claim>, tp: seq<int>, fp: seq<int>, n: nat)
    requires Scored(files, cs, tp, fp, |cs|) && n <= |cs|
    ensures SumTo(tp, n) == |HitBoxes(files, cs, n)|
  {
    if n > 0 {
      TotalIsBoxesHit(files, cs, tp, fp, n - 1);
      HitBoxesGrow(files, cs, n - 1);
    }
  }

  lemma HitBoxesGrow(files: Files, cs: seq<Claim>, n: nat)
    requires n < |cs|
    ensures var counts := cs[n].Claims? && !IsDifficult(files, cs[n].target);
            && HitBoxes(files, cs, n + 1) == HitBoxes(files, cs, n) + (if counts then {cs[n].target} else {})
            && (counts ==> (IsFirst(cs, n) <==> cs[n].target !in HitBoxes(files, cs, n)))
  {
    if cs[n].Claims? && !IsDifficult(files, cs[n].target) {
      if j :| 0 <= j < n && cs[j] == cs[n] {
        assert cs[j].target in HitBoxes(files, cs, n);
      }
    }
  }

  lemma ClaimedBoxesCount(files: Files, dets: seq<Detection>, c: Setting)
    requires forall d :: d in dets ==> d.fileId in files
    ensures HitBoxes(files, ClaimsOf(files, dets, c), |dets|) <= Positives(files, c.className)
  {
  }

  /** The class' hits are as many as the boxes marked used, which are boxes that count: recall is at most 1. */
  lemma HitsAreUsedBoxes(start: Files, files: Files, dets: seq<Detection>, c: Setting, tp: seq<int>, fp: seq<int>)
    requires forall d :: d in dets ==> d.fileId in start
    requires AllUnused(start, c.className)
    requires Scored(start, ClaimsOf(start, dets, c), tp, fp, |dets|)
    requires Marked(start, files, ClaimsOf(start, dets, c), |dets|)
    ensures SumTo(tp, |tp|) == |set t | t in Positives(files, c.className) && files[t.fileId][t.index].used|
    ensures SumTo(tp, |tp|) <= |Positives(start, c.className)|
  {
    var cs := ClaimsOf(start, dets, c);
    var hit := HitBoxes(start, cs, |cs|);
    var used := set t | t in Positives(files, c.className) && files[t.fileId][t.index].used;
    TotalIsBoxesHit(start, cs, tp, fp, |cs|);
    assert cs[..|cs|] == cs;
    ClaimedBoxesCount(start, dets, c);
    SubsetSize(hit, Positives(start, c.className));
    forall t ensures t in hit <==> t in used {
      HitIffUsed(start, files, cs, c.className, t);
    }
    assert hit == used;
  }

  lemma HitIffUsed(start: Files, files: Files, cs: seq<Claim>, className: string, t: Target)
    requires AllUnused(start, className) && Marked(start, files, cs, |cs|)
    requires HitBoxes(start, cs, |cs|) <= Positives(start, className)
    ensures t in HitBoxes(start, cs, |cs|) <==> t in Positives(files, className) && files[t.fileId][t.index].used
  {
    assert cs[..|cs|] == cs;
    if t.fileId in files && t.index < |files[t.fileId]| {
      assert start[t.fileId][t.index].(used := false) == files[t.fileId][t.index].(used := false);
      assert Claims(t) == Claims(Target(t.fileId, t.index));
      assert files[t.fileId][t.index].used <==>
        start[t.fileId][t.index].used || (!files[t.fileId][t.index].difficult && Claims(t) in cs);
    } else {
      assert t !in Positives(start, className);
    }
  }

  /** Evaluating one class leaves the flags of every other class as they were. */
  lemma OtherClassesUntouched(start: Files, files: Files, dets: seq<Detection>, c: Setting, other: string)
    requires forall d :: d in dets ==> d.fileId in start
    requires Marked(start, files, ClaimsOf(start, dets, c), |dets|)
    requires other != c.className
    ensures forall f, k :: f in files && 0 <= k < |files[f]| && files[f][k].className == other ==>
      (files[f][k].used <==> start[f][k].used)
    ensures AllUnused(files, other) <==> AllUnused(start, other)
  {
    forall f, k | f in files && 0 <= k < |files[f]| && files[f][k].className == other
      ensures files[f][k].used <==> start[f][k].used
    {
      assert start[f][k].(used := false) == files[f][k].(used := false);
      assert Claims(Target(f, k)) !in ClaimsOf(start, dets, c);
    }
    forall f, k | f in start && 0 <= k < |start[f]| && start[f][k].className == other
      ensures files[f][k].className == other
    {
      assert start[f][k].(used := false) == files[f][k].(used := false);
    }
  }

  lemma SubsetSize<T>(a: set<T>, b: set<T>)
    requires a <= b
    ensures |a| <= |b|
  {
    assert b == a + (b - a);
  }
}
