/**
  models/losses.py, `IntegratedLoss.forward`: which anchors learn which class. The overlaps are a
  matrix with a row per anchor and a column per ground-truth box; the indices of the maxima are
  parameters, since torch leaves the choice between equal values open.
*/
module Targets {

  ghost predicate IsMatrix(ious: seq<seq<real>>, gts: nat)
  {
    |ious| > 0 && gts > 0 && forall i :: 0 <= i < |ious| ==> |ious[i]| == gts
  }

  ghost predicate IsRowMax(row: seq<real>, k: nat)
  {
    k < |row| && forall g :: 0 <= g < |row| ==> row[g] <= row[k]
  }

  /** best[i] is a column where row i has its maximum. */
  ghost predicate AreRowMaxima(ious: seq<seq<real>>, gts: nat, best: seq<nat>)
    requires IsMatrix(ious, gts)
  {
    |best| == |ious| && forall i :: 0 <= i < |ious| ==> IsRowMax(ious[i], best[i])
  }

  /** best[g] is a row where column g has its maximum. */
  ghost predicate AreColumnMaxima(ious: seq<seq<real>>, gts: nat, best: seq<nat>)
    requires IsMatrix(ious, gts)
  {
    && |best| == gts
    && (forall g :: 0 <= g < gts ==> best[g] < |ious|)
    && forall i, g :: 0 <= i < |ious| && 0 <= g < gts ==> ious[i][g] <= ious[best[g]][g]
  }

  datatype Problem = Problem(ious: seq<seq<real>>, labels: seq<int>, classes: nat, thres: real, iouArgmax: seq<nat>,
                             argmaxGt: seq<nat>) {
    ghost predicate Valid()
    {
      && IsMatrix(ious, |labels|)
      && AreRowMaxima(ious, |labels|, iouArgmax)
      && AreColumnMaxima(ious, |labels|, argmaxGt)
      && forall g :: 0 <= g < |labels| ==> 0 <= labels[g] < classes
    }

    function IouMax(i: nat): real
      requires Valid() && i < |ious|
    {
      ious[i][iouArgmax[i]]
    }

    function MaxGt(g: nat): real
      requires Valid() && g < |labels|
    {
      ious[argmaxGt[g]][g]
    }

    function Label(i: nat): int
      requires Valid() && i < |ious|
    {
      labels[iouArgmax[i]]
    }

    /** Chosen although below the threshold, for the sake of a box that no anchor overlaps enough. */
    ghost predicate IsForced(i: nat)
      requires Valid()
    {
      exists g: nat :: g < |labels| && argmaxGt[g] == i && MaxGt(g) < thres
    }

    ghost predicate IsPositive(i: nat)
      requires Valid() && i < |ious|
    {
      IouMax(i) >= thres || IsForced(i)
    }
  }

  ghost predicate RowIs(targets: array2<int>, i: nat, value: int)
    requires i < targets.Length0
    reads targets
  {
    forall c :: 0 <= c < targets.Length1 ==> targets[i, c] == value
  }

  ghost predicate RowIsOneHot(targets: array2<int>, i: nat, hot: int)
    requires i < targets.Length0
    reads targets
  {
    forall c :: 0 <= c < targets.Length1 ==> targets[i, c] == if c == hot then 1 else 0
  }

  /** Every row is what its anchor's standing asks for. */
  ghost predicate Assigned(p: Problem, positive: array<bool>, targets: array2<int>)
    requires p.Valid()
    reads positive, targets
  {
    && positive.Length == targets.Length0 == |p.ious| && targets.Length1 == p.classes
    && (forall i: nat :: i < |p.ious| ==> (positive[i] <==> p.IsPositive(i)))
    && forall i: nat :: i < |p.ious| ==>
         if p.IsPositive(i) then RowIsOneHot(targets, i, p.Label(i))
         else if p.IouMax(i) < p.thres - 0.1 then RowIs(targets, i, 0)
         else RowIs(targets, i, -1)
  }

  method AssignTargets(p: Problem) returns (positive: array<bool>, targets: array2<int>)
    requires p.Valid()
    ensures fresh(positive) && fresh(targets) && Assigned(p, positive, targets)
    ensures forall i: nat :: i < |p.ious| ==> RowFollows(p, targets, i)
  {
    positive := PositiveIndices(p);
    targets := WriteRows(p, positive);
    forall i: nat | i < |p.ious| ensures RowFollows(p, targets, i) {
      AssignedFollows(p, positive, targets, i);
    }
  }

  method WriteRows(p: Problem, positive: array<bool>) returns (targets: array2<int>)
    requires p.Valid() && positive.Length == |p.ious|
    requires forall i: nat :: i < |p.ious| ==> (positive[i] <==> p.IsPositive(i))
    ensures fresh(targets) && Assigned(p, positive, targets)
  {
    var n, C := |p.ious|, p.classes;
    targets := new int[n, C]((i, c) => -1);
    forall i, c | 0 <= i < n && 0 <= c < C && p.IouMax(i) < p.thres - 0.1 {
      targets[i, c] := 0;
    }
    forall i, c | 0 <= i < n && 0 <= c < C && positive[i] {
      targets[i, c] := 0;
    }
    forall i | 0 <= i < n && positive[i] {
      targets[i, p.Label(i)] := 1;
    }
  }

  /** Row i in terms of the overlaps. */
  ghost predicate RowFollows(p: Problem, targets: array2<int>, i: nat)
    requires p.Valid() && i < |p.ious| && i < targets.Length0
    reads targets
  {
    if (exists g: nat :: g < |p.labels| && p.ious[i][g] >= p.thres) || SavesABox(p, i) then
      exists k: nat :: IsRowMax(p.ious[i], k) && k == p.iouArgmax[i] && RowIsOneHot(targets, i, p.labels[k])
    else if forall g: nat :: g < |p.labels| ==> p.ious[i][g] < p.thres - 0.1 then
      RowIs(targets, i, 0)
    else
      RowIs(targets, i, -1)
  }

  /** Anchor i is the best one of a box that no anchor overlaps enough. */
  ghost predicate SavesABox(p: Problem, i: nat)
    requires p.Valid()
  {
    exists g: nat :: g < |p.labels| && p.argmaxGt[g] == i && forall k :: 0 <= k < |p.ious| ==> p.ious[k][g] < p.thres
  }

  lemma MaximaMean(p: Problem, i: nat)
    requires p.Valid() && i < |p.ious|
    ensures p.IouMax(i) >= p.thres <==> exists g: nat :: g < |p.labels| && p.ious[i][g] >= p.thres
    ensures p.IouMax(i) < p.thres - 0.1 <==> forall g: nat :: g < |p.labels| ==> p.ious[i][g] < p.thres - 0.1
    ensures p.IsForced(i) <==> SavesABox(p, i)
  {
    assert IsRowMax(p.ious[i], p.iouArgmax[i]);
    if p.IsForced(i) {
      var g: nat :| g < |p.labels| && p.argmaxGt[g] == i && p.MaxGt(g) < p.thres;
      forall k | 0 <= k < |p.ious| ensures p.ious[k][g] < p.thres {
        assert p.ious[k][g] <= p.MaxGt(g);
      }
    }
  }

  lemma AssignedFollows(p: Problem, positive: array<bool>, targets: array2<int>, i: nat)
    requires p.Valid() && Assigned(p, positive, targets) && i < |p.ious|
    ensures RowFollows(p, targets, i)
  {
    MaximaMean(p, i);
    assert IsRowMax(p.ious[i], p.iouArgmax[i]);
  }

  method PositiveIndices(p: Problem) returns (positive: array<bool>)
    requires p.Valid()
    ensures fresh(positive) && positive.Length == |p.ious|
    ensures forall i: nat :: i < |p.ious| ==> (positive[i] <==> p.IsPositive(i))
  {
    positive := new bool[|p.ious|](i requires 0 <= i < |p.ious| => p.IouMax(i) >= p.thres);
    for g := 0 to |p.labels|
      invariant forall i: nat :: i < |p.ious| ==>
        (positive[i] <==>
          p.IouMax(i) >= p.thres || exists h: nat :: h < g && p.argmaxGt[h] == i && p.MaxGt(h) < p.thres)
    {
      if p.MaxGt(g) < p.thres {
        positive[p.argmaxGt[g]] := true;
      }
    }
  }

  /** Every ground-truth box has a positive anchor: its best one, however small the overlap. */
  lemma BestAnchorIsPositive(p: Problem, g: nat)
    requires p.Valid() && g < |p.labels|
    ensures p.IsPositive(p.argmaxGt[g])
  {
    var i := p.argmaxGt[g];
    assert IsRowMax(p.ious[i], p.iouArgmax[i]);
    assert p.ious[i][g] <= p.IouMax(i);
  }

  /** A row shows its anchor's standing: all -1, all 0 and one-hot exclude one another. */
  lemma RowsAreDistinct(p: Problem, positive: array<bool>, targets: array2<int>, i: nat)
    requires p.Valid() && Assigned(p, positive, targets) && i < |p.ious|
    ensures RowIs(targets, i, -1) || RowIs(targets, i, 0) || RowIsOneHot(targets, i, p.Label(i))
    ensures RowIsOneHot(targets, i, p.Label(i)) <==> positive[i]
    ensures RowIs(targets, i, 0) <==> !positive[i] && p.IouMax(i) < p.thres - 0.1
    ensures RowIs(targets, i, -1) <==> !positive[i] && p.thres - 0.1 <= p.IouMax(i) < p.thres
  {
    assert 0 <= p.Label(i) < p.classes;
    assert targets[i, p.Label(i)] == 1 <==> positive[i];
    assert targets[i, p.Label(i)] == -1 <==> !positive[i] && p.IouMax(i) >= p.thres - 0.1;
  }

  /** It learns that box's class if the box is also the one it overlaps most. */
  lemma BestAnchorLearnsItsBox(p: Problem, g: nat)
    requires p.Valid() && g < |p.labels|
    requires forall h :: 0 <= h < |p.labels| && h != g ==> p.ious[p.argmaxGt[g]][h] < p.MaxGt(g)
    ensures p.IsPositive(p.argmaxGt[g]) && p.Label(p.argmaxGt[g]) == p.labels[g]
  {
    BestAnchorIsPositive(p, g);
    var i := p.argmaxGt[g];
    assert IsRowMax(p.ious[i], p.iouArgmax[i]);
    assert p.ious[i][g] <= p.ious[i][p.iouArgmax[i]];
  }

  /**
    Which box's class the best anchor of a box learns is left to the choice among its row's maxima. It is the box's
    own class for every choice exactly if all columns in which the row has its maximum carry that class.
  */
  lemma BestAnchorLearnsClass(p: Problem, g: nat)
    requires p.Valid() && g < |p.labels|
    ensures var i := p.argmaxGt[g];
            (forall best: seq<nat> :: AreRowMaxima(p.ious, |p.labels|, best) ==> LearnsWith(p, best, i, p.labels[g]))
            <==> forall h: nat :: IsRowMax(p.ious[i], h) ==> p.labels[h] == p.labels[g]
  {
    var i := p.argmaxGt[g];
    forall h: nat | IsRowMax(p.ious[i], h) ensures LearnsWith(p, p.iouArgmax[i := h], i, p.labels[h]) {
      BestAnchorIsPositive(p.(iouArgmax := p.iouArgmax[i := h]), g);
    }
    forall best: seq<nat> | AreRowMaxima(p.ious, |p.labels|, best) ensures LearnsWith(p, best, i, p.labels[best[i]]) {
      BestAnchorIsPositive(p.(iouArgmax := best), g);
    }
  }

  /** With these choices among the maxima, anchor i is positive and learns the class. */
  ghost predicate LearnsWith(p: Problem, best: seq<nat>, i: nat, cls: int)
    requires p.Valid() && i < |p.ious|
  {
    var q := p.(iouArgmax := best);
    q.Valid() && q.IsPositive(i) && q.Label(i) == cls
  }
}
