/**
  Choosing the best checkpoint in the epoch loop of train.py. What `evaluate` returns for an epoch is a
  parameter, so the results hold for every run; metrics are exact reals.
*/
module BestCheckpoint {
  import opened Options

  datatype Metrics = Metrics(p: real, r: real, mAP: real, f1: real, miou: real, dice: real)

  datatype Record = Record(score: real, epoch: int, results: Option<Metrics>, map50: real, miou: real, dice: real)

  datatype Checkpoint = Checkpoint(epoch: int, fitness: real, bestEpoch: int, bestResults: Option<Metrics>)

  const NO_RECORD := Record(-1.0, -1, None, -1.0, -1.0, -1.0)

  // ---------- what a best epoch is ----------

  predicate LexGreater(a: seq<real>, b: seq<real>)
    requires |a| == |b|
  {
    a != [] && (a[0] > b[0] || (a[0] == b[0] && LexGreater(a[1..], b[1..])))
  }

  lemma {:induction false} LexTotal(a: seq<real>, b: seq<real>)
    requires |a| == |b|
    ensures LexGreater(a, b) || LexGreater(b, a) || a == b
    ensures !(LexGreater(a, b) && LexGreater(b, a))
    ensures a == b ==> !LexGreater(a, b)
  {
    if a != [] {
      LexTotal(a[1..], b[1..]);
      assert a == [a[0]] + a[1..] && b == [b[0]] + b[1..];
    }
  }

  lemma {:induction false} LexTransitive(a: seq<real>, b: seq<real>, c: seq<real>)
    requires |a| == |b| == |c|
    requires !LexGreater(b, a) && !LexGreater(c, b)
    ensures !LexGreater(c, a)
    ensures LexGreater(a, b) || LexGreater(b, c) ==> LexGreater(a, c)
  {
    if a != [] {
      LexTotal(a, b);
      LexTotal(b, c);
      if a[0] == b[0] == c[0] { LexTransitive(a[1..], b[1..], c[1..]); }
    }
  }

  type Key = s: seq<real> | |s| == 4 witness [0.0, 0.0, 0.0, 0.0]

  /** What epochs are compared by: mIoU + Dice, then mIoU, Dice and mAP. */
  function KeyOf(m: Metrics): Key { [m.miou + m.dice, m.miou, m.dice, m.mAP] }

  function RecordKey(r: Record): Key { [r.score, r.miou, r.dice, r.map50] }

  /** The check the loop makes, in its own order. */
  predicate IsBetter(m: Metrics, best: Record)
  {
    var score := m.miou + m.dice;
    if score > best.score then true
    else if score == best.score then
      if m.miou > best.miou then true
      else if m.miou == best.miou && m.dice > best.dice then true
      else m.miou == best.miou && m.dice == best.dice && m.mAP > best.map50
    else false
  }

  lemma BetterIsLexicographic(m: Metrics, best: Record)
    ensures IsBetter(m, best) <==> LexGreater(KeyOf(m), RecordKey(best))
  {
    var a, b := KeyOf(m), RecordKey(best);
    LexUnfold(a, b);
    LexUnfold(a[1..], b[1..]);
    LexUnfold(a[2..], b[2..]);
    LexUnfold(a[3..], b[3..]);
  }

  lemma LexUnfold(a: seq<real>, b: seq<real>)
    requires |a| == |b| > 0
    ensures LexGreater(a, b) <==> a[0] > b[0] || (a[0] == b[0] && LexGreater(a[1..], b[1..]))
    ensures forall k :: 0 < k < |a| ==> a[1..][k - 1] == a[k] && b[1..][k - 1] == b[k]
  {
  }

  /** Between two epochs Dice never decides: equal sums and equal mIoU leave no room for it. */
  lemma DiceNeverDecides(m: Metrics, n: Metrics)
    ensures LexGreater(KeyOf(m), KeyOf(n))
       <==> LexGreater([m.miou + m.dice, m.miou, m.mAP], [n.miou + n.dice, n.miou, n.mAP])
  {
    var r := Record(n.miou + n.dice, 0, None, n.mAP, n.miou, n.dice);
    BetterIsLexicographic(m, r);
    var a, b := [m.miou + m.dice, m.miou, m.mAP], [n.miou + n.dice, n.miou, n.mAP];
    LexUnfold(a, b);
    LexUnfold(a[1..], b[1..]);
    LexUnfold(a[2..], b[2..]);
  }

  predicate Evaluated(interval: int, epoch: int)
    requires interval != 0
  {
    interval != -1 && epoch % interval == 0 && epoch > 5
  }

  /** Metrics that can become a record at all: those that beat the values the record starts from. */
  predicate Eligible(m: Metrics) { LexGreater(KeyOf(m), RecordKey(NO_RECORD)) }

  lemma EligibleMeans(m: Metrics)
    ensures Eligible(m) <==> m.miou + m.dice > -1.0 || (m.miou + m.dice == -1.0 && m.miou >= -1.0)
    ensures m.miou >= 0.0 && m.dice >= 0.0 ==> Eligible(m)
  {
    BetterIsLexicographic(m, NO_RECORD);
  }

  /** Among the evaluated epochs of [start, end), e is the first one nobody beats. */
  predicate IsBest(evaluate: int -> Metrics, interval: int, start: int, end: int, e: int)
    requires interval != 0
  {
    && start <= e < end && Evaluated(interval, e) && Eligible(evaluate(e))
    && (forall k :: start <= k < end && Evaluated(interval, k) ==> !LexGreater(KeyOf(evaluate(k)), KeyOf(evaluate(e))))
    && (forall k :: start <= k < e && Evaluated(interval, k) ==> LexGreater(KeyOf(evaluate(e)), KeyOf(evaluate(k))))
  }

  predicate NothingEligible(evaluate: int -> Metrics, interval: int, start: int, end: int)
    requires interval != 0
  {
    forall k :: start <= k < end && Evaluated(interval, k) ==> !Eligible(evaluate(k))
  }

  lemma BestIsUnique(evaluate: int -> Metrics, interval: int, start: int, end: int, e: int, f: int)
    requires interval != 0
    requires IsBest(evaluate, interval, start, end, e) && IsBest(evaluate, interval, start, end, f)
    ensures e == f
  {
  }

  /** The record that holds after the epochs of [start, end). */
  predicate IsRecord(best: Record, evaluate: int -> Metrics, interval: int, start: int, end: int)
    requires interval != 0
  {
    if best.epoch == -1 then best == NO_RECORD && NothingEligible(evaluate, interval, start, end)
    else
      && IsBest(evaluate, interval, start, end, best.epoch)
      && best.results == Some(evaluate(best.epoch)) && RecordKey(best) == KeyOf(evaluate(best.epoch))
  }

  // ---------- one epoch ----------

  function RecordOf(m: Metrics, epoch: int): Record { Record(m.miou + m.dice, epoch, Some(m), m.mAP, m.miou, m.dice) }

  lemma SkippedEpoch(best: Record, evaluate: int -> Metrics, interval: int, start: int, end: int)
    requires interval != 0 && start <= end && IsRecord(best, evaluate, interval, start, end)
    requires !Evaluated(interval, end)
    ensures IsRecord(best, evaluate, interval, start, end + 1)
    ensures !IsBest(evaluate, interval, start, end + 1, end)
  {
  }

  lemma NewBest(best: Record, evaluate: int -> Metrics, interval: int, start: int, end: int)
    requires interval != 0 && start <= end && IsRecord(best, evaluate, interval, start, end)
    requires Evaluated(interval, end) && LexGreater(KeyOf(evaluate(end)), RecordKey(best))
    ensures IsBest(evaluate, interval, start, end + 1, end)
    ensures IsRecord(RecordOf(evaluate(end), end), evaluate, interval, start, end + 1)
  {
    var top := RecordKey(best);
    var newKey := KeyOf(evaluate(end));
    LexTotal(newKey, top);
    LexTotal(newKey, newKey);
    BelowRecord(best, evaluate, interval, start, end);
    forall k | start <= k < end && Evaluated(interval, k)
      ensures LexGreater(newKey, KeyOf(evaluate(k))) && !LexGreater(KeyOf(evaluate(k)), newKey)
    {
      LexTransitive(newKey, top, KeyOf(evaluate(k)));
    }
    LexTransitive(newKey, top, RecordKey(NO_RECORD));
  }

  /** No evaluated epoch beats the record, and the record never falls below where it started. */
  lemma BelowRecord(best: Record, evaluate: int -> Metrics, interval: int, start: int, end: int)
    requires interval != 0 && IsRecord(best, evaluate, interval, start, end)
    ensures forall k :: start <= k < end && Evaluated(interval, k) ==> !LexGreater(KeyOf(evaluate(k)), RecordKey(best))
    ensures !LexGreater(RecordKey(NO_RECORD), RecordKey(best))
  {
    LexTotal(RecordKey(NO_RECORD), RecordKey(best));
  }

  lemma OldBest(best: Record, evaluate: int -> Metrics, interval: int, start: int, end: int)
    requires interval != 0 && start <= end && IsRecord(best, evaluate, interval, start, end)
    requires Evaluated(interval, end) && !LexGreater(KeyOf(evaluate(end)), RecordKey(best))
    ensures IsRecord(best, evaluate, interval, start, end + 1)
    ensures !IsBest(evaluate, interval, start, end + 1, end)
  {
    if best.epoch != -1 {
      assert !LexGreater(KeyOf(evaluate(end)), KeyOf(evaluate(best.epoch)));
    }
  }

  // ---------- the run ----------

  /** The epochs at which best.pth is written: those that are the best so far when they end. */
  predicate IsWriteLog(writes: seq<int>, evaluate: int -> Metrics, interval: int, start: int, end: int)
    requires interval != 0
  {
    && (forall i :: 0 <= i < |writes| ==> start <= writes[i] < end)
    && (forall i, j :: 0 <= i < j < |writes| ==> writes[i] < writes[j])
    && (forall e :: start <= e < end ==> (e in writes <==> IsBest(evaluate, interval, start, e + 1, e)))
  }

  lemma WriteLogNext(writes: seq<int>, evaluate: int -> Metrics, interval: int, start: int, end: int)
    requires interval != 0 && start <= end
    requires IsWriteLog(writes, evaluate, interval, start, end) && IsBest(evaluate, interval, start, end + 1, end)
    ensures IsWriteLog(writes + [end], evaluate, interval, start, end + 1)
  {
  }

  /** What best.pth holds: the weights of the record's epoch, or what it held before the run. */
  predicate IsBestFile(file: Option<Checkpoint>, before: Option<Checkpoint>, best: Record)
  {
    if best.epoch == -1 then file == before
    else file == Some(Checkpoint(best.epoch, best.score, best.epoch, best.results))
  }

  method Train(start: nat, epochs: nat, interval: int, evaluate: int -> Metrics, fitness: real,
               before: Option<Checkpoint>)
    returns (best: Record, bestFile: Option<Checkpoint>, lastFile: Option<Checkpoint>, writes: seq<int>)
    requires interval != 0
    ensures IsRecord(best, evaluate, interval, start, epochs)
    ensures IsFirstMaximum(best, evaluate, interval, start, epochs)
    ensures IsWriteLog(writes, evaluate, interval, start, epochs)
    ensures IsBestFile(bestFile, before, best)
    ensures if start < epochs then lastFile.Some? && lastFile.value.epoch == epochs - 1 else lastFile.None?
    ensures lastFile.Some? ==> lastFile.value.bestEpoch == best.epoch && lastFile.value.bestResults == best.results
  {
    best, bestFile, lastFile, writes := NO_RECORD, before, None, [];
    var bestFitness := fitness;
    var epoch := start;
    while epoch < epochs
      invariant epoch == start || start < epoch <= epochs
      invariant IsRecord(best, evaluate, interval, start, epoch)
      invariant IsWriteLog(writes, evaluate, interval, start, epoch)
      invariant IsBestFile(bestFile, before, best)
      invariant lastFile ==
        if epoch == start then None else Some(Checkpoint(epoch - 1, bestFitness, best.epoch, best.results))
    {
      var isBest := false;
      if Evaluated(interval, epoch) {
        var results := evaluate(epoch);
        isBest := IsBetter(results, best);
        BetterIsLexicographic(results, best);
        if isBest {
          NewBest(best, evaluate, interval, start, epoch);
          best := RecordOf(results, epoch);
          bestFitness := best.score;
        } else {
          OldBest(best, evaluate, interval, start, epoch);
        }
      } else {
        SkippedEpoch(best, evaluate, interval, start, epoch);
      }
      var chkpt := Checkpoint(epoch, bestFitness, best.epoch, best.results);
      lastFile := Some(chkpt);
      if isBest {
        bestFile := Some(chkpt);
        WriteLogNext(writes, evaluate, interval, start, epoch);
        writes := writes + [epoch];
      }
      epoch := epoch + 1;
    }
    RecordIsFirstMaximum(best, evaluate, interval, start, epochs);
  }

  /** With non-negative metrics there is a record as soon as an epoch has been evaluated. */
  lemma RecordExists(best: Record, evaluate: int -> Metrics, interval: int, start: int, end: int)
    requires interval != 0 && start <= end && IsRecord(best, evaluate, interval, start, end)
    requires forall k :: start <= k < end ==> evaluate(k).miou >= 0.0 && evaluate(k).dice >= 0.0
    ensures best.epoch != -1 <==> exists k :: start <= k < end && Evaluated(interval, k)
  {
    forall k | start <= k < end ensures Eligible(evaluate(k)) { EligibleMeans(evaluate(k)); }
  }

  // ---------- a run that is interrupted and resumed ----------

  /** The best epoch of two stretches together is that of one of them, the later one only if it beats the earlier. */
  lemma BestOfBoth(evaluate: int -> Metrics, interval: int, start: int, cut: int, end: int, a: int, b: int)
    requires interval != 0
    requires IsBest(evaluate, interval, start, cut, a) && IsBest(evaluate, interval, cut, end, b)
    ensures IsBest(evaluate, interval, start, end, if LexGreater(KeyOf(evaluate(b)), KeyOf(evaluate(a))) then b else a)
  {
    var ka, kb := KeyOf(evaluate(a)), KeyOf(evaluate(b));
    LexTotal(ka, kb);
    if LexGreater(kb, ka) {
      forall k | start <= k < cut && Evaluated(interval, k)
        ensures LexGreater(kb, KeyOf(evaluate(k))) && !LexGreater(KeyOf(evaluate(k)), kb)
      {
        LexTransitive(kb, ka, KeyOf(evaluate(k)));
        LexTotal(kb, KeyOf(evaluate(k)));
      }
    } else {
      forall k | cut <= k < end && Evaluated(interval, k) ensures !LexGreater(KeyOf(evaluate(k)), ka) {
        LexTransitive(ka, kb, KeyOf(evaluate(k)));
      }
    }
  }

  /** What no record has against it: an epoch that is not eligible beats no eligible one. */
  lemma IneligibleLoses(m: Metrics, n: Metrics)
    requires !Eligible(m) && Eligible(n)
    ensures LexGreater(KeyOf(n), KeyOf(m)) && !LexGreater(KeyOf(m), KeyOf(n))
  {
    LexTotal(KeyOf(n), RecordKey(NO_RECORD));
    LexTransitive(KeyOf(n), RecordKey(NO_RECORD), KeyOf(m));
    LexTotal(KeyOf(n), KeyOf(m));
  }

  /** Which of the two stretches' records is the record of both. */
  predicate LaterWins(r1: Record, r2: Record, evaluate: int -> Metrics)
  {
    r2.epoch != -1 && (r1.epoch == -1 || LexGreater(KeyOf(evaluate(r2.epoch)), KeyOf(evaluate(r1.epoch))))
  }

  lemma ResumedRecord(evaluate: int -> Metrics, interval: int, start: int, cut: int, end: int, r1: Record, r2: Record)
    requires interval != 0 && start <= cut <= end
    requires IsRecord(r1, evaluate, interval, start, cut) && IsRecord(r2, evaluate, interval, cut, end)
    ensures IsRecord(if LaterWins(r1, r2, evaluate) then r2 else r1, evaluate, interval, start, end)
  {
    if r1.epoch != -1 && r2.epoch != -1 {
      BestOfBoth(evaluate, interval, start, cut, end, r1.epoch, r2.epoch);
    } else if r1.epoch != -1 {
      forall k | cut <= k < end && Evaluated(interval, k)
        ensures !LexGreater(KeyOf(evaluate(k)), KeyOf(evaluate(r1.epoch)))
      {
        IneligibleLoses(evaluate(k), evaluate(r1.epoch));
      }
    } else if r2.epoch != -1 {
      forall k | start <= k < cut && Evaluated(interval, k)
        ensures !LexGreater(KeyOf(evaluate(k)), KeyOf(evaluate(r2.epoch)))
        ensures LexGreater(KeyOf(evaluate(r2.epoch)), KeyOf(evaluate(k)))
      {
        IneligibleLoses(evaluate(k), evaluate(r2.epoch));
      }
    }
  }

  // ---------- what the record is, in terms of the metrics ----------

  /** Epoch e has better metrics than k, or equally good ones and is no later. */
  predicate Precedes(evaluate: int -> Metrics, e: int, k: int)
  {
    var m, n := evaluate(e), evaluate(k);
    || m.miou + m.dice > n.miou + n.dice
    || (m.miou + m.dice == n.miou + n.dice
        && (m.miou > n.miou || (m.miou == n.miou && (m.mAP > n.mAP || (m.mAP == n.mAP && e <= k)))))
  }

  /** Of the epochs above 5 that are multiples of the interval, the record is the best, the first if several are. */
  ghost predicate IsFirstMaximum(best: Record, evaluate: int -> Metrics, interval: int, start: int, end: int)
    requires interval != 0
  {
    if best.epoch == -1 then
      forall k :: start <= k < end && k > 5 && interval != -1 && k % interval == 0 ==>
        evaluate(k).miou + evaluate(k).dice <= -1.0
    else
      && start <= best.epoch < end && best.epoch > 5 && interval != -1 && best.epoch % interval == 0
      && best.results == Some(evaluate(best.epoch))
      && forall k :: start <= k < end && k > 5 && k % interval == 0 ==> Precedes(evaluate, best.epoch, k)
  }

  lemma KeyOrder(evaluate: int -> Metrics, e: int, k: int)
    requires !LexGreater(KeyOf(evaluate(k)), KeyOf(evaluate(e)))
    requires k < e ==> LexGreater(KeyOf(evaluate(e)), KeyOf(evaluate(k)))
    ensures Precedes(evaluate, e, k)
  {
    var m, n := evaluate(e), evaluate(k);
    BetterIsLexicographic(n, RecordOf(m, e));
    BetterIsLexicographic(m, RecordOf(n, k));
  }

  lemma RecordIsFirstMaximum(best: Record, evaluate: int -> Metrics, interval: int, start: int, end: int)
    requires interval != 0 && IsRecord(best, evaluate, interval, start, end)
    ensures IsFirstMaximum(best, evaluate, interval, start, end)
  {
    forall k | start <= k < end && k > 5 && interval != -1 && k % interval == 0
      ensures if best.epoch == -1 then evaluate(k).miou + evaluate(k).dice <= -1.0
              else Precedes(evaluate, best.epoch, k)
    {
      assert Evaluated(interval, k);
      EligibleMeans(evaluate(k));
      if best.epoch != -1 { KeyOrder(evaluate, best.epoch, k); }
    }
  }

  /** A run has one record. */
  lemma RecordIsUnique(r: Record, q: Record, evaluate: int -> Metrics, interval: int, start: int, end: int)
    requires interval != 0 && start >= 0
    requires IsRecord(r, evaluate, interval, start, end) && IsRecord(q, evaluate, interval, start, end)
    ensures r == q
  {
    if r.epoch != -1 && q.epoch != -1 {
      BestIsUnique(evaluate, interval, start, end, r.epoch, q.epoch);
      assert RecordKey(r)[0] == RecordKey(q)[0] && RecordKey(r)[1] == RecordKey(q)[1];
      assert RecordKey(r)[2] == RecordKey(q)[2] && RecordKey(r)[3] == RecordKey(q)[3];
    }
  }

  /** best.pth is kept correctly unless both stretches have a record and the later does not beat the earlier. */
  predicate ResumeKeepsBest(r1: Record, r2: Record, evaluate: int -> Metrics)
  {
    r1.epoch == -1 || r2.epoch == -1 || LexGreater(KeyOf(evaluate(r2.epoch)), KeyOf(evaluate(r1.epoch)))
  }

  lemma ResumedFile(evaluate: int -> Metrics, interval: int, start: int, cut: int, end: int,
                    r1: Record, r2: Record, r: Record,
                    before: Option<Checkpoint>, file1: Option<Checkpoint>, file2: Option<Checkpoint>,
                    file: Option<Checkpoint>)
    requires interval != 0 && 0 <= start <= cut <= end
    requires IsRecord(r1, evaluate, interval, start, cut) && IsBestFile(file1, before, r1)
    requires IsRecord(r2, evaluate, interval, cut, end) && IsBestFile(file2, file1, r2)
    requires IsRecord(r, evaluate, interval, start, end) && IsBestFile(file, before, r)
    ensures file2 == file <==> ResumeKeepsBest(r1, r2, evaluate)
  {
    ResumedRecord(evaluate, interval, start, cut, end, r1, r2);
    RecordIsUnique(r, if LaterWins(r1, r2, evaluate) then r2 else r1, evaluate, interval, start, end);
  }

  /**
    A resumed run starts from an empty record, at the epoch after the last one saved. It leaves in best.pth what
    the uninterrupted run would have left exactly if one of the two parts has no record or the later beats the earlier.
  */
  method TrainInTwoParts(start: nat, cut: nat, end: nat, interval: int, evaluate: int -> Metrics,
                         fitness: real, before: Option<Checkpoint>)
    returns (resumed: Option<Checkpoint>, whole: Option<Checkpoint>, r1: Record, r2: Record)
    requires interval != 0 && start < cut <= end
    ensures IsRecord(r1, evaluate, interval, start, cut) && IsRecord(r2, evaluate, interval, cut, end)
    ensures resumed == whole <==> ResumeKeepsBest(r1, r2, evaluate)
  {
    var file1, last1, writes1, last2, writes2, r, last, writes;
    r1, file1, last1, writes1 := Train(start, cut, interval, evaluate, fitness, before);
    r2, resumed, last2, writes2 := Train(last1.value.epoch + 1, end, interval, evaluate, last1.value.fitness, file1);
    r, whole, last, writes := Train(start, end, interval, evaluate, fitness, before);
    ResumedFile(evaluate, interval, start, cut, end, r1, r2, r, before, file1, resumed, whole);
  }

  /** Metrics of an example run: everything at epoch 6, nothing at any other. */
  function ExampleMetrics(epoch: int): Metrics
  {
    if epoch == 6 then Metrics(1.0, 1.0, 1.0, 1.0, 1.0, 1.0) else Metrics(0.0, 0.0, 0.0, 0.0, 0.0, 0.0)
  }

  lemma ExampleBest()
    ensures IsBest(ExampleMetrics, 1, 0, 7, 6) && IsBest(ExampleMetrics, 1, 7, 8, 7)
    ensures IsBest(ExampleMetrics, 1, 0, 8, 6)
    ensures !LexGreater(KeyOf(ExampleMetrics(7)), KeyOf(ExampleMetrics(6)))
  {
    EligibleMeans(ExampleMetrics(6));
    EligibleMeans(ExampleMetrics(7));
    LexTotal(KeyOf(ExampleMetrics(6)), KeyOf(ExampleMetrics(7)));
    LexUnfold(KeyOf(ExampleMetrics(6)), KeyOf(ExampleMetrics(7)));
    LexTotal(KeyOf(ExampleMetrics(6)), KeyOf(ExampleMetrics(6)));
    LexTotal(KeyOf(ExampleMetrics(7)), KeyOf(ExampleMetrics(7)));
    BestOfBoth(ExampleMetrics, 1, 0, 7, 8, 6, 7);
  }

  /** Saved at epoch 6, resumed at epoch 7, and the best checkpoint of the run is overwritten by the worse one. */
  method LosingRun() returns (resumed: Option<Checkpoint>, whole: Option<Checkpoint>)
    ensures resumed.Some? && whole.Some? && whole.value.epoch == 6 && resumed.value.epoch == 7
  {
    var file1, last1, writes1, last2, writes2, r1, r2, r, last, writes;
    r1, file1, last1, writes1 := Train(0, 7, 1, ExampleMetrics, 0.0, None);
    r2, resumed, last2, writes2 := Train(7, 8, 1, ExampleMetrics, 0.0, file1);
    r, whole, last, writes := Train(0, 8, 1, ExampleMetrics, 0.0, None);
    ExampleBest();
    RecordOfBest(r2, ExampleMetrics, 1, 7, 8, 7);
    RecordOfBest(r, ExampleMetrics, 1, 0, 8, 6);
  }

  lemma RecordOfBest(r: Record, evaluate: int -> Metrics, interval: int, start: int, end: int, e: int)
    requires interval != 0 && IsRecord(r, evaluate, interval, start, end) && IsBest(evaluate, interval, start, end, e)
    ensures r.epoch == e
  {
    if r.epoch != -1 { BestIsUnique(evaluate, interval, start, end, r.epoch, e); }
  }
}
