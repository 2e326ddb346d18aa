/**
  utils/lbr.py: from the 0/1 samples along a scan line to the spacing of the waves it crosses.
  The file scans for runs of ones in two differently written loops; both are proved against the
  set of maximal runs.
*/
module Stripes {
  import opened Rounding

  type Bit = v: int | 0 <= v <= 1

  datatype Run = Run(start: int, end: int)

  // ---------- maximal runs ----------

  /** r covers ones only, and no longer run contains it. */
  ghost predicate IsRun(vals: seq<Bit>, r: Run)
  {
    && 0 <= r.start <= r.end < |vals|
    && (forall i :: r.start <= i <= r.end ==> vals[i] == 1)
    && (r.start > 0 ==> vals[r.start - 1] == 0)
    && (r.end + 1 < |vals| ==> vals[r.end + 1] == 0)
  }

  ghost predicate InOrder(runs: seq<Run>)
  {
    && (forall k :: 0 <= k < |runs| ==> runs[k].start <= runs[k].end)
    && (forall j, k :: 0 <= j < k < |runs| ==> runs[j].end + 1 < runs[k].start)
  }

  function RunEnd(vals: seq<Bit>, i: nat): (e: nat)
    requires i < |vals| && vals[i] == 1
    ensures i <= e < |vals|
    decreases |vals| - i
  {
    if i + 1 < |vals| && vals[i + 1] == 1 then RunEnd(vals, i + 1) else i
  }

  lemma {:induction false} RunEndEnds(vals: seq<Bit>, i: nat)
    requires i < |vals| && vals[i] == 1
    ensures forall k :: i <= k <= RunEnd(vals, i) ==> vals[k] == 1
    ensures RunEnd(vals, i) + 1 < |vals| ==> vals[RunEnd(vals, i) + 1] == 0
    decreases |vals| - i
  {
    if i + 1 < |vals| && vals[i + 1] == 1 {
      RunEndEnds(vals, i + 1);
    }
  }

  /** The runs found when scanning from i on. */
  function RunsFrom(vals: seq<Bit>, i: nat): seq<Run>
    requires i <= |vals|
    decreases |vals| - i
  {
    if i == |vals| then []
    else if vals[i] == 1 then [Run(i, RunEnd(vals, i))] + RunsFrom(vals, RunEnd(vals, i) + 1)
    else RunsFrom(vals, i + 1)
  }

  function Runs(vals: seq<Bit>): seq<Run> { RunsFrom(vals, 0) }

  lemma {:induction false} RunsFromSound(vals: seq<Bit>, i: nat, r: Run)
    requires i <= |vals| && (0 < i < |vals| && vals[i] == 1 ==> vals[i - 1] == 0)
    requires r in RunsFrom(vals, i)
    ensures IsRun(vals, r) && i <= r.start
    decreases |vals| - i
  {
    if vals[i] == 0 {
      RunsFromSound(vals, i + 1, r);
      return;
    }
    RunEndEnds(vals, i);
    if r != Run(i, RunEnd(vals, i)) {
      RunsFromSound(vals, RunEnd(vals, i) + 1, r);
    }
  }

  lemma {:induction false} RunsFromInOrder(vals: seq<Bit>, i: nat)
    requires i <= |vals| && (0 < i < |vals| && vals[i] == 1 ==> vals[i - 1] == 0)
    ensures InOrder(RunsFrom(vals, i))
    decreases |vals| - i
  {
    if i < |vals| && vals[i] == 1 {
      var r := Run(i, RunEnd(vals, i));
      var rest := RunsFrom(vals, r.end + 1);
      RunEndEnds(vals, i);
      RunsFromInOrder(vals, r.end + 1);
      forall k | 0 <= k < |rest| ensures rest[k].start > r.end + 1 {
        RunsFromSound(vals, r.end + 1, rest[k]);
      }
      PrependRun(r, rest);
    } else if i < |vals| {
      RunsFromInOrder(vals, i + 1);
    }
  }

  lemma PrependRun(r: Run, rest: seq<Run>)
    requires InOrder(rest) && r.start <= r.end
    requires forall k :: 0 <= k < |rest| ==> rest[k].start > r.end + 1
    ensures InOrder([r] + rest)
  {
  }

  lemma {:induction false} RunsFromComplete(vals: seq<Bit>, i: nat, r: Run)
    requires i <= r.start && IsRun(vals, r)
    ensures r in RunsFrom(vals, i)
    decreases |vals| - i
  {
    if vals[i] == 0 {
      RunsFromComplete(vals, i + 1, r);
    } else {
      var e := RunEnd(vals, i);
      RunEndEnds(vals, i);
      if i == r.start {
        assert r == Run(i, e);
      } else {
        RunsFromComplete(vals, e + 1, r);
      }
    }
  }

  /** Runs lists exactly the maximal runs, from left to right, with a zero between any two. */
  lemma RunsAreTheMaximalRuns(vals: seq<Bit>)
    ensures forall r :: r in Runs(vals) <==> IsRun(vals, r)
    ensures InOrder(Runs(vals))
  {
    RunsFromInOrder(vals, 0);
    forall r | r in Runs(vals) ensures IsRun(vals, r) { RunsFromSound(vals, 0, r); }
    forall r | IsRun(vals, r) ensures r in Runs(vals) { RunsFromComplete(vals, 0, r); }
  }

  /** No other list does. */
  lemma {:induction false} OnlyOneOrder(a: seq<Run>, b: seq<Run>)
    requires InOrder(a) && InOrder(b)
    requires forall r :: r in a <==> r in b
    ensures a == b
  {
    assert a != [] ==> a[0] in b;
    assert b != [] ==> b[0] in a;
    if a != [] && b != [] {
      assert a[0] == b[0];
      forall r ensures r in a[1..] <==> r in b[1..] {
        assert r in a[1..] <==> r in a && r != a[0];
        assert r in b[1..] <==> r in b && r != b[0];
      }
      OnlyOneOrder(a[1..], b[1..]);
      assert a == [a[0]] + a[1..] && b == [b[0]] + b[1..];
    }
  }

  // ---------- the nested-while scanner ----------

  function LongRuns(runs: seq<Run>, minLen: int): seq<Run>
  {
    if runs == [] then []
    else (if runs[0].end - runs[0].start + 1 >= minLen then [runs[0]] else []) + LongRuns(runs[1..], minLen)
  }

  lemma {:induction false} AllRunsAreLong(runs: seq<Run>, minLen: int)
    requires minLen <= 1 && forall k :: 0 <= k < |runs| ==> runs[k].start <= runs[k].end
    ensures LongRuns(runs, minLen) == runs
  {
    if runs != [] {
      AllRunsAreLong(runs[1..], minLen);
    }
  }

  /** The long runs found when scanning from i on. */
  ghost function LongFrom(vals: seq<Bit>, i: nat, minLen: int): seq<Run>
    requires i <= |vals|
    decreases |vals| - i
  {
    if i == |vals| then []
    else if vals[i] == 0 then LongFrom(vals, i + 1, minLen)
    else
      var e := RunEnd(vals, i);
      (if e - i + 1 >= minLen then [Run(i, e)] else []) + LongFrom(vals, e + 1, minLen)
  }

  lemma LongStep(runs: seq<Run>, r: Run, rest: seq<Run>, found: seq<Run>, minLen: int)
    requires runs == [r] + rest && found == LongRuns(rest, minLen)
    ensures LongRuns(runs, minLen) == (if r.end - r.start + 1 >= minLen then [r] else []) + found
  {
    assert runs[1..] == rest;
  }

  lemma {:induction false} LongFromRuns(vals: seq<Bit>, i: nat, minLen: int)
    requires i <= |vals|
    ensures LongFrom(vals, i, minLen) == LongRuns(RunsFrom(vals, i), minLen)
    decreases |vals| - i
  {
    if i == |vals| {
    } else if vals[i] == 0 {
      LongFromRuns(vals, i + 1, minLen);
    } else {
      var e := RunEnd(vals, i);
      LongFromRuns(vals, e + 1, minLen);
      LongStep(RunsFrom(vals, i), Run(i, e), RunsFrom(vals, e + 1), LongFrom(vals, e + 1, minLen), minLen);
    }
  }

  method ScanRuns(vals: seq<Bit>, minLen: int) returns (stripes: seq<Run>)
    ensures stripes == LongRuns(Runs(vals), minLen)
  {
    stripes := [];
    var i := 0;
    while i < |vals|
      invariant 0 <= i <= |vals|
      invariant stripes + LongFrom(vals, i, minLen) == LongFrom(vals, 0, minLen)
    {
      if vals[i] == 1 {
        var start := i;
        while i + 1 < |vals| && vals[i + 1] == 1
          invariant start <= i < |vals| && vals[i] == 1
          invariant RunEnd(vals, i) == RunEnd(vals, start)
        {
          i := i + 1;
        }
        var end := i;
        if end - start + 1 >= minLen {
          stripes := stripes + [Run(start, end)];
        }
      }
      i := i + 1;
    }
    LongFromRuns(vals, 0, minLen);
  }

  // ---------- the flag scanner ----------

  /** Distance between two samples of the profile, in pixels. */
  const STEP := 0.5

  predicate IsCrest(r: Run, minRunPx: real)
  {
    r.end > r.start && (r.end - r.start + 1) as real * STEP >= minRunPx
  }

  function Midpoint(r: Run): real { (r.start + r.end) as real / 2.0 }

  function CrestOf(r: Run, minRunPx: real): seq<real>
  {
    if IsCrest(r, minRunPx) then [Midpoint(r)] else []
  }

  /** The midpoints of the runs that are long enough, in order. */
  function CrestsOf(runs: seq<Run>, minRunPx: real): seq<real>
  {
    if runs == [] then [] else CrestOf(runs[0], minRunPx) + CrestsOf(runs[1..], minRunPx)
  }

  /** How the flag scanner reads a sample that is neither 0 nor 1: like the one before it. */
  function HeldBit(vals: seq<int>, i: nat): Bit
    requires i < |vals|
  {
    if vals[i] == 0 || vals[i] == 1 then vals[i] else if i == 0 then 0 else HeldBit(vals, i - 1)
  }

  function Held(vals: seq<int>): (held: seq<Bit>)
    ensures |held| == |vals|
    ensures forall i: nat :: i < |vals| ==> held[i] == HeldBit(vals, i)
  {
    seq(|vals|, i requires 0 <= i < |vals| => HeldBit(vals, i))
  }

  lemma HeldAt(vals: seq<int>, i: nat)
    requires i < |vals|
    ensures Held(vals)[i] == if vals[i] == 0 || vals[i] == 1 then vals[i] else if i == 0 then 0 else Held(vals)[i - 1]
  {
    assert Held(vals)[i] == HeldBit(vals, i);
    assert i > 0 ==> Held(vals)[i - 1] == HeldBit(vals, i - 1);
  }

  lemma HeldBits(vals: seq<int>)
    requires forall i :: 0 <= i < |vals| ==> vals[i] == 0 || vals[i] == 1
    ensures Held(vals) == vals
  {
  }

  /** What is found from sample i on. */
  ghost function CrestsFrom(vals: seq<Bit>, i: nat, minRunPx: real): seq<real>
    requires i <= |vals|
    decreases |vals| - i
  {
    if i == |vals| then []
    else if vals[i] == 0 then CrestsFrom(vals, i + 1, minRunPx)
    else CrestOf(Run(i, RunEnd(vals, i)), minRunPx) + CrestsFrom(vals, RunEnd(vals, i) + 1, minRunPx)
  }

  lemma CrestsOfCons(runs: seq<Run>, r: Run, rest: seq<Run>, found: seq<real>, minRunPx: real)
    requires runs == [r] + rest && found == CrestsOf(rest, minRunPx)
    ensures CrestsOf(runs, minRunPx) == CrestOf(r, minRunPx) + found
  {
    assert runs[1..] == rest;
  }

  lemma {:induction false} CrestsFromRuns(vals: seq<Bit>, i: nat, minRunPx: real)
    requires i <= |vals|
    ensures CrestsFrom(vals, i, minRunPx) == CrestsOf(RunsFrom(vals, i), minRunPx)
    decreases |vals| - i
  {
    if i == |vals| {
    } else if vals[i] == 0 {
      CrestsFromRuns(vals, i + 1, minRunPx);
    } else {
      var e := RunEnd(vals, i);
      CrestsFromRuns(vals, e + 1, minRunPx);
      CrestsOfCons(RunsFrom(vals, i), Run(i, e), RunsFrom(vals, e + 1), CrestsFrom(vals, e + 1, minRunPx), minRunPx);
    }
  }

  lemma CrestsFromRun(vals: seq<Bit>, i: nat, e: nat, minRunPx: real)
    requires i < |vals| && vals[i] == 1 && e == RunEnd(vals, i)
    ensures CrestsFrom(vals, i, minRunPx) == CrestOf(Run(i, e), minRunPx) + CrestsFrom(vals, e + 1, minRunPx)
  {
  }

  /** An open run ends at the first sample that is not in it. */
  lemma RunCloses(vals: seq<Bit>, start: nat, i: nat)
    requires start < i <= |vals| && vals[start] == 1 && RunEnd(vals, start) >= i - 1
    ensures (i < |vals| ==> vals[i] == 0) ==> RunEnd(vals, start) == i - 1
    ensures i < |vals| && vals[i] == 1 ==> RunEnd(vals, start) >= i
  {
    RunEndEnds(vals, start);
  }

  lemma CrestsClose(vals: seq<Bit>, start: nat, i: nat, minRunPx: real)
    requires start < i <= |vals| && vals[start] == 1 && RunEnd(vals, start) == i - 1 && (i < |vals| ==> vals[i] == 0)
    ensures CrestsFrom(vals, start, minRunPx)
         == CrestOf(Run(start, i - 1), minRunPx) + CrestsFrom(vals, Min(i + 1, |vals|), minRunPx)
  {
    CrestsFromRun(vals, start, i - 1, minRunPx);
    CrestsSkip(vals, i, minRunPx);
  }

  lemma CrestsSkip(vals: seq<Bit>, i: nat, minRunPx: real)
    requires i <= |vals| && (i < |vals| ==> vals[i] == 0)
    ensures CrestsFrom(vals, i, minRunPx) == CrestsFrom(vals, Min(i + 1, |vals|), minRunPx)
  {
  }

  /** The samples before i are dealt with; an open run, if any, began at startIdx. */
  ghost predicate IsScanned(vals: seq<Bit>, i: nat, inside: bool, startIdx: int, crests: seq<real>, minRunPx: real)
  {
    if inside then
      && 0 <= startIdx < i <= |vals| && vals[i - 1] == 1 && vals[startIdx] == 1 && RunEnd(vals, startIdx) >= i - 1
      && crests + CrestsFrom(vals, startIdx, minRunPx) == CrestsFrom(vals, 0, minRunPx)
    else
      && (0 < i <= |vals| ==> vals[i - 1] == 0)
      && crests + CrestsFrom(vals, Min(i, |vals|), minRunPx) == CrestsFrom(vals, 0, minRunPx)
  }

  lemma ScannedNext(vals: seq<Bit>, i: nat, inside: bool, startIdx: int, crests: seq<real>, minRunPx: real)
    requires i <= |vals| && IsScanned(vals, i, inside, startIdx, crests, minRunPx)
    ensures i < |vals| && vals[i] == 1 && !inside ==> IsScanned(vals, i + 1, true, i, crests, minRunPx)
    ensures i < |vals| && vals[i] == 1 && inside ==> IsScanned(vals, i + 1, true, startIdx, crests, minRunPx)
    ensures (i < |vals| ==> vals[i] == 0) && !inside ==> IsScanned(vals, i + 1, false, startIdx, crests, minRunPx)
    ensures (i < |vals| ==> vals[i] == 0) && inside ==>
      IsScanned(vals, i + 1, false, startIdx, crests + CrestOf(Run(startIdx, i - 1), minRunPx), minRunPx)
  {
    if !inside {
      if i == |vals| || vals[i] == 0 { CrestsSkip(vals, i, minRunPx); }
    } else {
      RunCloses(vals, startIdx, i);
      if i == |vals| || vals[i] == 0 { CrestsClose(vals, startIdx, i, minRunPx); }
      Regrouped(crests, CrestOf(Run(startIdx, i - 1), minRunPx), CrestsFrom(vals, Min(i + 1, |vals|), minRunPx));
    }
  }

  lemma ScannedEnds(vals: seq<Bit>, startIdx: int, crests: seq<real>, minRunPx: real)
    ensures IsScanned(vals, 0, false, startIdx, [], minRunPx)
    ensures IsScanned(vals, |vals| + 1, false, startIdx, crests, minRunPx) ==> crests == CrestsOf(Runs(vals), minRunPx)
  {
    CrestsFromRuns(vals, 0, minRunPx);
  }

  lemma Regrouped(a: seq<real>, b: seq<real>, c: seq<real>)
    ensures a + (b + c) == (a + b) + c
  {
  }

  /** The scanner's variables, and what one sample does to them. */
  datatype Scan = Scan(inside: bool, startIdx: int, crests: seq<real>) {
    function Turn(i: int, v: int, minRunPx: real): Scan
    {
      if v == 1 && !inside then Scan(true, i, crests)
      else if v == 0 && inside then Scan(false, startIdx, crests + CrestOf(Run(startIdx, i - 1), minRunPx))
      else this
    }
  }

  function ScanOf(vals: seq<int>, i: nat, minRunPx: real): Scan
    requires i <= |vals|
  {
    if i == 0 then Scan(false, 0, []) else ScanOf(vals, i - 1, minRunPx).Turn(i - 1, vals[i - 1], minRunPx)
  }

  ghost predicate HasScanned(vals: seq<Bit>, i: nat, s: Scan, minRunPx: real)
  {
    IsScanned(vals, i, s.inside, s.startIdx, s.crests, minRunPx)
  }

  /** One sample as it is, or the zero that is appended to them. */
  lemma ScannedSample(lineVals: seq<int>, i: nat, v: int, s: Scan, minRunPx: real)
    requires i <= |lineVals| && v == (if i < |lineVals| then lineVals[i] else 0)
    requires HasScanned(Held(lineVals), i, s, minRunPx)
    ensures HasScanned(Held(lineVals), i + 1, s.Turn(i, v, minRunPx), minRunPx)
  {
    if i < |lineVals| { HeldAt(lineVals, i); }
    ScannedNext(Held(lineVals), i, s.inside, s.startIdx, s.crests, minRunPx);
  }

  lemma {:induction false} ScanOfIsScanned(lineVals: seq<int>, i: nat, minRunPx: real)
    requires i <= |lineVals| + 1
    ensures HasScanned(Held(lineVals), i, ScanOf(lineVals + [0], i, minRunPx), minRunPx)
  {
    if i == 0 {
      ScannedEnds(Held(lineVals), 0, [], minRunPx);
    } else {
      ScanOfIsScanned(lineVals, i - 1, minRunPx);
      ScannedSample(lineVals, i - 1, (lineVals + [0])[i - 1], ScanOf(lineVals + [0], i - 1, minRunPx), minRunPx);
    }
  }

  lemma ScanFinds(lineVals: seq<int>, minRunPx: real)
    ensures ScanOf(lineVals + [0], |lineVals| + 1, minRunPx).crests == CrestsOf(Runs(Held(lineVals)), minRunPx)
  {
    var s := ScanOf(lineVals + [0], |lineVals| + 1, minRunPx);
    ScanOfIsScanned(lineVals, |lineVals| + 1, minRunPx);
    ScannedEnds(Held(lineVals), s.startIdx, s.crests, minRunPx);
  }

  /** c is the middle of r, which has two samples or more and, at half a pixel per sample, the required length. */
  predicate IsMiddleOf(c: real, r: Run, minRunPx: real)
  {
    r.end > r.start && (r.end - r.start + 1) as real / 2.0 >= minRunPx && 2.0 * c == (r.start + r.end) as real
  }

  ghost predicate AreCrests(crests: seq<real>, vals: seq<Bit>, minRunPx: real)
  {
    && (forall c :: c in crests <==> exists r :: IsRun(vals, r) && IsMiddleOf(c, r, minRunPx))
    && AreRising(crests)
  }

  lemma {:induction false} CrestsOfMembers(runs: seq<Run>, minRunPx: real, c: real)
    ensures c in CrestsOf(runs, minRunPx) <==> exists r :: r in runs && IsMiddleOf(c, r, minRunPx)
  {
    if runs != [] {
      CrestsOfMembers(runs[1..], minRunPx, c);
      assert c in CrestOf(runs[0], minRunPx) <==> IsMiddleOf(c, runs[0], minRunPx);
      assert forall r :: r in runs <==> r == runs[0] || r in runs[1..];
    }
  }

  ghost predicate AreRising(crests: seq<real>) { forall j, k :: 0 <= j < k < |crests| ==> crests[j] < crests[k] }

  lemma {:induction false} CrestsRise(runs: seq<Run>, minRunPx: real, from: int)
    requires InOrder(runs) && (runs != [] ==> from <= runs[0].start)
    ensures AreRising(CrestsOf(runs, minRunPx)) && NoneBefore(CrestsOf(runs, minRunPx), from as real)
  {
    if runs != [] {
      assert |runs| > 1 ==> runs[0].end + 1 < runs[1].start;
      CrestsRise(runs[1..], minRunPx, runs[0].end + 1);
      RisingCons(runs[0], CrestsOf(runs[1..], minRunPx), minRunPx);
    }
  }

  lemma RisingCons(r: Run, rest: seq<real>, minRunPx: real)
    requires r.start <= r.end && AreRising(rest) && NoneBefore(rest, (r.end + 1) as real)
    ensures AreRising(CrestOf(r, minRunPx) + rest) && NoneBefore(CrestOf(r, minRunPx) + rest, r.start as real)
  {
  }

  lemma CrestsOfRuns(vals: seq<Bit>, minRunPx: real)
    ensures AreCrests(CrestsOf(Runs(vals), minRunPx), vals, minRunPx)
  {
    RunsAreTheMaximalRuns(vals);
    assert Runs(vals) != [] ==> IsRun(vals, Runs(vals)[0]);
    CrestsRise(Runs(vals), minRunPx, 0);
    forall c ensures c in CrestsOf(Runs(vals), minRunPx) <==> exists r :: IsRun(vals, r) && IsMiddleOf(c, r, minRunPx) {
      CrestsOfMembers(Runs(vals), minRunPx, c);
    }
  }

  method ScanCrests(lineVals: seq<int>, minRunPx: real) returns (crests: seq<real>)
    ensures crests == CrestsOf(Runs(Held(lineVals)), minRunPx)
    ensures AreCrests(crests, Held(lineVals), minRunPx)
  {
    crests := [];
    var inside := false;
    var startIdx := 0;
    var vals := lineVals + [0];
    for i := 0 to |vals|
      invariant Scan(inside, startIdx, crests) == ScanOf(vals, i, minRunPx)
    {
      var v := vals[i];
      if v == 1 && !inside {
        inside := true;
        startIdx := i;
      } else if v == 0 && inside {
        inside := false;
        var endIdx := i - 1;
        if endIdx > startIdx {
          var runLen := (endIdx - startIdx + 1) as real * STEP;
          if runLen >= minRunPx {
            var midIdx := (startIdx + endIdx) as real / 2.0;
            crests := crests + [midIdx];
          }
        }
      }
    }
    ScanFinds(lineVals, minRunPx);
    CrestsOfRuns(Held(lineVals), minRunPx);
  }

  /** A mask of 0 and 255, say, has no crests, however wide its stripes. */
  lemma {:induction false} NoOnesNoCrests(vals: seq<int>, i: nat)
    requires i <= |vals| && forall k :: 0 <= k < |vals| ==> vals[k] != 1
    ensures RunsFrom(Held(vals), i) == []
    decreases |vals| - i
  {
    if i < |vals| {
      HeldZero(vals, i);
      NoOnesNoCrests(vals, i + 1);
    }
  }

  lemma {:induction false} HeldZero(vals: seq<int>, i: nat)
    requires i < |vals| && forall k :: 0 <= k < |vals| ==> vals[k] != 1
    ensures Held(vals)[i] == 0
  {
    HeldAt(vals, i);
    if i > 0 { HeldZero(vals, i - 1); }
  }

  // ---------- when the scanners agree ----------

  /** The nested scanner's sampling: any positive sample is foreground. */
  function Positive(vals: seq<nat>): (pos: seq<Bit>)
    ensures |pos| == |vals|
    ensures forall i :: 0 <= i < |vals| ==> pos[i] == if vals[i] > 0 then 1 else 0
  {
    seq(|vals|, i requires 0 <= i < |vals| => if vals[i] > 0 then 1 else 0)
  }

  /** The samples from k to e are foreground, and the one after them is not. */
  ghost predicate IsTail(vals: seq<nat>, k: nat, e: nat)
  {
    k <= e + 1 <= |vals| && (forall j :: k <= j <= e ==> vals[j] > 0) && (e + 1 < |vals| ==> vals[e + 1] == 0)
  }

  /** The first sample of exactly 1 from k to e, or e + 1 if there is none. */
  function FirstOne(vals: seq<nat>, k: nat, e: nat): (f: nat)
    requires k <= e + 1 <= |vals|
    ensures k <= f <= e + 1
    decreases e + 1 - k
  {
    if k == e + 1 || vals[k] == 1 then k else FirstOne(vals, k + 1, e)
  }

  /** Once a 1 has been seen, the flag scanner stays inside up to the end of the foreground. */
  lemma {:induction false} HeldToEnd(vals: seq<nat>, k: nat, e: nat)
    requires IsTail(vals, k, e) && k <= e && Held(vals)[k] == 1
    ensures RunEnd(Held(vals), k) == e
    decreases e - k
  {
    if k < e {
      HeldAt(vals, k + 1);
      HeldToEnd(vals, k + 1, e);
    } else if e + 1 < |vals| {
      HeldAt(vals, e + 1);
    }
  }

  /** What the flag scanner finds in a stretch of foreground: the part from the first 1 on, if it is long enough. */
  function HeldCrest(vals: seq<nat>, k: nat, e: nat, minRunPx: real): seq<real>
    requires k <= e + 1 <= |vals|
  {
    if FirstOne(vals, k, e) <= e then CrestOf(Run(FirstOne(vals, k, e), e), minRunPx) else []
  }

  lemma {:induction false} HeldSplit(vals: seq<nat>, k: nat, e: nat, minRunPx: real)
    requires IsTail(vals, k, e) && (k == 0 || Held(vals)[k - 1] == 0)
    ensures CrestsFrom(Held(vals), k, minRunPx)
         == HeldCrest(vals, k, e, minRunPx) + CrestsFrom(Held(vals), e + 1, minRunPx)
    decreases e + 1 - k
  {
    if k <= e {
      HeldAt(vals, k);
      if vals[k] == 1 {
        HeldSplitHere(vals, k, e, minRunPx);
      } else {
        HeldSplit(vals, k + 1, e, minRunPx);
        NotHere(vals, k, e, minRunPx);
      }
    }
  }

  lemma HeldSplitHere(vals: seq<nat>, k: nat, e: nat, minRunPx: real)
    requires IsTail(vals, k, e) && k <= e && vals[k] == 1 && Held(vals)[k] == 1
    ensures CrestsFrom(Held(vals), k, minRunPx)
         == HeldCrest(vals, k, e, minRunPx) + CrestsFrom(Held(vals), e + 1, minRunPx)
  {
    HeldToEnd(vals, k, e);
    CrestsFromRun(Held(vals), k, e, minRunPx);
    assert HeldCrest(vals, k, e, minRunPx) == CrestOf(Run(k, e), minRunPx);
  }

  lemma NotHere(vals: seq<nat>, k: nat, e: nat, minRunPx: real)
    requires IsTail(vals, k, e) && k <= e && vals[k] != 1 && Held(vals)[k] == 0
    ensures CrestsFrom(Held(vals), k, minRunPx) == CrestsFrom(Held(vals), k + 1, minRunPx)
    ensures HeldCrest(vals, k, e, minRunPx) == HeldCrest(vals, k + 1, e, minRunPx)
  {
    assert FirstOne(vals, k, e) == FirstOne(vals, k + 1, e);
  }

  /** Nothing found from sample i on lies before it. */
  lemma {:induction false} CrestsNotBefore(vals: seq<Bit>, i: nat, minRunPx: real)
    requires i <= |vals|
    ensures NoneBefore(CrestsFrom(vals, i, minRunPx), i as real)
    decreases |vals| - i
  {
    if i == |vals| {
    } else if vals[i] == 0 {
      CrestsNotBefore(vals, i + 1, minRunPx);
    } else {
      CrestsNotBefore(vals, RunEnd(vals, i) + 1, minRunPx);
    }
  }

  ghost predicate NoneBefore(crests: seq<real>, at: real) { forall k :: 0 <= k < |crests| ==> crests[k] >= at }

  /** Every run long enough to be a crest starts with a sample of exactly 1. */
  ghost predicate StartAtOne(vals: seq<nat>, runs: seq<Run>, minRunPx: real)
  {
    forall r :: r in runs && IsCrest(r, minRunPx) ==> 0 <= r.start < |vals| && vals[r.start] == 1
  }

  /** From sample i on the scanners agree exactly if every crest starts at a 1. */
  ghost predicate IsDecided(vals: seq<nat>, i: nat, minRunPx: real)
    requires i <= |vals|
  {
    CrestsFrom(Held(vals), i, minRunPx) == CrestsFrom(Positive(vals), i, minRunPx)
    <==> StartAtOne(vals, RunsFrom(Positive(vals), i), minRunPx)
  }

  lemma {:induction false} AgreeFrom(vals: seq<nat>, i: nat, minRunPx: real)
    requires i <= |vals| && (i > 0 ==> vals[i - 1] == 0)
    ensures IsDecided(vals, i, minRunPx)
    decreases |vals| - i
  {
    if i == |vals| {
      DecidedAtEnd(vals, minRunPx);
    } else if vals[i] == 0 {
      AgreeFrom(vals, i + 1, minRunPx);
      DecidedBefore(vals, i, minRunPx);
    } else {
      var e := RunEnd(Positive(vals), i);
      TailAt(vals, i);
      if e + 1 == |vals| {
        DecidedAtEnd(vals, minRunPx);
      } else {
        AgreeFrom(vals, e + 2, minRunPx);
        DecidedBefore(vals, e + 1, minRunPx);
      }
      DecidedOnStretch(vals, i, minRunPx);
    }
  }

  lemma DecidedAtEnd(vals: seq<nat>, minRunPx: real)
    ensures IsDecided(vals, |vals|, minRunPx)
  {
  }

  lemma DecidedBefore(vals: seq<nat>, i: nat, minRunPx: real)
    requires i < |vals| && vals[i] == 0 && IsDecided(vals, i + 1, minRunPx)
    ensures IsDecided(vals, i, minRunPx)
  {
    HeldAt(vals, i);
  }

  lemma TailAt(vals: seq<nat>, i: nat)
    requires i < |vals| && vals[i] > 0
    ensures IsTail(vals, i, RunEnd(Positive(vals), i))
  {
    var pos, e := Positive(vals), RunEnd(Positive(vals), i);
    RunEndEnds(pos, i);
    forall j | i <= j <= e ensures vals[j] > 0 {
      assert pos[j] == 1;
    }
  }

  /** A stretch of foreground, the samples behind it being decided. */
  lemma DecidedOnStretch(vals: seq<nat>, i: nat, minRunPx: real)
    requires i < |vals| && vals[i] > 0 && (i > 0 ==> vals[i - 1] == 0)
    requires IsDecided(vals, RunEnd(Positive(vals), i) + 1, minRunPx)
    ensures IsDecided(vals, i, minRunPx)
  {
    SameOnStretch(vals, i, minRunPx);
    StartsSplit(vals, i, minRunPx);
  }

  /** The lists agree from a stretch on exactly if they agree behind it and its own crest starts at a 1. */
  lemma SameOnStretch(vals: seq<nat>, i: nat, minRunPx: real)
    requires i < |vals| && vals[i] > 0 && (i > 0 ==> vals[i - 1] == 0)
    ensures var held, pos, e := Held(vals), Positive(vals), RunEnd(Positive(vals), i);
            CrestsFrom(held, i, minRunPx) == CrestsFrom(pos, i, minRunPx)
            <==> CrestsFrom(held, e + 1, minRunPx) == CrestsFrom(pos, e + 1, minRunPx)
                 && (IsCrest(Run(i, e), minRunPx) ==> vals[i] == 1)
  {
    var e := RunEnd(Positive(vals), i);
    HeldOnStretch(vals, i, e, minRunPx);
    SameBehind(vals, Held(vals), Positive(vals), i, e, minRunPx);
  }

  lemma SameBehind(vals: seq<nat>, held: seq<Bit>, pos: seq<Bit>, i: nat, e: nat, minRunPx: real)
    requires |held| == |pos| == |vals| && i < |vals| && pos[i] == 1 && e == RunEnd(pos, i)
    requires CrestsFrom(held, i, minRunPx) == HeldCrest(vals, i, e, minRunPx) + CrestsFrom(held, e + 1, minRunPx)
    requires NoneBefore(CrestsFrom(held, e + 1, minRunPx), (e + 1) as real)
    ensures CrestsFrom(held, i, minRunPx) == CrestsFrom(pos, i, minRunPx)
       <==> CrestsFrom(held, e + 1, minRunPx) == CrestsFrom(pos, e + 1, minRunPx)
            && (IsCrest(Run(i, e), minRunPx) ==> vals[i] == 1)
  {
    CrestsFromRun(pos, i, e, minRunPx);
    StretchAgrees(vals, i, e, minRunPx, CrestsFrom(held, e + 1, minRunPx), CrestsFrom(pos, e + 1, minRunPx),
                  CrestsFrom(held, i, minRunPx), CrestsFrom(pos, i, minRunPx));
  }

  lemma HeldOnStretch(vals: seq<nat>, i: nat, e: nat, minRunPx: real)
    requires i < |vals| && vals[i] > 0 && (i > 0 ==> vals[i - 1] == 0) && e == RunEnd(Positive(vals), i)
    ensures CrestsFrom(Held(vals), i, minRunPx)
         == HeldCrest(vals, i, e, minRunPx) + CrestsFrom(Held(vals), e + 1, minRunPx)
    ensures NoneBefore(CrestsFrom(Held(vals), e + 1, minRunPx), (e + 1) as real)
  {
    TailAt(vals, i);
    if i > 0 { HeldAt(vals, i - 1); }
    HeldSplit(vals, i, e, minRunPx);
    CrestsNotBefore(Held(vals), e + 1, minRunPx);
  }

  lemma StartsSplit(vals: seq<nat>, i: nat, minRunPx: real)
    requires i < |vals| && vals[i] > 0
    ensures var pos, e := Positive(vals), RunEnd(Positive(vals), i);
            StartAtOne(vals, RunsFrom(pos, i), minRunPx)
            <==> StartAtOne(vals, RunsFrom(pos, e + 1), minRunPx) && (IsCrest(Run(i, e), minRunPx) ==> vals[i] == 1)
  {
    var pos, e := Positive(vals), RunEnd(Positive(vals), i);
    FirstRunStarts(vals, Run(i, e), RunsFrom(pos, e + 1), minRunPx);
  }

  lemma FirstRunStarts(vals: seq<nat>, r: Run, rest: seq<Run>, minRunPx: real)
    requires 0 <= r.start < |vals|
    ensures StartAtOne(vals, [r] + rest, minRunPx)
       <==> StartAtOne(vals, rest, minRunPx) && (IsCrest(r, minRunPx) ==> vals[r.start] == 1)
  {
    assert forall q :: q in [r] + rest <==> q == r || q in rest;
  }

  /** One stretch: the rest being compared, a crest that starts late or not at all makes the lists differ. */
  lemma StretchAgrees(vals: seq<nat>, i: nat, e: nat, minRunPx: real, held: seq<real>, pos: seq<real>,
                      allHeld: seq<real>, allPos: seq<real>)
    requires i <= e < |vals| && NoneBefore(held, (e + 1) as real)
    requires allHeld == HeldCrest(vals, i, e, minRunPx) + held && allPos == CrestOf(Run(i, e), minRunPx) + pos
    ensures allHeld == allPos <==> held == pos && (IsCrest(Run(i, e), minRunPx) ==> vals[i] == 1)
  {
    var f := FirstOne(vals, i, e);
    var ours := HeldCrest(vals, i, e, minRunPx);
    if !IsCrest(Run(i, e), minRunPx) {
      assert ours == [] && ours + held == held && [] + pos == pos;
    } else {
      var theirs := [Midpoint(Run(i, e))];
      assert (theirs + pos)[0] == Midpoint(Run(i, e)) < (e + 1) as real;
      assert (theirs + pos)[1..] == pos;
      if vals[i] == 1 {
        assert ours == theirs && (ours + held)[1..] == held;
      } else if ours != [] {
        assert (ours + held)[0] == Midpoint(Run(f, e)) > Midpoint(Run(i, e));
      } else {
        assert ours + held == held;
      }
    }
  }

  lemma AgreeEverywhere(vals: seq<nat>, minRunPx: real)
    ensures CrestsOf(Runs(Held(vals)), minRunPx) == CrestsOf(Runs(Positive(vals)), minRunPx)
       <==> forall r :: IsRun(Positive(vals), r) && IsCrest(r, minRunPx) ==> vals[r.start] == 1
  {
    AgreeFrom(vals, 0, minRunPx);
    CrestsFromRuns(Held(vals), 0, minRunPx);
    CrestsFromRuns(Positive(vals), 0, minRunPx);
    RunsAreTheMaximalRuns(Positive(vals));
  }

  /**
    When the two scanners agree: on any samples, the crests the flag scanner reports are the midpoints of those
    stripes of the nested scanner that have at least two samples and the required length, exactly if each of these
    starts with a sample of 1. On samples of 0 and 1 they all do.
  */
  method ScannersAgree(vals: seq<nat>, minRunPx: real) returns (stripes: seq<Run>, crests: seq<real>)
    ensures forall r :: r in stripes <==> IsRun(Positive(vals), r)
    ensures crests == CrestsOf(stripes, minRunPx)
       <==> forall r :: IsRun(Positive(vals), r) && IsCrest(r, minRunPx) ==> vals[r.start] == 1
    ensures (forall i :: 0 <= i < |vals| ==> vals[i] <= 1) ==>
      Positive(vals) == vals && crests == CrestsOf(stripes, minRunPx)
  {
    var pos := Positive(vals);
    stripes := ScanRuns(pos, 1);
    crests := ScanCrests(vals, minRunPx);
    RunsAreTheMaximalRuns(pos);
    AllRunsAreLong(Runs(pos), 1);
    AgreeEverywhere(vals, minRunPx);
    if forall i :: 0 <= i < |vals| ==> vals[i] <= 1 {
      HeldBits(vals);
    }
  }

  /** A stripe of 255s: the nested scanner finds it, the flag scanner does not. */
  method ScannersDiffer() returns (stripes: seq<Run>, crests: seq<real>)
    ensures stripes == [Run(1, 2)] && CrestsOf(stripes, 1.0) == [1.5] && crests == []
  {
    var vals: seq<nat> := [0, 255, 255, 0];
    stripes := ScanRuns(Positive(vals), 1);
    crests := ScanCrests(vals, 1.0);
    NoOnesNoCrests(vals, 0);
    StripeOf255();
    AllRunsAreLong([Run(1, 2)], 1);
    CrestsOfCons([Run(1, 2)], Run(1, 2), [], [], 1.0);
  }

  lemma StripeOf255()
    ensures Runs(Positive([0, 255, 255, 0])) == [Run(1, 2)]
  {
    var pos := Positive([0, 255, 255, 0]);
    assert pos == [0, 1, 1, 0];
    assert RunEnd(pos, 2) == 2;
    assert RunEnd(pos, 1) == 2;
    assert RunsFrom(pos, 4) == [];
    assert RunsFrom(pos, 3) == [];
    assert RunsFrom(pos, 1) == [Run(1, 2)];
  }

  /** The sample a crest is mapped back to lies in its own run, so neither guard after it drops a crest. */
  lemma CrestSampleIsOne(vals: seq<Bit>, r: Run)
    requires IsRun(vals, r)
    ensures r.start <= Round(Midpoint(r)) <= r.end && vals[Round(Midpoint(r))] == 1
  {
    RoundMonotone(r.start as real, Midpoint(r));
    RoundMonotone(Midpoint(r), r.end as real);
    RoundInt(r.start);
    RoundInt(r.end);
  }
}
