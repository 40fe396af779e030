/** Runs of filled cells in a line: the scan that both the hint deriver
    (src/utils/puzzleUtils.ts) and the line matcher (src/utils/hintChecker.ts)
    perform, and an independent characterisation of its result as the maximal
    runs of the line. */
module Lines {
  import opened Nonogram

  /** A run of `length` cells starting at index `start` (the source's
      `{ start, length }` objects). */
  datatype Run = Run(start: nat, length: nat)

  /** The index just past the run. */
  function End(r: Run): nat
  {
    r.start + r.length
  }

  predicate Covers(r: Run, p: int)
  {
    r.start <= p < End(r)
  }

  /** r is a maximal run of FILLED cells of the line: non-empty, inside the line,
      every cell FILLED, and not extendable to the left or to the right. */
  predicate IsRunOf(line: seq<CellState>, r: Run)
  {
    r.length >= 1 && End(r) <= |line|
    && (forall k :: r.start <= k < End(r) ==> line[k] == FILLED)
    && (r.start == 0 || line[r.start - 1] != FILLED)
    && (End(r) == |line| || line[End(r)] != FILLED)
  }

  /** runs lists, in order of their starts, exactly the maximal runs of the line
      that lie at or after index `from`: each is a maximal run starting at or
      after `from`, two of them are separated by at least one cell, and every
      FILLED cell at or after `from` lies in one of them. */
  predicate DecompFrom(line: seq<CellState>, runs: seq<Run>, from: nat)
  {
    (forall k :: 0 <= k < |runs| ==> IsRunOf(line, runs[k]) && from <= runs[k].start)
    && (forall k, l :: 0 <= k < l < |runs| ==> End(runs[k]) < runs[l].start)
    && (forall p :: from <= p < |line| && line[p] == FILLED ==>
          exists k :: 0 <= k < |runs| && Covers(runs[k], p))
  }

  /** The left-to-right scan of the source: `start` is -1 while no run is open,
      otherwise the index where the open run began; `len` is the open run's
      length. A non-FILLED cell closes the open run; a run still open at the end
      of the line is closed there. */
  function Scan(line: seq<CellState>, i: nat, start: int, len: nat): seq<Run>
    requires i <= |line| && start >= -1
    decreases |line| - i
  {
    if i == |line| then
      (if start != -1 then [Run(start, len)] else [])
    else if line[i] == FILLED then
      Scan(line, i + 1, if start == -1 then i else start, len + 1)
    else if start != -1 then
      [Run(start, len)] + Scan(line, i + 1, -1, 0)
    else
      Scan(line, i + 1, -1, 0)
  }

  /** The runs of filled cells of a line, in order. */
  function Runs(line: seq<CellState>): seq<Run>
  {
    Scan(line, 0, -1, 0)
  }

  /** Where the runs the scan has still to list begin: at the open run's
      start, or at the current index when no run is open. */
  function ScanFrom(i: nat, start: int): nat
    requires start >= -1
  {
    if start == -1 then i else start
  }

  /** The states the scan passes through when started at index 0. */
  predicate ScanState(line: seq<CellState>, i: nat, start: int, len: nat)
  {
    i <= |line| && start >= -1
    && (start == -1 ==> len == 0 && (i == 0 || line[i - 1] != FILLED))
    && (start != -1 ==>
          start + len == i && len >= 1
          && (forall k :: start <= k < i ==> line[k] == FILLED)
          && (start == 0 || line[start - 1] != FILLED))
  }

  /** A closed run followed, after one non-FILLED cell, by the runs of the rest. */
  lemma ConsDecomp(line: seq<CellState>, head: Run, rest: seq<Run>)
    requires IsRunOf(line, head) && End(head) < |line|
    requires DecompFrom(line, rest, End(head) + 1)
    ensures DecompFrom(line, [head] + rest, head.start)
  {
    var runs := [head] + rest;
    forall k, l | 0 <= k < l < |runs| ensures End(runs[k]) < runs[l].start {
      assert runs[l] == rest[l - 1];
      if k > 0 {
        assert runs[k] == rest[k - 1];
      }
    }
    forall p | head.start <= p < |line| && line[p] == FILLED
      ensures exists k :: 0 <= k < |runs| && Covers(runs[k], p)
    {
      if p < End(head) {
        assert Covers(runs[0], p);
      } else {
        var k :| 0 <= k < |rest| && Covers(rest[k], p);
        assert runs[k + 1] == rest[k];
      }
    }
    forall k | 0 <= k < |runs| ensures IsRunOf(line, runs[k]) && head.start <= runs[k].start {
      if k > 0 {
        assert runs[k] == rest[k - 1];
      }
    }
  }

  /** A non-FILLED cell in front of a decomposition extends it by one index. */
  lemma SkipDecomp(line: seq<CellState>, rest: seq<Run>, i: nat)
    requires i < |line| && line[i] != FILLED
    requires DecompFrom(line, rest, i + 1)
    ensures DecompFrom(line, rest, i)
  {
    forall p | i <= p < |line| && line[p] == FILLED
      ensures exists k :: 0 <= k < |rest| && Covers(rest[k], p)
    {
      assert p != i;
    }
  }

  /** A run open until the end of the line is the last run. */
  lemma LastDecomp(line: seq<CellState>, last: Run)
    requires IsRunOf(line, last) && End(last) == |line|
    ensures DecompFrom(line, [last], last.start)
  {
    forall p | last.start <= p < |line| && line[p] == FILLED
      ensures exists k :: 0 <= k < |[last]| && Covers([last][k], p)
    {
      assert Covers([last][0], p);
    }
  }

  /** The run open when the scan meets a non-FILLED cell or the line's end is
      a maximal run. */
  lemma ClosedRun(line: seq<CellState>, i: nat, start: int, len: nat)
    requires ScanState(line, i, start, len) && start != -1
    requires i == |line| || line[i] != FILLED
    ensures IsRunOf(line, Run(start, len))
  {
  }

  /** A FILLED cell opens or extends the run, and the scan goes on from there. */
  lemma FilledStep(line: seq<CellState>, i: nat, start: int, len: nat)
    requires ScanState(line, i, start, len) && i < |line| && line[i] == FILLED
    ensures ScanState(line, i + 1, if start == -1 then i else start, len + 1)
    ensures Scan(line, i, start, len) == Scan(line, i + 1, if start == -1 then i else start, len + 1)
  {
  }

  /** The decomposition after a FILLED cell is the one from the cell on. */
  lemma FilledCase(line: seq<CellState>, i: nat, start: int, len: nat)
    requires ScanState(line, i, start, len) && i < |line| && line[i] == FILLED
    requires DecompFrom(line, Scan(line, i + 1, if start == -1 then i else start, len + 1),
                        ScanFrom(i + 1, if start == -1 then i else start))
    ensures DecompFrom(line, Scan(line, i, start, len), ScanFrom(i, start))
  {
    FilledStep(line, i, start, len);
  }

  /** A non-FILLED cell closes the open run, if any, in front of the runs of
      the rest of the line. */
  lemma ClosingStep(line: seq<CellState>, i: nat, start: int, len: nat)
    requires ScanState(line, i, start, len) && i < |line| && line[i] != FILLED
    requires DecompFrom(line, Scan(line, i + 1, -1, 0), ScanFrom(i + 1, -1))
    ensures DecompFrom(line, Scan(line, i, start, len), ScanFrom(i, start))
  {
    var rest := Scan(line, i + 1, -1, 0);
    if start != -1 {
      ClosedRun(line, i, start, len);
      ConsDecomp(line, Run(start, len), rest);
    } else {
      SkipDecomp(line, rest, i);
    }
  }

  /** At the end of the line the open run, if any, is the last run. */
  lemma EndStep(line: seq<CellState>, start: int, len: nat)
    requires ScanState(line, |line|, start, len)
    ensures DecompFrom(line, Scan(line, |line|, start, len), ScanFrom(|line|, start))
  {
    if start != -1 {
      ClosedRun(line, |line|, start, len);
      LastDecomp(line, Run(start, len));
    }
  }

  lemma {:induction false} ScanDecomposes(line: seq<CellState>, i: nat, start: int, len: nat)
    requires ScanState(line, i, start, len)
    ensures DecompFrom(line, Scan(line, i, start, len), ScanFrom(i, start))
    decreases |line| - i, 1
  {
    if i == |line| {
      EndStep(line, start, len);
    } else if line[i] == FILLED {
      FilledDecomposes(line, i, start, len);
    } else {
      ClosingDecomposes(line, i, start, len);
    }
  }

  /** ScanDecomposes at a FILLED cell. */
  lemma {:induction false} FilledDecomposes(line: seq<CellState>, i: nat, start: int, len: nat)
    requires ScanState(line, i, start, len) && i < |line| && line[i] == FILLED
    ensures DecompFrom(line, Scan(line, i, start, len), ScanFrom(i, start))
    decreases |line| - i, 0
  {
    FilledStep(line, i, start, len);
    ScanDecomposes(line, i + 1, if start == -1 then i else start, len + 1);
    FilledCase(line, i, start, len);
  }

  /** ScanDecomposes at a non-FILLED cell. */
  lemma {:induction false} ClosingDecomposes(line: seq<CellState>, i: nat, start: int, len: nat)
    requires ScanState(line, i, start, len) && i < |line| && line[i] != FILLED
    ensures DecompFrom(line, Scan(line, i, start, len), ScanFrom(i, start))
    decreases |line| - i, 0
  {
    assert ScanState(line, i + 1, -1, 0);
    ScanDecomposes(line, i + 1, -1, 0);
    ClosingStep(line, i, start, len);
  }

  /** Runs(line) lists exactly the maximal runs of the line, in order. */
  lemma RunsDecompose(line: seq<CellState>)
    ensures DecompFrom(line, Runs(line), 0)
  {
    ScanDecomposes(line, 0, -1, 0);
  }

  /** Two maximal runs that share a cell are the same run. */
  lemma OverlapEqual(line: seq<CellState>, a: Run, b: Run, p: int)
    requires IsRunOf(line, a) && IsRunOf(line, b)
    requires Covers(a, p) && Covers(b, p)
    ensures a == b
  {
  }

  /** Two decompositions from the same index begin with the same run. */
  lemma HeadsEqual(line: seq<CellState>, r1: seq<Run>, r2: seq<Run>, from: nat)
    requires DecompFrom(line, r1, from) && DecompFrom(line, r2, from)
    requires r1 != [] && r2 != []
    ensures r1[0] == r2[0]
  {
    var a, b := r1[0], r2[0];
    assert line[a.start] == FILLED;
    var j :| 0 <= j < |r2| && Covers(r2[j], a.start);
    OverlapEqual(line, a, r2[j], a.start);
    assert line[b.start] == FILLED;
    var k :| 0 <= k < |r1| && Covers(r1[k], b.start);
    OverlapEqual(line, b, r1[k], b.start);
    OverlapEqual(line, a, b, a.start);
  }

  /** Dropping the first run leaves a decomposition from just past its end. */
  lemma TailDecomp(line: seq<CellState>, r: seq<Run>, from: nat)
    requires DecompFrom(line, r, from) && r != []
    ensures DecompFrom(line, r[1..], End(r[0]) + 1)
  {
    var t, f := r[1..], End(r[0]) + 1;
    forall p | f <= p < |line| && line[p] == FILLED
      ensures exists k :: 0 <= k < |t| && Covers(t[k], p)
    {
      var k :| 0 <= k < |r| && Covers(r[k], p);
      assert k != 0;
      assert t[k - 1] == r[k];
    }
    forall k | 0 <= k < |t| ensures IsRunOf(line, t[k]) && f <= t[k].start {
      assert t[k] == r[k + 1];
    }
    forall k, l | 0 <= k < l < |t| ensures End(t[k]) < t[l].start {
      assert t[k] == r[k + 1] && t[l] == r[l + 1];
    }
  }

  /** A decomposition is empty when another one from the same index is. */
  lemma BothEmpty(line: seq<CellState>, r1: seq<Run>, r2: seq<Run>, from: nat)
    requires DecompFrom(line, r1, from) && DecompFrom(line, r2, from)
    ensures r1 != [] ==> r2 != []
  {
    if r1 != [] {
      assert line[r1[0].start] == FILLED;
    }
  }

  /** At most one list of runs is the decomposition of a line from a given index:
      the maximal runs characterise Runs completely. */
  lemma {:induction false} DecompUnique(line: seq<CellState>, r1: seq<Run>, r2: seq<Run>, from: nat)
    requires DecompFrom(line, r1, from) && DecompFrom(line, r2, from)
    ensures r1 == r2
    decreases |r1| + |r2|
  {
    BothEmpty(line, r1, r2, from);
    BothEmpty(line, r2, r1, from);
    if r1 != [] {
      HeadsEqual(line, r1, r2, from);
      TailDecomp(line, r1, from);
      TailDecomp(line, r2, from);
      DecompUnique(line, r1[1..], r2[1..], End(r1[0]) + 1);
      assert r1 == [r1[0]] + r1[1..] && r2 == [r2[0]] + r2[1..];
    }
  }

  /** A run is one of Runs(line) exactly when it is a maximal run of the line. */
  lemma RunMembership(line: seq<CellState>, r: Run)
    ensures r in Runs(line) <==> IsRunOf(line, r)
  {
    var runs := Runs(line);
    RunsDecompose(line);
    if IsRunOf(line, r) {
      assert line[r.start] == FILLED;
      var k :| 0 <= k < |runs| && Covers(runs[k], r.start);
      OverlapEqual(line, r, runs[k], r.start);
    }
  }

  /** A line has no runs exactly when it has no FILLED cell. */
  lemma NoRunsIffNoFilled(line: seq<CellState>)
    ensures Runs(line) == [] <==> forall p :: 0 <= p < |line| ==> line[p] != FILLED
  {
    var runs := Runs(line);
    RunsDecompose(line);
    if runs != [] {
      assert line[runs[0].start] == FILLED;
    }
  }

  /** The number of FILLED cells of a line. */
  function CountFilled(s: seq<CellState>): (n: nat)
    ensures n <= |s|
  {
    if s == [] then 0 else (if s[0] == FILLED then 1 else 0) + CountFilled(s[1..])
  }

  /** The total length of a list of runs. */
  function SumLengths(runs: seq<Run>): nat
  {
    if runs == [] then 0 else runs[0].length + SumLengths(runs[1..])
  }

  lemma {:induction false} ScanCounts(line: seq<CellState>, i: nat, start: int, len: nat)
    requires i <= |line| && start >= -1
    requires start == -1 ==> len == 0
    ensures SumLengths(Scan(line, i, start, len)) == len + CountFilled(line[i..])
    decreases |line| - i
  {
    if i < |line| {
      assert line[i..][0] == line[i] && line[i..][1..] == line[i + 1..];
      if line[i] == FILLED {
        ScanCounts(line, i + 1, if start == -1 then i else start, len + 1);
      } else {
        ScanCounts(line, i + 1, -1, 0);
        if start != -1 {
          var rest := Scan(line, i + 1, -1, 0);
          assert ([Run(start, len)] + rest)[1..] == rest;
        }
      }
    }
  }

  /** The runs of a line cover exactly its FILLED cells. */
  lemma RunsCountFilled(line: seq<CellState>)
    ensures SumLengths(Runs(line)) == CountFilled(line)
  {
    ScanCounts(line, 0, -1, 0);
    assert line[0..] == line;
  }

  /** Replacing EMPTY cells by CROSSED_OUT cells (or the reverse) leaves the runs
      unchanged: the scan only distinguishes FILLED from non-FILLED. */
  lemma {:induction false} ScanSameFilled(a: seq<CellState>, b: seq<CellState>, i: nat, start: int, len: nat)
    requires |a| == |b| && i <= |a| && start >= -1
    requires forall k :: 0 <= k < |a| ==> (a[k] == FILLED <==> b[k] == FILLED)
    ensures Scan(a, i, start, len) == Scan(b, i, start, len)
    decreases |a| - i
  {
    if i < |a| {
      if a[i] == FILLED {
        ScanSameFilled(a, b, i + 1, if start == -1 then i else start, len + 1);
      } else {
        ScanSameFilled(a, b, i + 1, -1, 0);
      }
    }
  }

  lemma RunsSameFilled(a: seq<CellState>, b: seq<CellState>)
    requires |a| == |b|
    requires forall k :: 0 <= k < |a| ==> (a[k] == FILLED <==> b[k] == FILLED)
    ensures Runs(a) == Runs(b)
  {
    ScanSameFilled(a, b, 0, -1, 0);
  }
}
