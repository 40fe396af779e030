/** The hint ticker of src/utils/hintChecker.ts: an unused hint is marked used
    once the player's line holds a run of the hint's length starting where the
    matching run of the answer starts. */
module HintChecker {
  import opened Nonogram
  import opened Lines

  /** findSequences: the maximal runs of FILLED cells, left to right. */
  method FindSequences(cells: seq<CellState>) returns (sequences: seq<Run>)
    ensures sequences == Runs(cells)
    ensures DecompFrom(cells, sequences, 0)
  {
    sequences := [];
    var currentSequenceStart: int := -1;
    var currentSequenceLength: nat := 0;
    for i := 0 to |cells|
      invariant currentSequenceStart >= -1
      invariant currentSequenceStart == -1 ==> currentSequenceLength == 0
      invariant sequences + Scan(cells, i, currentSequenceStart, currentSequenceLength) == Runs(cells)
    {
      if cells[i] == FILLED {
        if currentSequenceStart == -1 {
          currentSequenceStart := i;
        }
        currentSequenceLength := currentSequenceLength + 1;
      } else if currentSequenceStart != -1 {
        assert Scan(cells, i, currentSequenceStart, currentSequenceLength)
            == [Run(currentSequenceStart, currentSequenceLength)] + Scan(cells, i + 1, -1, 0);
        sequences := sequences + [Run(currentSequenceStart, currentSequenceLength)];
        currentSequenceStart := -1;
        currentSequenceLength := 0;
      }
    }
    if currentSequenceStart != -1 {
      sequences := sequences + [Run(currentSequenceStart, currentSequenceLength)];
    }
    RunsDecompose(cells);
  }

  /** `currentSequences.find(...)`: the first run of the given length and start. */
  function FindRun(sequences: seq<Run>, length: nat, start: nat): (m: Option<Run>)
    ensures m.Some? <==> Run(start, length) in sequences
    ensures m.Some? ==> m.value == Run(start, length)
  {
    if sequences == [] then None
    else if sequences[0].length == length && sequences[0].start == start then Some(sequences[0])
    else FindRun(sequences[1..], length, start)
  }

  /** The tick rule for hint i of an unused hint h: the answer has an i-th run,
      and the line has a run of length h.hint starting where that run starts. */
  predicate Ticks(cells: seq<CellState>, answerCells: seq<CellState>, i: nat, h: Hint)
  {
    i < |Runs(answerCells)| && Run(Runs(answerCells)[i].start, h.hint) in Runs(cells)
  }

  /** The hint list after checkHints, as a value. Where the source would read
      the start of a missing answer run (a TypeError), the hint stays unused. */
  function MatchHints(cells: seq<CellState>, hints: seq<Hint>, answerCells: seq<CellState>): (r: seq<Hint>)
    ensures |r| == |hints|
    ensures forall i :: 0 <= i < |hints| ==> r[i].hint == hints[i].hint
    ensures forall i :: 0 <= i < |hints| && hints[i].used ==> r[i] == hints[i]
  {
    seq(|hints|, i requires 0 <= i < |hints| =>
      if !hints[i].used && Ticks(cells, answerCells, i, hints[i]) then Hint(hints[i].hint, true)
      else hints[i])
  }

  /** The inputs on which the source throws: an unused hint beyond the answer's
      runs, with a line run of the hint's length (the `&&` of the `find`
      predicate reads `answerSequence.start` only after the length matched). */
  predicate SourceThrows(cells: seq<CellState>, hints: seq<Hint>, answerCells: seq<CellState>)
  {
    exists i, k :: 0 <= i < |hints| && 0 <= k < |Runs(cells)| && !hints[i].used
      && i >= |Runs(answerCells)| && Runs(cells)[k].length == hints[i].hint
  }

  /** checkHints: ticks the unused hints of `hints` in place (the source mutates
      the caller's hint objects through the shallow copy) and returns them. */
  method CheckHints(cells: seq<CellState>, hints: array<Hint>, answerCells: seq<CellState>)
    returns (newHints: seq<Hint>)
    modifies hints
    ensures hints[..] == MatchHints(cells, old(hints[..]), answerCells)
    ensures newHints == hints[..]
  {
    ghost var before := hints[..];
    var answerSequences := FindSequences(answerCells);
    var currentSequences := FindSequences(cells);
    for hintIndex := 0 to hints.Length
      invariant forall k :: 0 <= k < hintIndex ==> hints[k] == MatchHints(cells, before, answerCells)[k]
      invariant forall k :: hintIndex <= k < hints.Length ==> hints[k] == before[k]
    {
      var hint := hints[hintIndex];
      if hint.used {
        continue;
      }
      if hintIndex < |answerSequences| {
        var answerSequence := answerSequences[hintIndex];
        var matchingSequence := FindRun(currentSequences, hint.hint, answerSequence.start);
        if matchingSequence.Some? {
          hints[hintIndex] := hint.(used := true);
        }
      }
    }
    assert hints[..] == MatchHints(cells, before, answerCells);
    newHints := hints[..];
  }

  /** The tick rule in terms of the line itself: an unused hint is ticked
      exactly when the answer has a run at its index and the line has a
      maximal run of exactly the hint's length at that run's start. */
  lemma TickIffRunAtAnswerStart(cells: seq<CellState>, hints: seq<Hint>, answerCells: seq<CellState>, i: nat)
    requires i < |hints| && !hints[i].used
    ensures MatchHints(cells, hints, answerCells)[i].used <==>
              i < |Runs(answerCells)| && IsRunOf(cells, Run(Runs(answerCells)[i].start, hints[i].hint))
  {
    if i < |Runs(answerCells)| {
      RunMembership(cells, Run(Runs(answerCells)[i].start, hints[i].hint));
    }
  }

  /** Each hint is judged on its own: changing the other hints of the list does
      not change the verdict on hint i. */
  lemma HintsIndependent(cells: seq<CellState>, h1: seq<Hint>, h2: seq<Hint>, answerCells: seq<CellState>, i: nat)
    requires i < |h1| && i < |h2| && h1[i] == h2[i]
    ensures MatchHints(cells, h1, answerCells)[i] == MatchHints(cells, h2, answerCells)[i]
  {
  }

  /** Re-running the ticker changes nothing more: a ticked hint stays ticked and
      an unticked one is judged again on the same line. */
  lemma MatchHintsIdempotent(cells: seq<CellState>, hints: seq<Hint>, answerCells: seq<CellState>)
    ensures MatchHints(cells, MatchHints(cells, hints, answerCells), answerCells)
         == MatchHints(cells, hints, answerCells)
  {
  }

  /** Hints whose values are the run lengths of the answer are all ticked on a
      line that equals the answer, and on such hints the source never throws. */
  lemma AnswerLineTicksAll(answerCells: seq<CellState>, hints: seq<Hint>)
    requires |hints| == |Runs(answerCells)|
    requires forall i :: 0 <= i < |hints| ==> hints[i].hint == Runs(answerCells)[i].length
    ensures forall i :: 0 <= i < |hints| ==> MatchHints(answerCells, hints, answerCells)[i].used
    ensures !SourceThrows(answerCells, hints, answerCells)
  {
    forall i | 0 <= i < |hints|
      ensures MatchHints(answerCells, hints, answerCells)[i].used
    {
      if !hints[i].used {
        assert Runs(answerCells)[i] == Run(Runs(answerCells)[i].start, hints[i].hint);
      }
    }
  }

  /** Hint lists no longer than the answer's run list never make the source throw. */
  lemma NoThrowWhenHintsFit(cells: seq<CellState>, hints: seq<Hint>, answerCells: seq<CellState>)
    requires |hints| <= |Runs(answerCells)|
    ensures !SourceThrows(cells, hints, answerCells)
  {
  }

  /** The tests of hintChecker.test.ts on positional matching, on ticking each
      hint on its own, on hints already used, and on hints that do not match
      the answer. In that last test the answer [EMPTY, FILLED, EMPTY] has one
      run for two hints: the second hint reads the start of a run that does
      not exist once the line's first run matches its length, so the code
      throws, and the ticks the test expects are those of the model. */
  lemma CheckHintsExamples()
    ensures MatchHints([EMPTY, EMPTY, FILLED], [Hint(1, false), Hint(1, false)], [FILLED, EMPTY, FILLED])
         == [Hint(1, false), Hint(1, true)]
    ensures MatchHints([FILLED, EMPTY, EMPTY, EMPTY, EMPTY], [Hint(1, false), Hint(1, false)],
                       [FILLED, EMPTY, FILLED, EMPTY, EMPTY])
         == [Hint(1, true), Hint(1, false)]
    ensures MatchHints([EMPTY, EMPTY, FILLED, EMPTY, EMPTY], [Hint(1, false), Hint(1, false)],
                       [FILLED, EMPTY, FILLED, EMPTY, EMPTY])
         == [Hint(1, false), Hint(1, true)]
    ensures MatchHints([FILLED, EMPTY, FILLED], [Hint(1, true), Hint(1, false)], [FILLED, EMPTY, FILLED])
         == [Hint(1, true), Hint(1, true)]
    ensures MatchHints([FILLED, EMPTY, FILLED], [Hint(1, false), Hint(1, false)], [EMPTY, FILLED, EMPTY])
         == [Hint(1, false), Hint(1, false)]
    ensures SourceThrows([FILLED, EMPTY, FILLED], [Hint(1, false), Hint(1, false)], [EMPTY, FILLED, EMPTY])
  {
    assert Runs([EMPTY, EMPTY, FILLED]) == [Run(2, 1)];
    assert Runs([FILLED, EMPTY, FILLED]) == [Run(0, 1), Run(2, 1)];
    assert Runs([FILLED, EMPTY, EMPTY, EMPTY, EMPTY]) == [Run(0, 1)];
    assert Runs([EMPTY, EMPTY, FILLED, EMPTY, EMPTY]) == [Run(2, 1)];
    assert Runs([FILLED, EMPTY, FILLED, EMPTY, EMPTY]) == [Run(0, 1), Run(2, 1)];
    assert Runs([EMPTY, FILLED, EMPTY]) == [Run(1, 1)];
    var hints := [Hint(1, false), Hint(1, false)];
    assert !hints[1].used && 1 >= |Runs([EMPTY, FILLED, EMPTY])|
           && Runs([FILLED, EMPTY, FILLED])[0].length == hints[1].hint;
  }

  /** The "too short" test of hintChecker.test.ts expects no tick, but the code
      compares the line's run with the hint value, not with the answer run:
      the first hint is ticked, and the second makes the source throw. */
  lemma TooShortTestAgainstCode()
    ensures MatchHints([FILLED, EMPTY, EMPTY], [Hint(1, false), Hint(1, false)], [FILLED, FILLED, EMPTY])[0].used
    ensures SourceThrows([FILLED, EMPTY, EMPTY], [Hint(1, false), Hint(1, false)], [FILLED, FILLED, EMPTY])
  {
    assert Runs([FILLED, EMPTY, EMPTY]) == [Run(0, 1)];
    assert Runs([FILLED, FILLED, EMPTY]) == [Run(0, 2)];
    var hints := [Hint(1, false), Hint(1, false)];
    assert !hints[1].used && 1 >= |Runs([FILLED, FILLED, EMPTY])| && Runs([FILLED, EMPTY, EMPTY])[0].length == hints[1].hint;
  }
}
