/** Hint derivation, puzzle validation, the contradiction check and the line
    placement enumeration of src/utils/puzzleUtils.ts. */
module PuzzleUtils {
  import opened Nonogram
  import opened Lines

  // ---------------------------------------------------------------------------
  // createEmptyGameState

  /** A working grid of `height` rows of `width` EMPTY cells. */
  function EmptyGameState(width: nat, height: nat): (g: Grid)
    ensures HasShape(g, height, width)
    ensures forall r, c :: 0 <= r < height && 0 <= c < width ==> g[r][c] == EMPTY
  {
    seq(height, _ => Repeat(EMPTY, width))
  }

  // ---------------------------------------------------------------------------
  // deriveRowHints / deriveColumnHints

  /** One unused hint per run, in the order of the runs. */
  function HintsOfRuns(runs: seq<Run>): (h: seq<Hint>)
    ensures |h| == |runs|
    ensures forall k :: 0 <= k < |runs| ==> h[k] == Hint(runs[k].length, false)
  {
    if runs == [] then [] else [Hint(runs[0].length, false)] + HintsOfRuns(runs[1..])
  }

  /** The hints of one solution line. */
  function LineHints(line: seq<CellState>): seq<Hint>
  {
    HintsOfRuns(Runs(line))
  }

  /** The hint lists of all rows. */
  function RowHints(solution: Solution): (h: seq<seq<Hint>>)
    ensures |h| == |solution|
    ensures forall r :: 0 <= r < |solution| ==> h[r] == LineHints(solution[r])
  {
    seq(|solution|, r requires 0 <= r < |solution| => LineHints(solution[r]))
  }

  /** The width the source reads off a solution: the length of its first row
      (`solution[0]?.length ?? 0`). */
  function Width<T>(g: seq<seq<T>>): nat
  {
    if |g| == 0 then 0 else |g[0]|
  }

  /** Column `col` of a solution whose rows may be ragged: a missing cell reads
      as `undefined` in the source, which is not FILLED; here it reads EMPTY. */
  function SolutionColumn(solution: Solution, col: nat): (c: seq<SolutionCell>)
    ensures |c| == |solution|
    ensures forall r :: 0 <= r < |solution| ==>
              c[r] == if col < |solution[r]| then solution[r][col] else EMPTY
  {
    seq(|solution|, r requires 0 <= r < |solution| =>
      if col < |solution[r]| then solution[r][col] else EMPTY)
  }

  /** The transpose of a solution, `width` columns wide. */
  function Transpose(solution: Solution, width: nat): (t: Solution)
    ensures |t| == width
    ensures forall c :: 0 <= c < width ==> t[c] == SolutionColumn(solution, c)
  {
    seq(width, c requires 0 <= c < width => SolutionColumn(solution, c))
  }

  /** The hint lists of all columns: the row hints of the transpose. */
  function ColumnHints(solution: Solution): seq<seq<Hint>>
  {
    RowHints(Transpose(solution, Width(solution)))
  }

  /** Every derived hint is positive and unused, there is one per maximal run of
      the line, and the hint values add up to the number of FILLED cells; the
      line has no hint exactly when it has no FILLED cell. */
  lemma LineHintsProperties(line: seq<CellState>)
    ensures |LineHints(line)| == |Runs(line)|
    ensures forall k :: 0 <= k < |LineHints(line)| ==>
              LineHints(line)[k].hint >= 1 && !LineHints(line)[k].used
              && IsRunOf(line, Run(Runs(line)[k].start, LineHints(line)[k].hint))
    ensures SumHints(LineHints(line)) == CountFilled(line)
    ensures LineHints(line) == [] <==> forall p :: 0 <= p < |line| ==> line[p] != FILLED
  {
    RunsDecompose(line);
    RunsCountFilled(line);
    SumHintsOfRuns(Runs(line));
    NoRunsIffNoFilled(line);
  }

  /** The sum of the hint values of a list. */
  function SumHints(hints: seq<Hint>): nat
  {
    if hints == [] then 0 else hints[0].hint + SumHints(hints[1..])
  }

  lemma {:induction false} SumHintsOfRuns(runs: seq<Run>)
    ensures SumHints(HintsOfRuns(runs)) == SumLengths(runs)
  {
    if runs != [] {
      SumHintsOfRuns(runs[1..]);
      assert HintsOfRuns(runs)[1..] == HintsOfRuns(runs[1..]);
    }
  }

  /** One step of the scan, seen through the hints it yields: a FILLED cell
      extends the open run, another cell closes it (if one is open). */
  lemma ScanHintsStep(line: seq<CellState>, i: nat, start: int, len: nat)
    requires i < |line| && start >= -1
    ensures line[i] == FILLED ==>
      HintsOfRuns(Scan(line, i, start, len))
      == HintsOfRuns(Scan(line, i + 1, if start == -1 then i else start, len + 1))
    ensures line[i] != FILLED && start != -1 ==>
      HintsOfRuns(Scan(line, i, start, len)) == [Hint(len, false)] + HintsOfRuns(Scan(line, i + 1, -1, 0))
    ensures line[i] != FILLED && start == -1 ==>
      HintsOfRuns(Scan(line, i, start, len)) == HintsOfRuns(Scan(line, i + 1, -1, 0))
  {
    if line[i] != FILLED && start != -1 {
      var rest := Scan(line, i + 1, -1, 0);
      assert ([Run(start, len)] + rest)[1..] == rest;
    }
  }

  /** The end of the scan: an open run is closed. */
  lemma ScanHintsEnd(line: seq<CellState>, start: int, len: nat)
    requires start >= -1
    ensures HintsOfRuns(Scan(line, |line|, start, len)) == if start != -1 then [Hint(len, false)] else []
  {
  }

  /** The per-row loop of deriveRowHints: `currentCount` counts the open run,
      a non-FILLED cell closes it, and a run still open at the end is closed
      after the loop. */
  method DeriveLineHints(row: seq<CellState>) returns (hints: seq<Hint>)
    ensures hints == LineHints(row)
  {
    hints := [];
    var currentCount: nat := 0;
    ghost var start: int := -1;
    for i := 0 to |row|
      invariant start >= -1 && (start == -1 <==> currentCount == 0)
      invariant hints + HintsOfRuns(Scan(row, i, start, currentCount)) == LineHints(row)
    {
      ScanHintsStep(row, i, start, currentCount);
      if row[i] == FILLED {
        if start == -1 {
          start := i;
        }
        currentCount := currentCount + 1;
      } else if currentCount > 0 {
        hints := hints + [Hint(currentCount, false)];
        currentCount := 0;
        start := -1;
      }
    }
    ScanHintsEnd(row, start, currentCount);
    if currentCount > 0 {
      hints := hints + [Hint(currentCount, false)];
    }
  }

  /** deriveRowHints: the hints of every row, in row order. */
  method DeriveRowHints(solution: Solution) returns (hints: seq<seq<Hint>>)
    ensures hints == RowHints(solution)
  {
    hints := [];
    for r := 0 to |solution|
      invariant |hints| == r
      invariant forall k :: 0 <= k < r ==> hints[k] == LineHints(solution[k])
    {
      var h := DeriveLineHints(solution[r]);
      hints := hints + [h];
    }
  }

  /** deriveColumnHints: for every column of the first row's width, the same scan
      run top to bottom over `solution[row][col]`. */
  method DeriveColumnHints(solution: Solution) returns (hints: seq<seq<Hint>>)
    ensures hints == ColumnHints(solution)
    ensures hints == RowHints(Transpose(solution, Width(solution)))
  {
    var width := if |solution| == 0 then 0 else |solution[0]|;
    hints := [];
    for col := 0 to width
      invariant |hints| == col
      invariant forall k :: 0 <= k < col ==> hints[k] == LineHints(SolutionColumn(solution, k))
    {
      var columnHints := DeriveOneColumnHints(solution, col);
      hints := hints + [columnHints];
    }
  }

  /** The body of deriveColumnHints' outer loop: one column scanned top to
      bottom, a missing cell counting as not FILLED. */
  method DeriveOneColumnHints(solution: Solution, col: nat) returns (columnHints: seq<Hint>)
    ensures columnHints == LineHints(SolutionColumn(solution, col))
  {
    ghost var column := SolutionColumn(solution, col);
    columnHints := [];
    var currentCount: nat := 0;
    ghost var start: int := -1;
    for row := 0 to |solution|
      invariant start >= -1 && (start == -1 <==> currentCount == 0)
      invariant columnHints + HintsOfRuns(Scan(column, row, start, currentCount)) == LineHints(column)
    {
      ScanHintsStep(column, row, start, currentCount);
      if col < |solution[row]| && solution[row][col] == FILLED {
        if start == -1 {
          start := row;
        }
        currentCount := currentCount + 1;
      } else if currentCount > 0 {
        columnHints := columnHints + [Hint(currentCount, false)];
        currentCount := 0;
        start := -1;
      }
    }
    ScanHintsEnd(column, start, currentCount);
    if currentCount > 0 {
      columnHints := columnHints + [Hint(currentCount, false)];
    }
  }

  // ---------------------------------------------------------------------------
  // validatePuzzle

  /** A well-formed puzzle: at least one row, a positive width, every row as wide
      as the first, and every cell EMPTY or FILLED. */
  predicate IsValidPuzzle(puzzle: seq<seq<CellState>>)
  {
    |puzzle| > 0 && |puzzle[0]| > 0
    && HasWidth(puzzle, |puzzle[0]|)
    && forall i, j :: 0 <= i < |puzzle| && 0 <= j < |puzzle[i]| ==> puzzle[i][j] != CROSSED_OUT
  }

  /** validatePuzzle, with its early returns. */
  method ValidatePuzzle(puzzle: seq<seq<CellState>>) returns (ok: bool)
    ensures ok <==> IsValidPuzzle(puzzle)
  {
    if |puzzle| == 0 {
      return false;
    }
    var height := |puzzle|;
    var width := |puzzle[0]|;
    if width == 0 {
      return false;
    }
    for i := 0 to height
      invariant forall k :: 0 <= k < i ==> |puzzle[k]| == width
      invariant forall k, j :: 0 <= k < i && 0 <= j < width ==> puzzle[k][j] != CROSSED_OUT
    {
      if |puzzle[i]| != width {
        return false;
      }
      for j := 0 to width
        invariant forall l :: 0 <= l < j ==> puzzle[i][l] != CROSSED_OUT
      {
        if puzzle[i][j] != EMPTY && puzzle[i][j] != FILLED {
          return false;
        }
      }
    }
    return true;
  }

  /** A valid puzzle, read as a rectangular solution grid of positive width. */
  function AsSolution(puzzle: seq<seq<CellState>>): (s: Solution)
    requires IsValidPuzzle(puzzle)
    ensures s == puzzle
    ensures HasShape(s, |puzzle|, Width(s)) && Width(s) > 0
  {
    var s: Solution := seq(|puzzle|, i requires 0 <= i < |puzzle| =>
      seq(|puzzle[i]|, j requires 0 <= j < |puzzle[i]| => var c: SolutionCell := puzzle[i][j]; c));
    assert forall i :: 0 <= i < |puzzle| ==> s[i] == puzzle[i];
    s
  }

  // ---------------------------------------------------------------------------
  // checkSolution and the line completion rule

  /** The solution cell at (i, j), or None where a ragged solution row is too short
      (the source reads `undefined` there, which equals neither state). */
  function SolutionAt(solution: Solution, i: nat, j: nat): Option<CellState>
  {
    if i < |solution| && j < |solution[i]| then Some(solution[i][j]) else None
  }

  /** A working cell contradicts the solution: crossed out where the solution is
      FILLED, or FILLED where the solution is EMPTY. */
  predicate Contradicts(cell: CellState, answer: Option<CellState>)
  {
    (cell == CROSSED_OUT && answer == Some(FILLED)) || (cell == FILLED && answer == Some(EMPTY))
  }

  /** The working grid has the solution's height and first-row width. */
  predicate SameDimensions(solution: Solution, gameState: Grid)
  {
    |gameState| == |solution| && HasWidth(gameState, Width(solution))
  }

  /** checkSolution's verdict: same dimensions, and no cell contradicts. */
  predicate SolutionMatches(solution: Solution, gameState: Grid)
  {
    SameDimensions(solution, gameState)
    && forall i, j :: 0 <= i < |solution| && 0 <= j < Width(solution) ==>
         !Contradicts(gameState[i][j], SolutionAt(solution, i, j))
  }

  /** checkSolution, with its early returns. */
  method CheckSolution(solution: Solution, gameState: Grid) returns (ok: bool)
    ensures ok <==> SolutionMatches(solution, gameState)
  {
    var height := |solution|;
    var width := if |solution| == 0 then 0 else |solution[0]|;
    if |gameState| != height || exists r :: 0 <= r < |gameState| && |gameState[r]| != width {
      return false;
    }
    for i := 0 to height
      invariant forall k, j :: 0 <= k < i && 0 <= j < width ==>
                  !Contradicts(gameState[k][j], SolutionAt(solution, k, j))
    {
      for j := 0 to width
        invariant forall l :: 0 <= l < j ==> !Contradicts(gameState[i][l], SolutionAt(solution, i, l))
      {
        var answer := SolutionAt(solution, i, j);
        if gameState[i][j] == CROSSED_OUT && answer == Some(FILLED) {
          return false;
        }
        if gameState[i][j] == FILLED && answer == Some(EMPTY) {
          return false;
        }
      }
    }
    return true;
  }

  /** EMPTY cells never contradict: an untouched grid of the solution's size
      passes, whatever the solution. */
  lemma EmptyGridMatches(solution: Solution)
    ensures SolutionMatches(solution, EmptyGameState(Width(solution), |solution|))
  {
  }

  /** checkSolution is false on any dimension mismatch. */
  lemma DimensionMismatchFails(solution: Solution, gameState: Grid)
    requires !SameDimensions(solution, gameState)
    ensures !SolutionMatches(solution, gameState)
  {
  }

  /** A rectangular pair of grids. */
  predicate Rectangular(puzzle: Solution, grid: Grid)
  {
    HasShape(puzzle, |puzzle|, Width(puzzle)) && HasShape(grid, |puzzle|, Width(puzzle))
  }

  /** No cell of the working line contradicts the answer line. EMPTY cells are
      always allowed, so this means "free of contradiction", not "solved". */
  predicate LineConsistent(answer: seq<SolutionCell>, line: seq<CellState>)
    requires |answer| == |line|
  {
    forall k :: 0 <= k < |line| ==> !Contradicts(line[k], Some(answer[k]))
  }

  /** isRowOrColumnComplete (imported by src/utils/updateCell.ts but not defined
      in src/utils/puzzleUtils.ts): the contradiction rule of checkSolution,
      restricted to row `index` (isRow) or column `index`. */
  predicate IsRowOrColumnComplete(puzzle: Solution, grid: Grid, isRow: bool, index: nat)
    requires Rectangular(puzzle, grid)
    requires if isRow then index < |puzzle| else index < Width(puzzle)
    ensures isRow ==> (IsRowOrColumnComplete(puzzle, grid, isRow, index) <==>
              forall j :: 0 <= j < Width(puzzle) ==> !Contradicts(grid[index][j], SolutionAt(puzzle, index, j)))
    ensures !isRow ==> (IsRowOrColumnComplete(puzzle, grid, isRow, index) <==>
              forall i :: 0 <= i < |puzzle| ==> !Contradicts(grid[i][index], SolutionAt(puzzle, i, index)))
  {
    if isRow then LineConsistent(puzzle[index], grid[index])
    else LineConsistent(Column(puzzle, index), Column(grid, index))
  }

  /** On rectangular grids the grid-wide check holds exactly when every row, and
      exactly when every column, is free of contradiction. */
  lemma SolutionMatchesIffLinesComplete(puzzle: Solution, grid: Grid)
    requires Rectangular(puzzle, grid)
    ensures SolutionMatches(puzzle, grid) <==>
              forall r :: 0 <= r < |puzzle| ==> IsRowOrColumnComplete(puzzle, grid, true, r)
    ensures SolutionMatches(puzzle, grid) <==>
              forall c :: 0 <= c < Width(puzzle) ==> IsRowOrColumnComplete(puzzle, grid, false, c)
  {
    if forall c :: 0 <= c < Width(puzzle) ==> IsRowOrColumnComplete(puzzle, grid, false, c) {
      forall i, j | 0 <= i < |puzzle| && 0 <= j < Width(puzzle)
        ensures !Contradicts(grid[i][j], SolutionAt(puzzle, i, j))
      {
        assert IsRowOrColumnComplete(puzzle, grid, false, j);
        assert Column(grid, j)[i] == grid[i][j];
      }
    }
    if forall r :: 0 <= r < |puzzle| ==> IsRowOrColumnComplete(puzzle, grid, true, r) {
      forall i, j | 0 <= i < |puzzle| && 0 <= j < Width(puzzle)
        ensures !Contradicts(grid[i][j], SolutionAt(puzzle, i, j))
      {
        assert IsRowOrColumnComplete(puzzle, grid, true, i);
      }
    }
  }

  // ---------------------------------------------------------------------------
  // generatePossibleDataForHints

  /** The sum of the first n hint values. */
  function SumTo(hints: seq<Hint>, n: nat): nat
    requires n <= |hints|
  {
    if n == 0 then 0 else SumTo(hints, n - 1) + hints[n - 1].hint
  }

  /** `hints.reduce((acc, hint) => acc + hint.hint, 0) + hints.length - 1`: the
      cells the runs take with one separator between consecutive runs (-1 for an
      empty hint list). */
  function HintWidth(hints: seq<Hint>): int
  {
    SumTo(hints, |hints|) + |hints| - 1
  }

  /** The runs of the first n hints, each followed by one CROSSED_OUT separator
      unless it is the last hint: what the `forEach` of the source pushes. */
  function BlockUpTo(hints: seq<Hint>, n: nat): (b: seq<CellState>)
    requires n <= |hints|
    ensures |b| + (if 0 < n == |hints| then 1 else 0) == SumTo(hints, n) + n
  {
    if n == 0 then []
    else BlockUpTo(hints, n - 1) + Repeat(FILLED, hints[n - 1].hint)
         + (if n - 1 < |hints| - 1 then [CROSSED_OUT] else [])
  }

  /** The block of all runs, separated by single CROSSED_OUT cells. */
  function Block(hints: seq<Hint>): (b: seq<CellState>)
    requires hints != []
    ensures |b| == HintWidth(hints)
  {
    BlockUpTo(hints, |hints|)
  }

  /** Possibility i: i CROSSED_OUT cells, the block of runs, CROSSED_OUT padding. */
  function Possibility(hints: seq<Hint>, size: nat, i: nat): (p: seq<CellState>)
    requires hints != [] && i + HintWidth(hints) <= size
    ensures |p| == size
  {
    Repeat(CROSSED_OUT, i) + Block(hints) + Repeat(CROSSED_OUT, size - HintWidth(hints) - i)
  }

  /** The placements of generatePossibleDataForHints as evidently intended:
      flat lines of `size` cells, the block sliding over offsets 0 through
      size - HintWidth inclusive; an empty hint list has the single all
      CROSSED_OUT line. */
  function Possibilities(hints: seq<Hint>, size: nat): (ps: seq<seq<CellState>>)
    ensures forall k :: 0 <= k < |ps| ==> |ps[k]| == size
    ensures |ps| == if hints == [] then 1 else if HintWidth(hints) > size then 0 else size - HintWidth(hints) + 1
  {
    if hints == [] then [Repeat(CROSSED_OUT, size)]
    else if HintWidth(hints) > size then []
    else seq(size - HintWidth(hints) + 1, i requires 0 <= i <= size - HintWidth(hints) =>
               Possibility(hints, size, i))
  }

  /** A line holds no EMPTY cell. */
  predicate Determined(line: seq<CellState>)
  {
    forall k :: 0 <= k < |line| ==> line[k] != EMPTY
  }

  lemma {:induction false} BlockUpToDetermined(hints: seq<Hint>, n: nat)
    requires n <= |hints|
    ensures Determined(BlockUpTo(hints, n))
  {
    if n > 0 {
      BlockUpToDetermined(hints, n - 1);
    }
  }

  /** Every placement is `size` cells long, holds only FILLED and CROSSED_OUT,
      and placement i starts with exactly i CROSSED_OUT cells followed by the
      block of runs and CROSSED_OUT padding; there are size - HintWidth + 1
      placements when the runs fit, none when they do not, and one for an empty
      hint list. */
  lemma PossibilitiesShape(hints: seq<Hint>, size: nat)
    ensures hints == [] ==> |Possibilities(hints, size)| == 1
    ensures hints != [] ==>
              |Possibilities(hints, size)| == if HintWidth(hints) <= size then size - HintWidth(hints) + 1 else 0
    ensures forall p :: p in Possibilities(hints, size) ==> |p| == size && Determined(p)
    ensures hints != [] ==> forall i :: 0 <= i < |Possibilities(hints, size)| ==>
              var p := Possibilities(hints, size)[i];
              p[..i] == Repeat(CROSSED_OUT, i)
              && p[i..i + HintWidth(hints)] == Block(hints)
              && p[i + HintWidth(hints)..] == Repeat(CROSSED_OUT, size - HintWidth(hints) - i)
  {
    if hints != [] {
      BlockUpToDetermined(hints, |hints|);
      if HintWidth(hints) <= size {
        forall i | 0 <= i <= size - HintWidth(hints)
          ensures var p := Possibility(hints, size, i);
                  p[..i] == Repeat(CROSSED_OUT, i)
                  && p[i..i + HintWidth(hints)] == Block(hints)
                  && p[i + HintWidth(hints)..] == Repeat(CROSSED_OUT, size - HintWidth(hints) - i)
                  && Determined(p)
        {
          var p := Possibility(hints, size, i);
          var w := HintWidth(hints);
          assert p == Repeat(CROSSED_OUT, i) + Block(hints) + Repeat(CROSSED_OUT, size - w - i);
          assert p[..i] == Repeat(CROSSED_OUT, i);
          assert p[i..i + w] == Block(hints);
          assert p[i + w..] == Repeat(CROSSED_OUT, size - w - i);
        }
      }
    }
  }

  /** generatePossibleDataForHints with the bound `i <= size - hintWidth`, flat
      pushes, and the empty hint list as one all CROSSED_OUT line. */
  method GeneratePossibleDataForHints(hints: seq<Hint>, size: nat) returns (solutions: seq<seq<CellState>>)
    ensures solutions == Possibilities(hints, size)
  {
    if |hints| == 0 {
      return [Repeat(CROSSED_OUT, size)];
    }
    var total := 0;
    for k := 0 to |hints|
      invariant total == SumTo(hints, k)
    {
      total := total + hints[k].hint;
    }
    var hintWidth := total + |hints| - 1;
    solutions := [];
    var i := 0;
    while i <= size - hintWidth
      invariant 0 <= i && (hintWidth <= size ==> i <= size - hintWidth + 1)
      invariant hintWidth > size ==> i == 0
      invariant |solutions| == i
      invariant forall k :: 0 <= k < i ==> hintWidth <= size && solutions[k] == Possibility(hints, size, k)
    {
      var solution := Repeat(CROSSED_OUT, i);
      for hintIndex := 0 to |hints|
        invariant solution == Repeat(CROSSED_OUT, i) + BlockUpTo(hints, hintIndex)
      {
        solution := solution + Repeat(FILLED, hints[hintIndex].hint);
        if hintIndex < |hints| - 1 {
          solution := solution + [CROSSED_OUT];
        }
      }
      solution := solution + Repeat(CROSSED_OUT, size - hintWidth - i);
      solutions := solutions + [solution];
      i := i + 1;
    }
  }

  /** The three enumeration examples of the design: hints [1,1] in 3 cells give
      exactly FILLED, CROSSED_OUT, FILLED; hints [1,2] in 3 cells give nothing;
      hint [1] in 3 cells gives one FILLED cell sliding over positions 0, 1, 2. */
  lemma PossibilitiesExamples()
    ensures Possibilities([Hint(1, false), Hint(1, false)], 3) == [[FILLED, CROSSED_OUT, FILLED]]
    ensures Possibilities([Hint(1, false), Hint(2, false)], 3) == []
    ensures Possibilities([Hint(1, false)], 3)
         == [[FILLED, CROSSED_OUT, CROSSED_OUT], [CROSSED_OUT, FILLED, CROSSED_OUT], [CROSSED_OUT, CROSSED_OUT, FILLED]]
  {
    var h11 := [Hint(1, false), Hint(1, false)];
    assert BlockUpTo(h11, 1) == [FILLED, CROSSED_OUT];
    assert Block(h11) == [FILLED, CROSSED_OUT, FILLED];
    assert Possibility(h11, 3, 0) == [FILLED, CROSSED_OUT, FILLED];
    var h1 := [Hint(1, false)];
    assert Block(h1) == [FILLED];
    assert Possibility(h1, 3, 0) == [FILLED, CROSSED_OUT, CROSSED_OUT];
    assert Possibility(h1, 3, 1) == [CROSSED_OUT, FILLED, CROSSED_OUT];
    assert Possibility(h1, 3, 2) == [CROSSED_OUT, CROSSED_OUT, FILLED];
  }

  // ---------------------------------------------------------------------------
  // What the enumeration lists, independently of how it builds the lines

  /** The hints as the deriver produces them: every value at least 1. */
  predicate PositiveHints(hints: seq<Hint>)
  {
    forall k :: 0 <= k < |hints| ==> hints[k].hint >= 1
  }

  /** A line the enumeration is meant to list: `size` cells, none EMPTY, whose
      maximal runs of FILLED cells have the hint values as lengths, in order,
      each run one cell after the previous one. */
  predicate SingleGapLine(line: seq<CellState>, hints: seq<Hint>, size: nat)
  {
    |line| == size && Determined(line)
    && |Runs(line)| == |hints|
    && (forall k :: 0 <= k < |hints| ==> Runs(line)[k].length == hints[k].hint)
    && (forall k :: 0 <= k < |hints| - 1 ==> Runs(line)[k + 1].start == End(Runs(line)[k]) + 1)
  }

  /** Where block k starts inside the hint blocks: the earlier blocks and one
      separating cell after each. */
  function Offset(hints: seq<Hint>, k: nat): nat
    requires k <= |hints|
  {
    SumTo(hints, k) + k
  }

  /** Block k ends at least one cell before any later block starts. */
  lemma {:induction false} OffsetGap(hints: seq<Hint>, k: nat, m: nat)
    requires k < m <= |hints|
    ensures Offset(hints, k) + hints[k].hint + 1 <= Offset(hints, m)
    decreases m
  {
    if k < m - 1 {
      OffsetGap(hints, k, m - 1);
    }
  }

  /** The runs of placement i: block k at `i + Offset(hints, k)`. */
  function PlacedRuns(hints: seq<Hint>, i: nat): (runs: seq<Run>)
    ensures |runs| == |hints|
    ensures forall k :: 0 <= k < |hints| ==> runs[k] == Run(i + Offset(hints, k), hints[k].hint)
  {
    seq(|hints|, k requires 0 <= k < |hints| => Run(i + Offset(hints, k), hints[k].hint))
  }

  /** The cells of the first n blocks: none EMPTY, and FILLED exactly inside
      one of the blocks. */
  lemma {:induction false} BlockCells(hints: seq<Hint>, n: nat, q: nat)
    requires n <= |hints| && q < |BlockUpTo(hints, n)|
    ensures BlockUpTo(hints, n)[q] != EMPTY
    ensures BlockUpTo(hints, n)[q] == FILLED
        <==> exists k :: 0 <= k < n && Offset(hints, k) <= q < Offset(hints, k) + hints[k].hint
  {
    var prefix := BlockUpTo(hints, n - 1);
    var o := Offset(hints, n - 1);
    var rest := Repeat(FILLED, hints[n - 1].hint) + (if n - 1 < |hints| - 1 then [CROSSED_OUT] else []);
    assert |prefix| == o;
    assert BlockUpTo(hints, n) == prefix + rest;
    if q < o {
      BlockCells(hints, n - 1, q);
      assert BlockUpTo(hints, n)[q] == prefix[q];
    } else if q < o + hints[n - 1].hint {
      assert BlockUpTo(hints, n)[q] == rest[q - o];
    } else {
      assert BlockUpTo(hints, n)[q] == rest[q - o] == CROSSED_OUT;
      forall k | 0 <= k < n - 1
        ensures !(Offset(hints, k) <= q < Offset(hints, k) + hints[k].hint)
      {
        OffsetGap(hints, k, n - 1);
      }
    }
  }

  /** The cells of placement i: none EMPTY, and FILLED exactly where one of
      its placed runs covers the cell. */
  lemma PossibilityCells(hints: seq<Hint>, size: nat, i: nat, p: nat)
    requires hints != [] && i + HintWidth(hints) <= size && p < size
    ensures Possibility(hints, size, i)[p] != EMPTY
    ensures Possibility(hints, size, i)[p] == FILLED
        <==> exists k :: 0 <= k < |hints| && Covers(PlacedRuns(hints, i)[k], p)
  {
    if p < i {
    } else if p < i + HintWidth(hints) {
      BlockPartCells(hints, size, i, p);
    } else {
      PaddingCells(hints, size, i, p);
    }
  }

  /** Inside the blocks, placement i is the blocks shifted by i. */
  lemma BlockPartCells(hints: seq<Hint>, size: nat, i: nat, p: nat)
    requires hints != [] && i + HintWidth(hints) <= size && i <= p < i + HintWidth(hints)
    ensures Possibility(hints, size, i)[p] != EMPTY
    ensures Possibility(hints, size, i)[p] == FILLED
        <==> exists k :: 0 <= k < |hints| && Covers(PlacedRuns(hints, i)[k], p)
  {
    var line := Possibility(hints, size, i);
    assert line[p] == Block(hints)[p - i];
    BlockCells(hints, |hints|, p - i);
    if line[p] == FILLED {
      var k :| 0 <= k < |hints| && Offset(hints, k) <= p - i < Offset(hints, k) + hints[k].hint;
      assert Covers(PlacedRuns(hints, i)[k], p);
    }
  }

  /** After the blocks, placement i is crossed out and no placed run reaches. */
  lemma PaddingCells(hints: seq<Hint>, size: nat, i: nat, p: nat)
    requires hints != [] && i + HintWidth(hints) <= p < size
    ensures Possibility(hints, size, i)[p] == CROSSED_OUT
    ensures !exists k :: 0 <= k < |hints| && Covers(PlacedRuns(hints, i)[k], p)
  {
    forall k | 0 <= k < |hints|
      ensures !Covers(PlacedRuns(hints, i)[k], p)
    {
      BlockEndsInside(hints, k);
    }
  }

  /** Every block ends within the width of the hints. */
  lemma BlockEndsInside(hints: seq<Hint>, k: nat)
    requires k < |hints|
    ensures Offset(hints, k) + hints[k].hint <= HintWidth(hints)
  {
    if k < |hints| - 1 {
      OffsetGap(hints, k, |hints| - 1);
    }
  }

  /** Runs that are non-empty, inside the line, strictly ordered with a gap,
      and cover exactly the FILLED cells are the line's runs. */
  lemma ExactRuns(line: seq<CellState>, runs: seq<Run>)
    requires forall k :: 0 <= k < |runs| ==> runs[k].length >= 1 && End(runs[k]) <= |line|
    requires forall k, l :: 0 <= k < l < |runs| ==> End(runs[k]) < runs[l].start
    requires forall p :: 0 <= p < |line| ==>
               (line[p] == FILLED <==> exists k :: 0 <= k < |runs| && Covers(runs[k], p))
    ensures Runs(line) == runs
  {
    forall k | 0 <= k < |runs|
      ensures IsRunOf(line, runs[k])
    {
      var r := runs[k];
      forall q | r.start <= q < End(r)
        ensures line[q] == FILLED
      {
        assert Covers(runs[k], q);
      }
    }
    assert DecompFrom(line, runs, 0);
    RunsDecompose(line);
    DecompUnique(line, Runs(line), runs, 0);
  }

  /** Placement i has exactly its placed runs. */
  lemma PossibilityRuns(hints: seq<Hint>, size: nat, i: nat)
    requires PositiveHints(hints) && hints != [] && i + HintWidth(hints) <= size
    ensures Runs(Possibility(hints, size, i)) == PlacedRuns(hints, i)
  {
    PlacedRunsInside(hints, size, i);
    PlacedRunsApart(hints, i);
    PlacedRunsCover(hints, size, i);
    ExactRuns(Possibility(hints, size, i), PlacedRuns(hints, i));
  }

  /** The placed runs of i are non-empty and end inside `size` cells. */
  lemma PlacedRunsInside(hints: seq<Hint>, size: nat, i: nat)
    requires PositiveHints(hints) && i + HintWidth(hints) <= size
    ensures forall k :: 0 <= k < |hints| ==>
              PlacedRuns(hints, i)[k].length >= 1 && End(PlacedRuns(hints, i)[k]) <= size
  {
    forall k | 0 <= k < |hints|
      ensures End(PlacedRuns(hints, i)[k]) <= size
    {
      BlockEndsInside(hints, k);
    }
  }

  /** Each placed run ends before any later one starts. */
  lemma PlacedRunsApart(hints: seq<Hint>, i: nat)
    ensures forall k, l :: 0 <= k < l < |hints| ==> End(PlacedRuns(hints, i)[k]) < PlacedRuns(hints, i)[l].start
  {
    forall k, l | 0 <= k < l < |hints|
      ensures End(PlacedRuns(hints, i)[k]) < PlacedRuns(hints, i)[l].start
    {
      OffsetGap(hints, k, l);
    }
  }

  /** The placed runs cover exactly the FILLED cells of placement i. */
  lemma PlacedRunsCover(hints: seq<Hint>, size: nat, i: nat)
    requires hints != [] && i + HintWidth(hints) <= size
    ensures forall p :: 0 <= p < size ==>
              (Possibility(hints, size, i)[p] == FILLED
               <==> exists k :: 0 <= k < |hints| && Covers(PlacedRuns(hints, i)[k], p))
  {
    forall p | 0 <= p < size
      ensures Possibility(hints, size, i)[p] == FILLED
          <==> exists k :: 0 <= k < |hints| && Covers(PlacedRuns(hints, i)[k], p)
    {
      PossibilityCells(hints, size, i, p);
    }
  }

  /** Runs chained one cell apart from a first start i are the placed runs
      of i. */
  lemma {:induction false} ChainedArePlaced(runs: seq<Run>, hints: seq<Hint>, i: nat, k: nat)
    requires |runs| == |hints| && k < |hints| && runs[0].start == i
    requires forall m :: 0 <= m < |hints| ==> runs[m].length == hints[m].hint
    requires forall m :: 0 <= m < |hints| - 1 ==> runs[m + 1].start == End(runs[m]) + 1
    ensures runs[k] == PlacedRuns(hints, i)[k]
  {
    if k > 0 {
      ChainedArePlaced(runs, hints, i, k - 1);
    }
  }

  /** The last block ends exactly at the width of the hints. */
  lemma LastBlockEnd(hints: seq<Hint>)
    requires hints != []
    ensures Offset(hints, |hints| - 1) + hints[|hints| - 1].hint == HintWidth(hints)
  {
  }

  /** Two determined lines of the same length with the same runs are equal:
      the runs fix the FILLED cells and every other cell is crossed out. */
  lemma SameRunsSameLine(a: seq<CellState>, b: seq<CellState>)
    requires |a| == |b| && Determined(a) && Determined(b) && Runs(a) == Runs(b)
    ensures a == b
  {
    RunsDecompose(a);
    RunsDecompose(b);
    forall p | 0 <= p < |a|
      ensures a[p] == b[p]
    {
      if a[p] == FILLED {
        var k :| 0 <= k < |Runs(a)| && Covers(Runs(a)[k], p);
        assert IsRunOf(b, Runs(b)[k]);
      }
      if b[p] == FILLED {
        var k :| 0 <= k < |Runs(b)| && Covers(Runs(b)[k], p);
        assert IsRunOf(a, Runs(a)[k]);
      }
    }
  }

  /** The runs of a single-gap line are the placed runs of its first start. */
  lemma SingleGapRunsPlaced(line: seq<CellState>, hints: seq<Hint>, size: nat)
    requires hints != [] && SingleGapLine(line, hints, size)
    ensures Runs(line) == PlacedRuns(hints, Runs(line)[0].start)
  {
    var runs := Runs(line);
    var i := runs[0].start;
    forall k | 0 <= k < |hints|
      ensures runs[k] == PlacedRuns(hints, i)[k]
    {
      ChainedArePlaced(runs, hints, i, k);
    }
  }

  /** A single-gap line is the placement at the start of its first run. */
  lemma SingleGapLineIsPlaced(line: seq<CellState>, hints: seq<Hint>, size: nat)
    requires PositiveHints(hints) && hints != [] && SingleGapLine(line, hints, size)
    ensures Runs(line)[0].start + HintWidth(hints) <= size
    ensures line == Possibility(hints, size, Runs(line)[0].start)
  {
    var runs := Runs(line);
    var i := runs[0].start;
    var n := |hints|;
    SingleGapRunsPlaced(line, hints, size);
    RunsDecompose(line);
    assert IsRunOf(line, runs[n - 1]);
    LastBlockEnd(hints);
    PossibilityRuns(hints, size, i);
    PlacementDetermined(hints, size, i);
    SameRunsSameLine(line, Possibility(hints, size, i));
  }

  /** No cell of a placement is EMPTY. */
  lemma PlacementDetermined(hints: seq<Hint>, size: nat, i: nat)
    requires hints != [] && i + HintWidth(hints) <= size
    ensures Determined(Possibility(hints, size, i))
  {
    forall p | 0 <= p < size
      ensures Possibility(hints, size, i)[p] != EMPTY
    {
      PossibilityCells(hints, size, i, p);
    }
  }

  /** Every placement is a single-gap line of its hints. */
  lemma PlacementIsSingleGap(hints: seq<Hint>, size: nat, i: nat)
    requires PositiveHints(hints) && hints != [] && i + HintWidth(hints) <= size
    ensures SingleGapLine(Possibility(hints, size, i), hints, size)
  {
    var line := Possibility(hints, size, i);
    PossibilityRuns(hints, size, i);
    PlacementDetermined(hints, size, i);
    forall k | 0 <= k < |hints| - 1
      ensures Runs(line)[k + 1].start == End(Runs(line)[k]) + 1
    {
      assert Offset(hints, k + 1) == Offset(hints, k) + hints[k].hint + 1;
    }
  }

  /** The enumeration lists exactly the single-gap lines of the hints: each
      placement has the hint values as its run lengths (as LineHints reads
      them back) with one crossed cell between runs, and every such line is
      a placement. */
  lemma PossibilitiesAreSingleGapLines(hints: seq<Hint>, size: nat, line: seq<CellState>)
    requires PositiveHints(hints)
    ensures line in Possibilities(hints, size) <==> SingleGapLine(line, hints, size)
    ensures line in Possibilities(hints, size) ==>
              |LineHints(line)| == |hints| && forall k :: 0 <= k < |hints| ==> LineHints(line)[k].hint == hints[k].hint
  {
    if hints == [] {
      NoRunsIffNoFilled(line);
      if SingleGapLine(line, hints, size) {
        assert line == Repeat(CROSSED_OUT, size);
      }
    } else {
      if line in Possibilities(hints, size) {
        var i :| 0 <= i <= size - HintWidth(hints) && line == Possibility(hints, size, i);
        PlacementIsSingleGap(hints, size, i);
      }
      if SingleGapLine(line, hints, size) {
        SingleGapLineIsPlaced(line, hints, size);
        assert Possibilities(hints, size)[Runs(line)[0].start] == line;
      }
    }
  }

  // ---------------------------------------------------------------------------
  // generatePossibleDataForHints as written

  /** An element the source pushes: a single cell, or a whole array of cells
      (`solution.push(Array(n).fill(...))` pushes the array as one element). */
  datatype Entry = Single(cell: CellState) | Nested(cells: seq<CellState>)

  function Singles(c: CellState, n: nat): (r: seq<Entry>)
    ensures |r| == n
  {
    if n == 0 then [] else [Single(c)] + Singles(c, n - 1)
  }

  /** The forEach of the source as written: each run pushed as one nested array. */
  function NestedBlockUpTo(hints: seq<Hint>, n: nat): seq<Entry>
    requires n <= |hints|
  {
    if n == 0 then []
    else NestedBlockUpTo(hints, n - 1) + [Nested(Repeat(FILLED, hints[n - 1].hint))]
         + (if n - 1 < |hints| - 1 then [Single(CROSSED_OUT)] else [])
  }

  /** generatePossibleDataForHints exactly as written: `i < size - hintWidth`,
      nested arrays for the runs and the padding, hintWidth = -1 for no hints. */
  function PossibilitiesAsWritten(hints: seq<Hint>, size: nat): (ps: seq<seq<Entry>>)
    ensures |ps| == if size - HintWidth(hints) > 0 then size - HintWidth(hints) else 0
  {
    var w := HintWidth(hints);
    if size - w <= 0 then []
    else seq(size - w, i requires 0 <= i < size - w =>
               Singles(CROSSED_OUT, i) + NestedBlockUpTo(hints, |hints|)
               + [Nested(Repeat(CROSSED_OUT, size - w - i))])
  }

  /** The code as written loses every placement of a line its runs fill exactly
      (hints [1,1] in 3 cells: none, where FILLED, CROSSED_OUT, FILLED is the
      answer), and its placements are not lines of `size` cells (hint [2] in 3
      cells gives the two elements [FILLED, FILLED] and [CROSSED_OUT]). */
  lemma AsWrittenPlacementsWrong()
    ensures PossibilitiesAsWritten([Hint(1, false), Hint(1, false)], 3) == []
    ensures |Possibilities([Hint(1, false), Hint(1, false)], 3)| == 1
    ensures PossibilitiesAsWritten([Hint(2, false)], 3)
         == [[Nested([FILLED, FILLED]), Nested([CROSSED_OUT])]]
    ensures |PossibilitiesAsWritten([], 3)| == 4
  {
    PossibilitiesShape([Hint(1, false), Hint(1, false)], 3);
    var h2 := [Hint(2, false)];
    assert Repeat(FILLED, 2) == [FILLED, FILLED];
    assert NestedBlockUpTo(h2, 1) == [Nested([FILLED, FILLED])];
    assert Repeat(CROSSED_OUT, 1) == [CROSSED_OUT];
    var ps := PossibilitiesAsWritten(h2, 3);
    assert ps[0] == Singles(CROSSED_OUT, 0) + NestedBlockUpTo(h2, 1) + [Nested(Repeat(CROSSED_OUT, 1))];
    assert ps[0] == [Nested([FILLED, FILLED]), Nested([CROSSED_OUT])];
  }
}
