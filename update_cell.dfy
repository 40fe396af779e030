/** The cell mutation of src/utils/updateCell.ts: a toggle of the target cell
    (or, in Assisted mode, an error and a cross-out for a wrong fill), the
    hint ticks of the target row and column, and the Assisted auto cross-out
    of a contradiction-free row and column. */
module UpdateCell {
  import opened Nonogram
  import opened Lines
  import opened PuzzleUtils
  import opened HintChecker

  /** The error feedback (src/utils/errorSound.ts), reduced to a count of the
      times it was played. */
  class ErrorSound {
    var plays: nat

    constructor ()
      ensures plays == 0
    {
      plays := 0;
    }

    method Play()
      modifies this
      ensures plays == old(plays) + 1
    {
      plays := plays + 1;
    }
  }

  /** The normal update of one cell: an EMPTY cell takes the tool, a cell
      already holding the tool becomes EMPTY, any other cell is left alone. */
  function Toggle(cell: CellState, tool: CellState): (r: CellState)
    ensures cell == EMPTY ==> r == tool
    ensures tool != EMPTY ==> (r == EMPTY <==> cell == tool)
    ensures cell != EMPTY && cell != tool ==> r == cell
  {
    if cell == EMPTY || cell == tool then (if cell == tool then EMPTY else tool) else cell
  }

  /** The move Assisted mode refuses: filling a cell the solution leaves EMPTY. */
  predicate IsInvalidMove(mode: GameMode, tool: CellState, answer: SolutionCell)
  {
    mode == Assisted && tool == FILLED && answer == EMPTY
  }

  /** The new value of the target cell. */
  function NewCellValue(mode: GameMode, tool: CellState, cell: CellState, answer: SolutionCell): (r: CellState)
    ensures mode == Free ==> r == Toggle(cell, tool)
    ensures r != Toggle(cell, tool) ==> mode == Assisted && tool == FILLED && answer == EMPTY && r == CROSSED_OUT
    ensures mode == Assisted && tool == FILLED && answer == EMPTY ==> r == CROSSED_OUT
  {
    if IsInvalidMove(mode, tool, answer) then CROSSED_OUT else Toggle(cell, tool)
  }

  /** A target cell inside a working grid of the solution's shape. */
  predicate ValidTarget(puzzle: Solution, g: Grid, row: nat, col: nat)
  {
    Rectangular(puzzle, g) && row < |puzzle| && col < Width(puzzle)
  }

  /** The grid after the target cell is updated, before any auto cross-out. */
  function AfterCell(puzzle: Solution, g: Grid, row: nat, col: nat, tool: CellState, mode: GameMode): (g': Grid)
    requires ValidTarget(puzzle, g, row, col)
    ensures Rectangular(puzzle, g')
  {
    g[row := g[row][col := NewCellValue(mode, tool, g[row][col], puzzle[row][col])]]
  }

  function CrossOutEmpty(c: CellState): CellState
  {
    if c == EMPTY then CROSSED_OUT else c
  }

  /** Row `row` with its EMPTY cells crossed out. */
  function CrossOutRow(g: Grid, row: nat): (g': Grid)
    requires row < |g|
    ensures |g'| == |g| && forall r :: 0 <= r < |g| ==> |g'[r]| == |g[r]|
  {
    g[row := seq(|g[row]|, k requires 0 <= k < |g[row]| => CrossOutEmpty(g[row][k]))]
  }

  /** Column `col` with its EMPTY cells crossed out. */
  function CrossOutColumn(g: Grid, col: nat): (g': Grid)
    requires forall r :: 0 <= r < |g| ==> col < |g[r]|
    ensures |g'| == |g| && forall r :: 0 <= r < |g| ==> |g'[r]| == |g[r]|
  {
    seq(|g|, r requires 0 <= r < |g| => g[r][col := CrossOutEmpty(g[r][col])])
  }

  /** The Assisted auto cross-out: first the row, if it is free of
      contradiction, then the column, judged on the grid the row step left. */
  function AutoCrossOut(puzzle: Solution, g: Grid, row: nat, col: nat, mode: GameMode): (g': Grid)
    requires ValidTarget(puzzle, g, row, col)
    ensures Rectangular(puzzle, g')
  {
    if mode != Assisted then g
    else
      var g2 := if IsRowOrColumnComplete(puzzle, g, true, row) then CrossOutRow(g, row) else g;
      if IsRowOrColumnComplete(puzzle, g2, false, col) then CrossOutColumn(g2, col) else g2
  }

  /** The grid updateCell returns. */
  function UpdatedGrid(puzzle: Solution, g: Grid, row: nat, col: nat, tool: CellState, mode: GameMode): (g': Grid)
    requires ValidTarget(puzzle, g, row, col)
    ensures Rectangular(puzzle, g')
  {
    AutoCrossOut(puzzle, AfterCell(puzzle, g, row, col, tool, mode), row, col, mode)
  }

  /** updateCell on a grid held in a two-dimensional array (the source writes
      the caller's row arrays in place through its shallow copy) and on the
      hint lists of all rows and all columns, of which it replaces the target
      row's and the target column's by their ticked versions. */
  method UpdateCell(grid: array2<CellState>, puzzle: Solution, row: nat, col: nat, toolToUse: CellState,
                    mode: GameMode, rowHints: array<seq<Hint>>, columnHints: array<seq<Hint>>,
                    sound: ErrorSound)
    returns (errorCell: Option<(nat, nat)>)
    requires HasShape(puzzle, grid.Length0, grid.Length1)
    requires row < grid.Length0 && col < grid.Length1
    requires row < rowHints.Length && col < columnHints.Length && rowHints != columnHints
    modifies grid, rowHints, columnHints, sound
    ensures GridOf(grid) == UpdatedGrid(puzzle, old(GridOf(grid)), row, col, toolToUse, mode)
    ensures rowHints[..] == old(rowHints[..])[row := MatchHints(
              AfterCell(puzzle, old(GridOf(grid)), row, col, toolToUse, mode)[row], old(rowHints[row]), puzzle[row])]
    ensures columnHints[..] == old(columnHints[..])[col := MatchHints(
              Column(AfterCell(puzzle, old(GridOf(grid)), row, col, toolToUse, mode), col),
              old(columnHints[col]), Column(puzzle, col))]
    ensures errorCell == if IsInvalidMove(mode, toolToUse, puzzle[row][col]) then Some((row, col)) else None
    ensures sound.plays == old(sound.plays) + if IsInvalidMove(mode, toolToUse, puzzle[row][col]) then 1 else 0
  {
    errorCell := UpdateTargetCell(grid, puzzle, row, col, toolToUse, mode, sound);
    ghost var g1 := GridOf(grid);
    TickHintList(rowHints, row, GridOf(grid)[row], puzzle[row]);
    TickHintList(columnHints, col, Column(GridOf(grid), col), Column(puzzle, col));

    // Assisted auto cross-out
    if mode == Assisted {
      ghost var g2 := g1;
      if IsRowOrColumnComplete(puzzle, GridOf(grid), true, row) {
        CrossOutRowCells(grid, row);
        g2 := CrossOutRow(g1, row);
      }
      ghost var g3 := g2;
      if IsRowOrColumnComplete(puzzle, GridOf(grid), false, col) {
        CrossOutColumnCells(grid, col);
        g3 := CrossOutColumn(g2, col);
      }
      assert GridOf(grid) == g3;
    }
  }

  /** The first half of updateCell: the Assisted refusal of a wrong fill, or
      the toggle. */
  method UpdateTargetCell(grid: array2<CellState>, puzzle: Solution, row: nat, col: nat, toolToUse: CellState,
                          mode: GameMode, sound: ErrorSound)
    returns (errorCell: Option<(nat, nat)>)
    requires HasShape(puzzle, grid.Length0, grid.Length1)
    requires row < grid.Length0 && col < grid.Length1
    modifies grid, sound
    ensures GridOf(grid) == AfterCell(puzzle, old(GridOf(grid)), row, col, toolToUse, mode)
    ensures errorCell == if IsInvalidMove(mode, toolToUse, puzzle[row][col]) then Some((row, col)) else None
    ensures sound.plays == old(sound.plays) + if IsInvalidMove(mode, toolToUse, puzzle[row][col]) then 1 else 0
  {
    ghost var g0 := GridOf(grid);
    var cell := grid[row, col];
    errorCell := None;
    if mode == Assisted && toolToUse == FILLED && puzzle[row][col] == EMPTY {
      errorCell := Some((row, col));
      sound.Play();
      grid[row, col] := CROSSED_OUT;
    } else if cell == EMPTY || cell == toolToUse {
      grid[row, col] := if cell == toolToUse then EMPTY else toolToUse;
    }
    GridsEqual(GridOf(grid), AfterCell(puzzle, g0, row, col, toolToUse, mode), grid.Length0, grid.Length1);
  }

  /** `newHints[index] = checkHints(cells, newHints[index], answer)`. */
  method TickHintList(hintLists: array<seq<Hint>>, index: nat, cells: seq<CellState>, answerCells: seq<CellState>)
    requires index < hintLists.Length
    modifies hintLists
    ensures hintLists[..] == old(hintLists[..])[index := MatchHints(cells, old(hintLists[index]), answerCells)]
  {
    var list := new Hint[|hintLists[index]|](i requires 0 <= i < |hintLists[index]| reads hintLists =>
                                               hintLists[index][i]);
    assert list[..] == hintLists[index];
    var ticked := CheckHints(cells, list, answerCells);
    hintLists[index] := ticked;
  }

  /** The loop over the entries of the target row: EMPTY cells are crossed out. */
  method CrossOutRowCells(grid: array2<CellState>, row: nat)
    requires row < grid.Length0
    modifies grid
    ensures GridOf(grid) == CrossOutRow(old(GridOf(grid)), row)
  {
    ghost var g := GridOf(grid);
    for i := 0 to grid.Length1
      invariant forall r, c :: 0 <= r < grid.Length0 && 0 <= c < grid.Length1 ==>
                  grid[r, c] == if r == row && c < i then CrossOutEmpty(g[r][c]) else g[r][c]
    {
      if grid[row, i] == EMPTY {
        grid[row, i] := CROSSED_OUT;
      }
    }
    GridsEqual(GridOf(grid), CrossOutRow(g, row), grid.Length0, grid.Length1);
  }

  /** The loop over the rows for the target column: EMPTY cells are crossed out. */
  method CrossOutColumnCells(grid: array2<CellState>, col: nat)
    requires col < grid.Length1
    modifies grid
    ensures GridOf(grid) == CrossOutColumn(old(GridOf(grid)), col)
  {
    ghost var g := GridOf(grid);
    for i := 0 to grid.Length0
      invariant forall r, c :: 0 <= r < grid.Length0 && 0 <= c < grid.Length1 ==>
                  grid[r, c] == if c == col && r < i then CrossOutEmpty(g[r][c]) else g[r][c]
    {
      if grid[i, col] == EMPTY {
        grid[i, col] := CROSSED_OUT;
      }
    }
    GridsEqual(GridOf(grid), CrossOutColumn(g, col), grid.Length0, grid.Length1);
  }

  // ---------------------------------------------------------------------------
  // Properties

  /** The toggle in words, and its round trip: the same tool applied twice
      restores any cell. */
  lemma ToggleRule(cell: CellState, tool: CellState)
    ensures Toggle(cell, tool) == if cell == EMPTY then tool else if cell == tool then EMPTY else cell
    ensures Toggle(Toggle(cell, tool), tool) == cell
  {
  }

  /** In Free mode only the target cell changes, and it changes by the toggle. */
  lemma FreeModeChangesOnlyTarget(puzzle: Solution, g: Grid, row: nat, col: nat, tool: CellState)
    requires ValidTarget(puzzle, g, row, col)
    ensures var g' := UpdatedGrid(puzzle, g, row, col, tool, Free);
            g'[row][col] == Toggle(g[row][col], tool)
            && forall r, c :: 0 <= r < |g| && 0 <= c < |g[r]| && (r, c) != (row, col) ==> g'[r][c] == g[r][c]
  {
  }

  /** In Free mode a second identical update undoes the first. */
  lemma FreeModeRoundTrip(puzzle: Solution, g: Grid, row: nat, col: nat, tool: CellState)
    requires ValidTarget(puzzle, g, row, col)
    ensures UpdatedGrid(puzzle, UpdatedGrid(puzzle, g, row, col, tool, Free), row, col, tool, Free) == g
  {
    var g2 := UpdatedGrid(puzzle, UpdatedGrid(puzzle, g, row, col, tool, Free), row, col, tool, Free);
    ToggleRule(g[row][col], tool);
    GridsEqual(g2, g, |puzzle|, Width(puzzle));
  }

  /** Only EMPTY cells of b ever differ from a, and only by being crossed out. */
  predicate OnlyEmptyCrossedOut(a: Grid, b: Grid)
  {
    |a| == |b|
    && forall r :: 0 <= r < |a| ==>
         |a[r]| == |b[r]|
         && forall c :: 0 <= c < |a[r]| ==> b[r][c] == a[r][c] || (a[r][c] == EMPTY && b[r][c] == CROSSED_OUT)
  }

  lemma AutoCrossOutOnlyCrossesEmpty(puzzle: Solution, g: Grid, row: nat, col: nat, mode: GameMode)
    requires ValidTarget(puzzle, g, row, col)
    ensures OnlyEmptyCrossedOut(g, AutoCrossOut(puzzle, g, row, col, mode))
    ensures forall r, c :: 0 <= r < |g| && 0 <= c < |g[r]| && r != row && c != col ==>
              AutoCrossOut(puzzle, g, row, col, mode)[r][c] == g[r][c]
  {
  }

  /** Apart from the target cell, an update only crosses out EMPTY cells of the
      target row and column; every other cell is left as it was. */
  lemma NothingElseChanges(puzzle: Solution, g: Grid, row: nat, col: nat, tool: CellState, mode: GameMode)
    requires ValidTarget(puzzle, g, row, col)
    ensures var g' := UpdatedGrid(puzzle, g, row, col, tool, mode);
            forall r, c :: 0 <= r < |g| && 0 <= c < |g[r]| && (r, c) != (row, col) ==>
              (g'[r][c] == g[r][c] || (g[r][c] == EMPTY && g'[r][c] == CROSSED_OUT && (r == row || c == col)))
  {
    AutoCrossOutOnlyCrossesEmpty(puzzle, AfterCell(puzzle, g, row, col, tool, mode), row, col, mode);
  }

  /** A refused move leaves the target crossed out; any other move leaves it
      toggled, except that a cell toggled back to EMPTY may then be crossed out
      by the Assisted auto cross-out. */
  lemma TargetCell(puzzle: Solution, g: Grid, row: nat, col: nat, tool: CellState, mode: GameMode)
    requires ValidTarget(puzzle, g, row, col)
    ensures IsInvalidMove(mode, tool, puzzle[row][col]) ==>
              UpdatedGrid(puzzle, g, row, col, tool, mode)[row][col] == CROSSED_OUT
    ensures !IsInvalidMove(mode, tool, puzzle[row][col]) ==>
              UpdatedGrid(puzzle, g, row, col, tool, mode)[row][col] == CrossOutEmpty(Toggle(g[row][col], tool))
              || UpdatedGrid(puzzle, g, row, col, tool, mode)[row][col] == Toggle(g[row][col], tool)
  {
    AutoCrossOutOnlyCrossesEmpty(puzzle, AfterCell(puzzle, g, row, col, tool, mode), row, col, mode);
  }

  lemma InconsistentRowStays(puzzle: Solution, a: Grid, b: Grid, row: nat)
    requires Rectangular(puzzle, a) && Rectangular(puzzle, b) && row < |puzzle|
    requires OnlyEmptyCrossedOut(a, b)
    requires !IsRowOrColumnComplete(puzzle, a, true, row)
    ensures !IsRowOrColumnComplete(puzzle, b, true, row)
  {
    var k :| 0 <= k < |a[row]| && Contradicts(a[row][k], Some(puzzle[row][k]));
    assert b[row][k] == a[row][k];
  }

  /** In Assisted mode a target row free of contradiction once the cell is
      set, and a target column free of contradiction once the row has been
      crossed out, hold no EMPTY cell in the result; so does either line when
      it is free of contradiction in the result. */
  lemma AssistedCompleteLinesDetermined(puzzle: Solution, g: Grid, row: nat, col: nat, tool: CellState)
    requires ValidTarget(puzzle, g, row, col)
    ensures var g1 := AfterCell(puzzle, g, row, col, tool, Assisted);
            var g' := UpdatedGrid(puzzle, g, row, col, tool, Assisted);
            IsRowOrColumnComplete(puzzle, g1, true, row) ==> Determined(g'[row])
    ensures var g1 := AfterCell(puzzle, g, row, col, tool, Assisted);
            var g2 := if IsRowOrColumnComplete(puzzle, g1, true, row) then CrossOutRow(g1, row) else g1;
            var g' := UpdatedGrid(puzzle, g, row, col, tool, Assisted);
            IsRowOrColumnComplete(puzzle, g2, false, col) ==> Determined(Column(g', col))
    ensures var g' := UpdatedGrid(puzzle, g, row, col, tool, Assisted);
            (IsRowOrColumnComplete(puzzle, g', true, row) ==> Determined(g'[row]))
            && (IsRowOrColumnComplete(puzzle, g', false, col) ==> Determined(Column(g', col)))
  {
    var g1 := AfterCell(puzzle, g, row, col, tool, Assisted);
    var g2 := if IsRowOrColumnComplete(puzzle, g1, true, row) then CrossOutRow(g1, row) else g1;
    var g' := UpdatedGrid(puzzle, g, row, col, tool, Assisted);
    assert OnlyEmptyCrossedOut(g2, g');
    if !IsRowOrColumnComplete(puzzle, g1, true, row) {
      InconsistentRowStays(puzzle, g1, g', row);
    }
  }

  /** The auto cross-out touches no FILLED cell, so the runs of the target row
      and column that the hints were ticked on are the runs of the grid
      updateCell returns. */
  lemma AutoCrossOutKeepsRuns(puzzle: Solution, g: Grid, row: nat, col: nat, tool: CellState, mode: GameMode)
    requires ValidTarget(puzzle, g, row, col)
    ensures Runs(UpdatedGrid(puzzle, g, row, col, tool, mode)[row]) == Runs(AfterCell(puzzle, g, row, col, tool, mode)[row])
    ensures Runs(Column(UpdatedGrid(puzzle, g, row, col, tool, mode), col))
         == Runs(Column(AfterCell(puzzle, g, row, col, tool, mode), col))
  {
    var g1 := AfterCell(puzzle, g, row, col, tool, mode);
    var g' := UpdatedGrid(puzzle, g, row, col, tool, mode);
    AutoCrossOutOnlyCrossesEmpty(puzzle, g1, row, col, mode);
    RunsSameFilled(g'[row], g1[row]);
    RunsSameFilled(Column(g', col), Column(g1, col));
  }

  /** No cell is FILLED where the solution is EMPTY. */
  predicate NoWrongFill(puzzle: Solution, g: Grid)
    requires Rectangular(puzzle, g)
  {
    forall r, c :: 0 <= r < |puzzle| && 0 <= c < Width(puzzle) ==> g[r][c] == FILLED ==> puzzle[r][c] == FILLED
  }

  /** Assisted mode keeps the grid free of wrong fills. */
  lemma AssistedKeepsNoWrongFill(puzzle: Solution, g: Grid, row: nat, col: nat, tool: CellState)
    requires ValidTarget(puzzle, g, row, col) && NoWrongFill(puzzle, g)
    ensures NoWrongFill(puzzle, UpdatedGrid(puzzle, g, row, col, tool, Assisted))
  {
    AutoCrossOutOnlyCrossesEmpty(puzzle, AfterCell(puzzle, g, row, col, tool, Assisted), row, col, Assisted);
  }

  /** The auto cross-out judges a line by the absence of contradictions only,
      so it can cross out a cell the solution FILLS: a refused fill at the left
      of the one-row puzzle EMPTY, FILLED crosses out both cells, and the grid
      then contradicts the solution. */
  lemma AutoCrossOutCanHideFilled()
    ensures UpdatedGrid([[EMPTY, FILLED]], [[EMPTY, EMPTY]], 0, 0, FILLED, Assisted) == [[CROSSED_OUT, CROSSED_OUT]]
    ensures !SolutionMatches([[EMPTY, FILLED]], UpdatedGrid([[EMPTY, FILLED]], [[EMPTY, EMPTY]], 0, 0, FILLED, Assisted))
  {
    var puzzle: Solution := [[EMPTY, FILLED]];
    var g1 := AfterCell(puzzle, [[EMPTY, EMPTY]], 0, 0, FILLED, Assisted);
    assert g1[0] == [CROSSED_OUT, EMPTY];
    assert g1 == [[CROSSED_OUT, EMPTY]];
    assert IsRowOrColumnComplete(puzzle, g1, true, 0);
    var g2 := CrossOutRow(g1, 0);
    assert g2[0] == [CROSSED_OUT, CROSSED_OUT];
    assert g2 == [[CROSSED_OUT, CROSSED_OUT]];
    assert Column(g2, 0) == [CROSSED_OUT];
    assert IsRowOrColumnComplete(puzzle, g2, false, 0);
    assert CrossOutColumn(g2, 0)[0] == [CROSSED_OUT, CROSSED_OUT];
    assert Contradicts(g2[0][1], SolutionAt(puzzle, 0, 1));
  }
}
