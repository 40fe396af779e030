/** The uniqueness solver checkPuzzleHasUniqueSolution of
    src/utils/puzzleUtils.ts: line-by-line deduction over the enumerated
    placements of every row and every column, with pruning, until a pass
    deduces nothing new. */
module Solvability {
  import opened Nonogram
  import opened PuzzleUtils

  /** For every line, the placements still possible. */
  type LineSets = seq<seq<seq<CellState>>>

  /** Every placement of every line is n cells long and holds no EMPTY cell. */
  predicate WellFormedSets(sets: LineSets, n: nat)
  {
    forall k, x :: 0 <= k < |sets| && x in sets[k] ==> |x| == n && Determined(x)
  }

  /** `solutionSet.every(x => x[i] === solutionSet[0][i])` on a non-empty set. */
  predicate Agreed(placements: seq<seq<CellState>>, i: nat)
  {
    |placements| > 0 && i < |placements[0]|
    && forall x :: x in placements ==> i < |x| && x[i] == placements[0][i]
  }

  /** The grid after the row pass: every position on which all remaining
      placements of its row agree takes the agreed value. */
  function RowPass(g: Grid, rowSets: LineSets): (g': Grid)
    requires |rowSets| == |g|
    ensures |g'| == |g| && forall r :: 0 <= r < |g| ==> |g'[r]| == |g[r]|
  {
    seq(|g|, r requires 0 <= r < |g| =>
      seq(|g[r]|, i requires 0 <= i < |g[r]| =>
        if Agreed(rowSets[r], i) then rowSets[r][0][i] else g[r][i]))
  }

  /** The grid after the column pass. */
  function ColumnPass(g: Grid, colSets: LineSets): (g': Grid)
    requires HasWidth(g, |colSets|)
    ensures |g'| == |g| && forall r :: 0 <= r < |g| ==> |g'[r]| == |g[r]|
  {
    seq(|g|, r requires 0 <= r < |g| =>
      seq(|g[r]|, c requires 0 <= c < |g[r]| =>
        if Agreed(colSets[c], r) then colSets[c][0][r] else g[r][c]))
  }

  /** Some position of the line agreed on by its placements is still EMPTY. */
  predicate LineProgress(line: seq<CellState>, placements: seq<seq<CellState>>)
  {
    exists i :: 0 <= i < |line| && Agreed(placements, i) && line[i] == EMPTY
  }

  /** The row pass writes an agreed value into a cell that was EMPTY. */
  predicate RowProgress(g: Grid, rowSets: LineSets)
    requires |rowSets| == |g|
  {
    exists r :: 0 <= r < |g| && LineProgress(g[r], rowSets[r])
  }

  /** The column pass writes an agreed value into a cell that was EMPTY. */
  predicate ColumnProgress(g: Grid, colSets: LineSets)
    requires HasWidth(g, |colSets|)
  {
    exists c :: 0 <= c < |colSets| && LineProgress(Column(g, c), colSets[c])
  }

  /** `row.every((cell, k) => cell === EMPTY || cell === solution[k])`. */
  predicate Compatible(line: seq<CellState>, x: seq<CellState>)
  {
    forall k :: 0 <= k < |line| ==> line[k] == EMPTY || (k < |x| && line[k] == x[k])
  }

  /** `solutionSet.filter(...)`: the placements compatible with the line. */
  function Prune(placements: seq<seq<CellState>>, line: seq<CellState>): (r: seq<seq<CellState>>)
    ensures forall x :: x in r <==> x in placements && Compatible(line, x)
  {
    if placements == [] then []
    else (if Compatible(line, placements[0]) then [placements[0]] else []) + Prune(placements[1..], line)
  }

  /** Every line's placements pruned against the corresponding line of cells. */
  function PruneAll(sets: LineSets, lines: seq<seq<CellState>>): (r: LineSets)
    requires |lines| == |sets|
    ensures |r| == |sets| && forall k :: 0 <= k < |sets| ==> r[k] == Prune(sets[k], lines[k])
  {
    seq(|sets|, k requires 0 <= k < |sets| => Prune(sets[k], lines[k]))
  }

  /** The columns of a grid `width` cells wide. */
  function Columns(g: Grid, width: nat): (cs: seq<seq<CellState>>)
    requires HasWidth(g, width)
    ensures |cs| == width && forall c :: 0 <= c < width ==> cs[c] == Column(g, c)
  {
    seq(width, c requires 0 <= c < width => Column(g, c))
  }

  /** The positions of the EMPTY cells: the measure the deduction loop lowers. */
  ghost function EmptyCells(g: Grid): set<(int, int)>
  {
    set r, c | 0 <= r < |g| && 0 <= c < |g[r]| && g[r][c] == EMPTY :: (r, c)
  }

  /** A grid with no EMPTY cell. */
  predicate Solved(g: Grid)
  {
    forall r :: 0 <= r < |g| ==> Determined(g[r])
  }

  /** Every non-EMPTY cell of the deduced grid d agrees with the grid G. */
  predicate AgreesWith(d: Grid, G: Grid)
    requires |G| == |d| && forall r :: 0 <= r < |d| ==> |G[r]| == |d[r]|
  {
    forall r, c :: 0 <= r < |d| && 0 <= c < |d[r]| ==> d[r][c] == EMPTY || d[r][c] == G[r][c]
  }

  /** G is a height-by-width grid each of whose rows and columns is one of
      the given placements. */
  predicate Fits(G: Grid, rowSets: LineSets, colSets: LineSets, height: nat, width: nat)
  {
    HasShape(G, height, width) && |rowSets| == height && |colSets| == width
    && (forall r :: 0 <= r < height ==> G[r] in rowSets[r])
    && (forall c :: 0 <= c < width ==> Column(G, c) in colSets[c])
  }

  /** The placements of every row of a solution. */
  function InitialRowSets(solution: Solution): (s: LineSets)
    ensures |s| == |solution|
  {
    seq(|solution|, r requires 0 <= r < |solution| => Possibilities(RowHints(solution)[r], Width(solution)))
  }

  /** The placements of every column of a solution. */
  function InitialColumnSets(solution: Solution): (s: LineSets)
    ensures |s| == Width(solution)
  {
    seq(Width(solution), c requires 0 <= c < Width(solution) =>
      Possibilities(ColumnHints(solution)[c], |solution|))
  }

  /** G satisfies all the hints of the solution, as the enumeration places them. */
  predicate FitsHints(solution: Solution, G: Grid)
  {
    Fits(G, InitialRowSets(solution), InitialColumnSets(solution), |solution|, Width(solution))
  }

  // ---------------------------------------------------------------------------
  // One pass, as lemmas

  /** Cells only leave the EMPTY state: the EMPTY positions can only shrink,
      and shrink strictly when one EMPTY cell is filled in. */
  lemma EmptyCellsShrink(g: Grid, g': Grid)
    requires |g'| == |g| && forall r :: 0 <= r < |g| ==> |g'[r]| == |g[r]|
    requires forall r, c :: 0 <= r < |g| && 0 <= c < |g[r]| && g'[r][c] == EMPTY ==> g[r][c] == EMPTY
    ensures |EmptyCells(g')| <= |EmptyCells(g)|
    ensures (exists r, c :: 0 <= r < |g| && 0 <= c < |g[r]| && g[r][c] == EMPTY && g'[r][c] != EMPTY)
            ==> |EmptyCells(g')| < |EmptyCells(g)|
  {
    var before, after := EmptyCells(g), EmptyCells(g');
    assert after <= before;
    assert before == after + (before - after);
    assert after * (before - after) == {};
    if exists r, c :: 0 <= r < |g| && 0 <= c < |g[r]| && g[r][c] == EMPTY && g'[r][c] != EMPTY {
      var r, c :| 0 <= r < |g| && 0 <= c < |g[r]| && g[r][c] == EMPTY && g'[r][c] != EMPTY;
      assert (r, c) in before - after;
    }
  }

  /** An agreed value is a cell of a well-formed placement: never EMPTY. */
  lemma AgreedDetermined(sets: LineSets, n: nat, k: nat, i: nat)
    requires WellFormedSets(sets, n) && k < |sets| && Agreed(sets[k], i)
    ensures sets[k][0][i] != EMPTY
  {
    assert sets[k][0] in sets[k];
  }

  /** Every cell a row pass writes holds its agreed, non-EMPTY value. */
  lemma RowPassDetermines(g: Grid, rowSets: LineSets, width: nat)
    requires HasShape(g, |rowSets|, width) && WellFormedSets(rowSets, width)
    ensures forall r, i :: 0 <= r < |g| && 0 <= i < width && Agreed(rowSets[r], i) ==>
              RowPass(g, rowSets)[r][i] != EMPTY
  {
    forall r, i | 0 <= r < |g| && 0 <= i < width && Agreed(rowSets[r], i)
      ensures RowPass(g, rowSets)[r][i] != EMPTY
    {
      AgreedDetermined(rowSets, width, r, i);
    }
  }

  /** Every cell a column pass writes holds its agreed, non-EMPTY value. */
  lemma ColumnPassDetermines(g: Grid, colSets: LineSets, height: nat)
    requires HasShape(g, height, |colSets|) && WellFormedSets(colSets, height)
    ensures forall r, c :: 0 <= r < |g| && 0 <= c < |colSets| && Agreed(colSets[c], r) ==>
              ColumnPass(g, colSets)[r][c] != EMPTY
  {
    forall r, c | 0 <= r < |g| && 0 <= c < |colSets| && Agreed(colSets[c], r)
      ensures ColumnPass(g, colSets)[r][c] != EMPTY
    {
      AgreedDetermined(colSets, height, c, r);
    }
  }

  /** A row pass that progresses fills an EMPTY cell. */
  lemma RowProgressFills(g: Grid, rowSets: LineSets, width: nat)
    requires HasShape(g, |rowSets|, width) && WellFormedSets(rowSets, width)
    requires RowProgress(g, rowSets)
    ensures exists r, c :: 0 <= r < |g| && 0 <= c < |g[r]| && g[r][c] == EMPTY && RowPass(g, rowSets)[r][c] != EMPTY
  {
    var r :| 0 <= r < |g| && LineProgress(g[r], rowSets[r]);
    var i :| 0 <= i < |g[r]| && Agreed(rowSets[r], i) && g[r][i] == EMPTY;
    AgreedDetermined(rowSets, width, r, i);
    assert RowPass(g, rowSets)[r][i] != EMPTY;
  }

  /** A column pass that progresses fills an EMPTY cell. */
  lemma ColumnProgressFills(g: Grid, colSets: LineSets, height: nat)
    requires HasShape(g, height, |colSets|) && WellFormedSets(colSets, height)
    requires ColumnProgress(g, colSets)
    ensures exists r, c :: 0 <= r < |g| && 0 <= c < |g[r]| && g[r][c] == EMPTY && ColumnPass(g, colSets)[r][c] != EMPTY
  {
    var c :| 0 <= c < |colSets| && LineProgress(Column(g, c), colSets[c]);
    var r :| 0 <= r < |g| && Agreed(colSets[c], r) && Column(g, c)[r] == EMPTY;
    AgreedDetermined(colSets, height, c, r);
    assert ColumnPass(g, colSets)[r][c] != EMPTY;
  }

  /** A row pass never creates an EMPTY cell, and removes one whenever it
      makes progress. */
  lemma RowPassProgress(g: Grid, rowSets: LineSets, width: nat)
    requires HasShape(g, |rowSets|, width) && WellFormedSets(rowSets, width)
    ensures HasShape(RowPass(g, rowSets), |rowSets|, width)
    ensures |EmptyCells(RowPass(g, rowSets))| <= |EmptyCells(g)|
    ensures RowProgress(g, rowSets) ==> |EmptyCells(RowPass(g, rowSets))| < |EmptyCells(g)|
  {
    var g' := RowPass(g, rowSets);
    RowPassDetermines(g, rowSets, width);
    if RowProgress(g, rowSets) {
      RowProgressFills(g, rowSets, width);
    }
    EmptyCellsShrink(g, g');
  }

  /** A row pass keeps a grid whose rows are all placements in agreement. */
  lemma RowPassAgrees(g: Grid, rowSets: LineSets, width: nat, G: Grid)
    requires HasShape(g, |rowSets|, width) && HasShape(G, |rowSets|, width)
    requires forall r :: 0 <= r < |g| ==> G[r] in rowSets[r]
    requires AgreesWith(g, G)
    ensures AgreesWith(RowPass(g, rowSets), G)
  {
  }

  /** A column pass never creates an EMPTY cell, and removes one whenever it
      makes progress. */
  lemma ColumnPassProgress(g: Grid, colSets: LineSets, height: nat)
    requires HasShape(g, height, |colSets|) && WellFormedSets(colSets, height)
    ensures HasShape(ColumnPass(g, colSets), height, |colSets|)
    ensures |EmptyCells(ColumnPass(g, colSets))| <= |EmptyCells(g)|
    ensures ColumnProgress(g, colSets) ==> |EmptyCells(ColumnPass(g, colSets))| < |EmptyCells(g)|
  {
    var g' := ColumnPass(g, colSets);
    ColumnPassDetermines(g, colSets, height);
    if ColumnProgress(g, colSets) {
      ColumnProgressFills(g, colSets, height);
    }
    EmptyCellsShrink(g, g');
  }

  /** A column pass keeps a grid whose columns are all placements in agreement. */
  lemma ColumnPassAgrees(g: Grid, colSets: LineSets, height: nat, G: Grid)
    requires HasShape(g, height, |colSets|) && HasShape(G, height, |colSets|)
    requires forall c :: 0 <= c < |colSets| ==> Column(G, c) in colSets[c]
    requires AgreesWith(g, G)
    ensures AgreesWith(ColumnPass(g, colSets), G)
  {
    forall r, c | 0 <= r < |g| && 0 <= c < |colSets| && Agreed(colSets[c], r)
      ensures ColumnPass(g, colSets)[r][c] == G[r][c]
    {
      assert Column(G, c) in colSets[c];
      assert Column(G, c)[r] == G[r][c];
    }
  }

  /** Pruning against a grid that agrees with G keeps G's rows and columns. */
  lemma PruneKeepsFit(g: Grid, rowSets: LineSets, colSets: LineSets, G: Grid, height: nat, width: nat)
    requires HasShape(g, height, width) && Fits(G, rowSets, colSets, height, width) && AgreesWith(g, G)
    ensures Fits(G, PruneAll(rowSets, g), PruneAll(colSets, Columns(g, width)), height, width)
  {
    forall r | 0 <= r < height
      ensures G[r] in PruneAll(rowSets, g)[r]
    {
      assert Compatible(g[r], G[r]);
    }
    forall c | 0 <= c < width
      ensures Column(G, c) in PruneAll(colSets, Columns(g, width))[c]
    {
      assert Compatible(Column(g, c), Column(G, c));
    }
  }

  /** Pruning keeps the placements well formed. */
  lemma PruneWellFormed(sets: LineSets, lines: seq<seq<CellState>>, n: nat)
    requires |lines| == |sets| && WellFormedSets(sets, n)
    ensures WellFormedSets(PruneAll(sets, lines), n)
  {
  }

  /** The placements of every line are well formed. */
  lemma InitialSetsWellFormed(solution: Solution)
    ensures WellFormedSets(InitialRowSets(solution), Width(solution))
    ensures WellFormedSets(InitialColumnSets(solution), |solution|)
  {
    forall r | 0 <= r < |solution| {
      PossibilitiesShape(RowHints(solution)[r], Width(solution));
    }
    forall c | 0 <= c < Width(solution) {
      PossibilitiesShape(ColumnHints(solution)[c], |solution|);
    }
  }

  // ---------------------------------------------------------------------------
  // The passes, in place

  /** One row of the row pass: the inner `for` over the positions. */
  method DeduceRow(gameState: array2<CellState>, rowIndex: nat, placements: seq<seq<CellState>>)
    returns (progressed: bool)
    requires rowIndex < gameState.Length0
    modifies gameState
    ensures forall r, c :: 0 <= r < gameState.Length0 && 0 <= c < gameState.Length1 ==>
              gameState[r, c] == if r == rowIndex && Agreed(placements, c) then placements[0][c] else old(gameState[r, c])
    ensures progressed <==> exists j :: 0 <= j < gameState.Length1 && Agreed(placements, j)
                                        && old(gameState[rowIndex, j]) == EMPTY
  {
    progressed := false;
    for i := 0 to gameState.Length1
      invariant forall r, c :: 0 <= r < gameState.Length0 && 0 <= c < gameState.Length1 ==>
                  gameState[r, c] == if r == rowIndex && c < i && Agreed(placements, c) then placements[0][c]
                                     else old(gameState[r, c])
      invariant progressed <==> exists j :: 0 <= j < i && Agreed(placements, j) && old(gameState[rowIndex, j]) == EMPTY
    {
      if Agreed(placements, i) {
        if gameState[rowIndex, i] == EMPTY {
          progressed := true;
        }
        gameState[rowIndex, i] := placements[0][i];
      }
    }
  }

  /** The forEach over the row placements. */
  method DeduceRows(gameState: array2<CellState>, rowSets: LineSets) returns (progressed: bool)
    requires |rowSets| == gameState.Length0
    modifies gameState
    ensures GridOf(gameState) == RowPass(old(GridOf(gameState)), rowSets)
    ensures progressed <==> RowProgress(old(GridOf(gameState)), rowSets)
  {
    ghost var g := GridOf(gameState);
    progressed := false;
    for rowIndex := 0 to |rowSets|
      invariant forall r, c :: 0 <= r < gameState.Length0 && 0 <= c < gameState.Length1 ==>
                  gameState[r, c] == if r < rowIndex && Agreed(rowSets[r], c) then rowSets[r][0][c] else g[r][c]
      invariant progressed <==> exists r :: 0 <= r < rowIndex && LineProgress(g[r], rowSets[r])
    {
      var solutionSet := rowSets[rowIndex];
      if |solutionSet| == 0 {
        continue;
      }
      var rowProgress := DeduceRow(gameState, rowIndex, solutionSet);
      assert rowProgress <==> LineProgress(g[rowIndex], rowSets[rowIndex]);
      progressed := progressed || rowProgress;
    }
    GridsEqual(GridOf(gameState), RowPass(g, rowSets), gameState.Length0, gameState.Length1);
  }

  /** One column of the column pass: the inner `for` over the positions. */
  method DeduceColumn(gameState: array2<CellState>, columnIndex: nat, placements: seq<seq<CellState>>)
    returns (progressed: bool)
    requires columnIndex < gameState.Length1
    modifies gameState
    ensures forall r, c :: 0 <= r < gameState.Length0 && 0 <= c < gameState.Length1 ==>
              gameState[r, c] == if c == columnIndex && Agreed(placements, r) then placements[0][r] else old(gameState[r, c])
    ensures progressed <==> exists j :: 0 <= j < gameState.Length0 && Agreed(placements, j)
                                        && old(gameState[j, columnIndex]) == EMPTY
  {
    progressed := false;
    for i := 0 to gameState.Length0
      invariant forall r, c :: 0 <= r < gameState.Length0 && 0 <= c < gameState.Length1 ==>
                  gameState[r, c] == if c == columnIndex && r < i && Agreed(placements, r) then placements[0][r]
                                     else old(gameState[r, c])
      invariant progressed <==> exists j :: 0 <= j < i && Agreed(placements, j) && old(gameState[j, columnIndex]) == EMPTY
    {
      if Agreed(placements, i) {
        if gameState[i, columnIndex] == EMPTY {
          progressed := true;
        }
        gameState[i, columnIndex] := placements[0][i];
      }
    }
  }

  /** The forEach over the column placements. */
  method DeduceColumns(gameState: array2<CellState>, colSets: LineSets) returns (progressed: bool)
    requires |colSets| == gameState.Length1
    modifies gameState
    ensures GridOf(gameState) == ColumnPass(old(GridOf(gameState)), colSets)
    ensures progressed <==> ColumnProgress(old(GridOf(gameState)), colSets)
  {
    ghost var g := GridOf(gameState);
    progressed := false;
    for columnIndex := 0 to |colSets|
      invariant forall r, c :: 0 <= r < gameState.Length0 && 0 <= c < gameState.Length1 ==>
                  gameState[r, c] == if c < columnIndex && Agreed(colSets[c], r) then colSets[c][0][r] else g[r][c]
      invariant progressed <==> exists c :: 0 <= c < columnIndex && LineProgress(Column(g, c), colSets[c])
    {
      var solutionSet := colSets[columnIndex];
      if |solutionSet| == 0 {
        continue;
      }
      var columnProgress := DeduceColumn(gameState, columnIndex, solutionSet);
      assert columnProgress <==> LineProgress(Column(g, columnIndex), colSets[columnIndex]);
      progressed := progressed || columnProgress;
    }
    GridsEqual(GridOf(gameState), ColumnPass(g, colSets), gameState.Length0, gameState.Length1);
  }

  /** The hints of every row and column, and their placements. */
  method InitialPlacements(solution: Solution) returns (rowSets: LineSets, colSets: LineSets)
    requires |solution| > 0
    ensures rowSets == InitialRowSets(solution) && colSets == InitialColumnSets(solution)
  {
    var width := |solution[0]|;
    var height := |solution|;
    var rowHints := DeriveRowHints(solution);
    var columnHints := DeriveColumnHints(solution);
    rowSets := [];
    for r := 0 to height
      invariant |rowSets| == r && forall k :: 0 <= k < r ==> rowSets[k] == InitialRowSets(solution)[k]
    {
      var p := GeneratePossibleDataForHints(rowHints[r], width);
      rowSets := rowSets + [p];
    }
    colSets := [];
    for c := 0 to width
      invariant |colSets| == c && forall k :: 0 <= k < c ==> colSets[k] == InitialColumnSets(solution)[k]
    {
      var p := GeneratePossibleDataForHints(columnHints[c], height);
      colSets := colSets + [p];
    }
  }

  // ---------------------------------------------------------------------------
  // The loop on values

  /** What the do-while carries from one iteration to the next: the working
      grid and the placements still possible for every row and column. */
  datatype Deduction = Deduction(grid: Grid, rowSets: LineSets, colSets: LineSets)

  /** A height-by-width grid with one placement list per row and per column,
      every placement of its line's length and free of EMPTY cells. */
  predicate ValidDeduction(d: Deduction, height: nat, width: nat)
  {
    HasShape(d.grid, height, width) && |d.rowSets| == height && |d.colSets| == width
    && WellFormedSets(d.rowSets, width) && WellFormedSets(d.colSets, height)
  }

  /** Every remaining placement is compatible with the cells of its line. */
  predicate Pruned(d: Deduction, width: nat)
    requires HasWidth(d.grid, width)
  {
    (forall r, x :: 0 <= r < |d.grid| && r < |d.rowSets| && x in d.rowSets[r] ==> Compatible(d.grid[r], x))
    && (forall c, x :: 0 <= c < width && c < |d.colSets| && x in d.colSets[c] ==>
          Compatible(Column(d.grid, c), x))
  }

  /** One iteration of the do-while: the row pass, the column pass on what
      the row pass left, both placement lists pruned against the resulting
      grid, and whether either pass wrote into an EMPTY cell. */
  function Iteration(d: Deduction, height: nat, width: nat): (r: (Deduction, bool))
    requires ValidDeduction(d, height, width)
    ensures |r.0.grid| == height && |r.0.rowSets| == height && |r.0.colSets| == width
  {
    var g1 := RowPass(d.grid, d.rowSets);
    var g2 := ColumnPass(g1, d.colSets);
    (Deduction(g2, PruneAll(d.rowSets, g2), PruneAll(d.colSets, Columns(g2, width))),
     RowProgress(d.grid, d.rowSets) || ColumnProgress(g1, d.colSets))
  }

  /** An iteration leaves a valid, pruned state, never adds an EMPTY cell,
      and removes at least one when it progressed. */
  lemma IterationProgress(d: Deduction, height: nat, width: nat)
    requires ValidDeduction(d, height, width)
    ensures ValidDeduction(Iteration(d, height, width).0, height, width)
    ensures Pruned(Iteration(d, height, width).0, width)
    ensures |EmptyCells(Iteration(d, height, width).0.grid)| <= |EmptyCells(d.grid)|
    ensures Iteration(d, height, width).1 ==> |EmptyCells(Iteration(d, height, width).0.grid)| < |EmptyCells(d.grid)|
  {
    var g1 := RowPass(d.grid, d.rowSets);
    RowPassProgress(d.grid, d.rowSets, width);
    var g2 := ColumnPass(g1, d.colSets);
    ColumnPassProgress(g1, d.colSets, height);
    PruneWellFormed(d.rowSets, g2, width);
    PruneWellFormed(d.colSets, Columns(g2, width), height);
  }

  /** The do-while: iterate until an iteration writes no EMPTY cell, and give
      the state that last iteration left. */
  function Deduce(d: Deduction, height: nat, width: nat): (final: Deduction)
    requires ValidDeduction(d, height, width)
    ensures ValidDeduction(final, height, width) && Pruned(final, width)
    decreases |EmptyCells(d.grid)|
  {
    IterationProgress(d, height, width);
    var (next, progressed) := Iteration(d, height, width);
    if progressed then Deduce(next, height, width) else next
  }

  /** The state the loop starts from: the all-EMPTY grid of the solution's
      shape and the placements of every row hint and column hint. */
  function Start(solution: Solution): (d: Deduction)
    ensures ValidDeduction(d, |solution|, Width(solution)) && Pruned(d, Width(solution))
    ensures forall r, c :: 0 <= r < |solution| && 0 <= c < Width(solution) ==> d.grid[r][c] == EMPTY
  {
    InitialSetsWellFormed(solution);
    Deduction(EmptyGameState(Width(solution), |solution|), InitialRowSets(solution), InitialColumnSets(solution))
  }

  /** Pruning keeps every placement that is already compatible with the line. */
  lemma {:induction false} PruneKeepsCompatible(placements: seq<seq<CellState>>, line: seq<CellState>)
    requires forall x :: x in placements ==> Compatible(line, x)
    ensures Prune(placements, line) == placements
  {
    if placements != [] {
      PruneKeepsCompatible(placements[1..], line);
      assert placements == [placements[0]] + placements[1..];
    }
  }

  /** Pruning every line keeps the placements when all are compatible with their lines. */
  lemma PruneAllKeepsCompatible(sets: LineSets, lines: seq<seq<CellState>>)
    requires |lines| == |sets|
    requires forall k, x :: 0 <= k < |sets| && x in sets[k] ==> Compatible(lines[k], x)
    ensures PruneAll(sets, lines) == sets
  {
    forall k | 0 <= k < |sets|
      ensures PruneAll(sets, lines)[k] == sets[k]
    {
      PruneKeepsCompatible(sets[k], lines[k]);
    }
  }

  /** From a pruned state, an iteration that writes no EMPTY cell changes
      nothing: every agreed value already stands in its cell, and every
      placement survives the pruning. */
  lemma StalledIterationKeeps(d: Deduction, height: nat, width: nat)
    requires ValidDeduction(d, height, width) && Pruned(d, width)
    requires !Iteration(d, height, width).1
    ensures Iteration(d, height, width).0 == d
  {
    var g1 := RowPass(d.grid, d.rowSets);
    RowPassProgress(d.grid, d.rowSets, width);
    forall r, i | 0 <= r < height && 0 <= i < width
      ensures g1[r][i] == d.grid[r][i]
    {
      if Agreed(d.rowSets[r], i) {
        assert d.rowSets[r][0] in d.rowSets[r];
        assert !LineProgress(d.grid[r], d.rowSets[r]);
      }
    }
    GridsEqual(g1, d.grid, height, width);
    var g2 := ColumnPass(g1, d.colSets);
    ColumnPassProgress(g1, d.colSets, height);
    forall r, c | 0 <= r < height && 0 <= c < width
      ensures g2[r][c] == d.grid[r][c]
    {
      if Agreed(d.colSets[c], r) {
        assert d.colSets[c][0] in d.colSets[c];
        assert !LineProgress(Column(d.grid, c), d.colSets[c]);
        assert Column(d.grid, c)[r] == d.grid[r][c];
      }
    }
    GridsEqual(g2, d.grid, height, width);
    PruneAllKeepsCompatible(d.rowSets, d.grid);
    PruneAllKeepsCompatible(d.colSets, Columns(d.grid, width));
  }

  /** The state the loop stops in is a fixed point: one more iteration would
      write no EMPTY cell and change nothing, so neither pass can deduce
      anything further. */
  lemma {:induction false} DeduceIsFixedPoint(d: Deduction, height: nat, width: nat)
    requires ValidDeduction(d, height, width) && Pruned(d, width)
    ensures Iteration(Deduce(d, height, width), height, width) == (Deduce(d, height, width), false)
    decreases |EmptyCells(d.grid)|
  {
    IterationProgress(d, height, width);
    var (next, progressed) := Iteration(d, height, width);
    if progressed {
      DeduceIsFixedPoint(next, height, width);
    } else {
      StalledIterationKeeps(d, height, width);
    }
  }

  /** The placements of one hint of 1 in two cells. */
  lemma OneInTwo()
    ensures Possibilities([Hint(1, false)], 2) == [[FILLED, CROSSED_OUT], [CROSSED_OUT, FILLED]]
  {
    var h := [Hint(1, false)];
    assert HintWidth(h) == 1;
    assert Block(h) == [FILLED] by {
      assert Repeat(FILLED, 1) == [FILLED];
    }
    assert Repeat(CROSSED_OUT, 1) == [CROSSED_OUT];
    assert Possibility(h, 2, 0) == [FILLED, CROSSED_OUT];
    assert Possibility(h, 2, 1) == [CROSSED_OUT, FILLED];
  }

  /** The state the loop starts from on [[FILLED, EMPTY]]: the row [1] in two
      cells has two placements, the column [1] in one cell and the column
      without hints one each. */
  lemma OneByTwoStartState()
    ensures Start([[FILLED, EMPTY]])
         == Deduction([[EMPTY, EMPTY]], [[[FILLED, CROSSED_OUT], [CROSSED_OUT, FILLED]]],
                      [[[FILLED]], [[CROSSED_OUT]]])
  {
    var sol: Solution := [[FILLED, EMPTY]];
    OneByTwoHints();
    OneInTwo();
    var h := [Hint(1, false)];
    assert Block(h) == [FILLED] by {
      assert Repeat(FILLED, 1) == [FILLED];
    }
    assert Possibility(h, 1, 0) == [FILLED];
    assert Possibilities(h, 1) == [[FILLED]];
    assert Possibilities([], 1) == [[CROSSED_OUT]] by {
      assert Repeat(CROSSED_OUT, 1) == [CROSSED_OUT];
    }
    var d0 := Start(sol);
    GridsEqual(d0.grid, [[EMPTY, EMPTY]], 1, 2);
    assert d0.rowSets == [[[FILLED, CROSSED_OUT], [CROSSED_OUT, FILLED]]];
    assert d0.colSets == [[[FILLED]], [[CROSSED_OUT]]];
  }

  /** Lists of one determined placement each are well formed. */
  lemma SingletonSetsWellFormed(sets: LineSets, n: nat)
    requires forall k :: 0 <= k < |sets| ==> |sets[k]| == 1 && |sets[k][0]| == n && Determined(sets[k][0])
    ensures WellFormedSets(sets, n)
  {
    forall k, x | 0 <= k < |sets| && x in sets[k]
      ensures |x| == n && Determined(x)
    {
      assert x == sets[k][0];
    }
  }

  /** The placements [F, X] and [X, F] of a hint of 1 in two cells. */
  const OneOfTwo: seq<seq<CellState>> := [[FILLED, CROSSED_OUT], [CROSSED_OUT, FILLED]]

  /** They disagree on both cells. */
  lemma OneOfTwoDisagree()
    ensures !Agreed(OneOfTwo, 0) && !Agreed(OneOfTwo, 1)
  {
    assert [CROSSED_OUT, FILLED] in OneOfTwo;
  }

  /** The row pass of the first iteration on [[FILLED, EMPTY]] decides nothing. */
  lemma OneByTwoRowPass()
    ensures RowPass([[EMPTY, EMPTY]], [OneOfTwo]) == [[EMPTY, EMPTY]]
    ensures !RowProgress([[EMPTY, EMPTY]], [OneOfTwo])
  {
    OneOfTwoDisagree();
    GridsEqual(RowPass([[EMPTY, EMPTY]], [OneOfTwo]), [[EMPTY, EMPTY]], 1, 2);
  }

  /** Its column pass decides both cells. */
  lemma OneByTwoColumnPass()
    ensures ColumnPass([[EMPTY, EMPTY]], [[[FILLED]], [[CROSSED_OUT]]]) == [[FILLED, CROSSED_OUT]]
    ensures ColumnProgress([[EMPTY, EMPTY]], [[[FILLED]], [[CROSSED_OUT]]])
  {
    var colSets := [[[FILLED]], [[CROSSED_OUT]]];
    assert Agreed(colSets[0], 0) && Agreed(colSets[1], 0);
    GridsEqual(ColumnPass([[EMPTY, EMPTY]], colSets), [[FILLED, CROSSED_OUT]], 1, 2);
    assert LineProgress(Column([[EMPTY, EMPTY]], 0), colSets[0]);
  }

  /** Its pruning keeps the one row placement the grid allows and both column placements. */
  lemma OneByTwoPrune()
    ensures PruneAll([OneOfTwo], [[FILLED, CROSSED_OUT]]) == [[[FILLED, CROSSED_OUT]]]
    ensures PruneAll([[[FILLED]], [[CROSSED_OUT]]], Columns([[FILLED, CROSSED_OUT]], 2)) == [[[FILLED]], [[CROSSED_OUT]]]
  {
    var solved := [[FILLED, CROSSED_OUT]];
    var row := [FILLED, CROSSED_OUT];
    assert !Compatible(row, [CROSSED_OUT, FILLED]) by {
      assert row[0] != EMPTY && row[0] != [CROSSED_OUT, FILLED][0];
    }
    assert OneOfTwo[1..] == [[CROSSED_OUT, FILLED]] && OneOfTwo[1..][1..] == [];
    assert Prune(OneOfTwo, row) == [row];
    var columns := Columns(solved, 2);
    assert columns[0] == Column(solved, 0) == [FILLED];
    assert columns[1] == Column(solved, 1) == [CROSSED_OUT];
    PruneAllKeepsCompatible([[[FILLED]], [[CROSSED_OUT]]], columns);
  }

  /** Its first iteration, put together. */
  lemma OneByTwoFirstIteration()
    ensures Iteration(Start([[FILLED, EMPTY]]), 1, 2)
         == (Deduction([[FILLED, CROSSED_OUT]], [[[FILLED, CROSSED_OUT]]], [[[FILLED]], [[CROSSED_OUT]]]), true)
  {
    OneByTwoStartState();
    OneByTwoRowPass();
    OneByTwoColumnPass();
    OneByTwoPrune();
  }

  /** The state after the first iteration is valid and pruned. */
  lemma OneByTwoSolvedValid()
    ensures var d1 := Deduction([[FILLED, CROSSED_OUT]], [[[FILLED, CROSSED_OUT]]], [[[FILLED]], [[CROSSED_OUT]]]);
            ValidDeduction(d1, 1, 2) && Pruned(d1, 2)
  {
    var g := [[FILLED, CROSSED_OUT]];
    SingletonSetsWellFormed([[[FILLED, CROSSED_OUT]]], 2);
    SingletonSetsWellFormed([[[FILLED]], [[CROSSED_OUT]]], 1);
    assert Column(g, 0) == [FILLED] && Column(g, 1) == [CROSSED_OUT];
  }

  /** Neither pass on the solved grid meets an EMPTY cell. */
  lemma OneByTwoSolvedPasses()
    ensures RowPass([[FILLED, CROSSED_OUT]], [[[FILLED, CROSSED_OUT]]]) == [[FILLED, CROSSED_OUT]]
    ensures !RowProgress([[FILLED, CROSSED_OUT]], [[[FILLED, CROSSED_OUT]]])
    ensures !ColumnProgress([[FILLED, CROSSED_OUT]], [[[FILLED]], [[CROSSED_OUT]]])
  {
    var g := [[FILLED, CROSSED_OUT]];
    assert Agreed([[FILLED, CROSSED_OUT]], 0) && Agreed([[FILLED, CROSSED_OUT]], 1);
    GridsEqual(RowPass(g, [[[FILLED, CROSSED_OUT]]]), g, 1, 2);
    assert Column(g, 0) == [FILLED] && Column(g, 1) == [CROSSED_OUT];
  }

  /** Its second iteration writes into no cell: none is EMPTY any more. */
  lemma OneByTwoSecondIteration()
    ensures var d1 := Deduction([[FILLED, CROSSED_OUT]], [[[FILLED, CROSSED_OUT]]], [[[FILLED]], [[CROSSED_OUT]]]);
            ValidDeduction(d1, 1, 2) && Pruned(d1, 2) && !Iteration(d1, 1, 2).1
  {
    OneByTwoSolvedValid();
    OneByTwoSolvedPasses();
  }

  /** On [[FILLED, EMPTY]] the deduction solves the puzzle, so the verdict is
      true: the rows [F, X] and [X, F] disagree everywhere, but the columns
      have the single placements [F] and [X]; the first iteration fills both
      cells and the second finds nothing to do. */
  lemma OneByTwoDeduced()
    ensures Deduce(Start([[FILLED, EMPTY]]), 1, 2).grid == [[FILLED, CROSSED_OUT]]
    ensures Solved(Deduce(Start([[FILLED, EMPTY]]), 1, 2).grid)
  {
    var d0 := Start([[FILLED, EMPTY]]);
    var d1 := Deduction([[FILLED, CROSSED_OUT]], [[[FILLED, CROSSED_OUT]]], [[[FILLED]], [[CROSSED_OUT]]]);
    OneByTwoFirstIteration();
    OneByTwoSecondIteration();
    StalledIterationKeeps(d1, 1, 2);
    assert Deduce(d1, 1, 2) == d1;
    assert Deduce(d0, 1, 2) == Deduce(d1, 1, 2);
  }

  /** The state the loop starts from on the diagonal [[FILLED, EMPTY],
      [EMPTY, FILLED]]: every row and every column has the hint [1]. */
  lemma DiagonalStartState()
    ensures Start([[FILLED, EMPTY], [EMPTY, FILLED]])
         == Deduction([[EMPTY, EMPTY], [EMPTY, EMPTY]], [OneOfTwo, OneOfTwo], [OneOfTwo, OneOfTwo])
  {
    var sol: Solution := [[FILLED, EMPTY], [EMPTY, FILLED]];
    OneInTwo();
    var h := [Hint(1, false)];
    assert Lines.Runs([FILLED, EMPTY]) == [Lines.Run(0, 1)];
    assert Lines.Runs([EMPTY, FILLED]) == [Lines.Run(1, 1)];
    assert LineHints([FILLED, EMPTY]) == h;
    assert LineHints([EMPTY, FILLED]) == h;
    var t := Transpose(sol, 2);
    assert t[0] == [FILLED, EMPTY] && t[1] == [EMPTY, FILLED];
    assert ColumnHints(sol) == [h, h];
    var d0 := Start(sol);
    GridsEqual(d0.grid, [[EMPTY, EMPTY], [EMPTY, EMPTY]], 2, 2);
    assert d0.rowSets == [OneOfTwo, OneOfTwo];
    assert d0.colSets == [OneOfTwo, OneOfTwo];
  }

  /** On the diagonal the row pass of the first iteration decides no cell. */
  lemma DiagonalRowPass()
    ensures RowPass([[EMPTY, EMPTY], [EMPTY, EMPTY]], [OneOfTwo, OneOfTwo]) == [[EMPTY, EMPTY], [EMPTY, EMPTY]]
    ensures !RowProgress([[EMPTY, EMPTY], [EMPTY, EMPTY]], [OneOfTwo, OneOfTwo])
  {
    OneOfTwoDisagree();
    var e := [[EMPTY, EMPTY], [EMPTY, EMPTY]];
    GridsEqual(RowPass(e, [OneOfTwo, OneOfTwo]), e, 2, 2);
  }

  /** Nor does the column pass. */
  lemma DiagonalColumnPass()
    ensures !ColumnProgress([[EMPTY, EMPTY], [EMPTY, EMPTY]], [OneOfTwo, OneOfTwo])
  {
    OneOfTwoDisagree();
  }

  /** So the first iteration on the diagonal makes no progress. */
  lemma DiagonalStalls()
    ensures !Iteration(Start([[FILLED, EMPTY], [EMPTY, FILLED]]), 2, 2).1
  {
    DiagonalStartState();
    DiagonalRowPass();
    DiagonalColumnPass();
  }

  /** The deduction stops in the state it starts from. */
  lemma DiagonalDeducesNothing()
    ensures Deduce(Start([[FILLED, EMPTY], [EMPTY, FILLED]]), 2, 2) == Start([[FILLED, EMPTY], [EMPTY, FILLED]])
  {
    var d0 := Start([[FILLED, EMPTY], [EMPTY, FILLED]]);
    DiagonalStalls();
    StalledIterationKeeps(d0, 2, 2);
  }

  /** On the diagonal the placements of every line disagree on both cells:
      the first iteration deduces nothing, the grid stays EMPTY and the
      verdict is false (the anti-diagonal satisfies the same hints). */
  lemma DiagonalNotDeduced()
    ensures Deduce(Start([[FILLED, EMPTY], [EMPTY, FILLED]]), 2, 2).grid == [[EMPTY, EMPTY], [EMPTY, EMPTY]]
    ensures !Solved(Deduce(Start([[FILLED, EMPTY], [EMPTY, FILLED]]), 2, 2).grid)
  {
    DiagonalDeducesNothing();
    DiagonalStartState();
    var g := Deduce(Start([[FILLED, EMPTY], [EMPTY, FILLED]]), 2, 2).grid;
    assert g[0][0] == EMPTY;
    assert !Determined(g[0]);
  }

  // ---------------------------------------------------------------------------
  // The loop in place

  /** One iteration of the do-while in place: the row pass, the column pass,
      and the pruning of both placement lists against the grid they left,
      exactly as Iteration computes them. Every grid fitting the initial
      placements still fits the pruned ones and agrees with the grid. */
  method DeductionStep(gameState: array2<CellState>, rowSets: LineSets, colSets: LineSets,
                       ghost rowSets0: LineSets, ghost colSets0: LineSets)
    returns (progressed: bool, newRowSets: LineSets, newColSets: LineSets)
    requires |rowSets| == gameState.Length0 && |colSets| == gameState.Length1
    requires WellFormedSets(rowSets, gameState.Length1) && WellFormedSets(colSets, gameState.Length0)
    requires forall G :: Fits(G, rowSets0, colSets0, gameState.Length0, gameState.Length1) ==>
               Fits(G, rowSets, colSets, gameState.Length0, gameState.Length1) && AgreesWith(GridOf(gameState), G)
    modifies gameState
    ensures GridOf(gameState) == ColumnPass(RowPass(old(GridOf(gameState)), rowSets), colSets)
    ensures newRowSets == PruneAll(rowSets, GridOf(gameState))
    ensures newColSets == PruneAll(colSets, Columns(GridOf(gameState), gameState.Length1))
    ensures progressed <==> RowProgress(old(GridOf(gameState)), rowSets)
                            || ColumnProgress(RowPass(old(GridOf(gameState)), rowSets), colSets)
    ensures (Deduction(GridOf(gameState), newRowSets, newColSets), progressed)
            == Iteration(Deduction(old(GridOf(gameState)), rowSets, colSets), gameState.Length0, gameState.Length1)
    ensures |newRowSets| == gameState.Length0 && |newColSets| == gameState.Length1
    ensures WellFormedSets(newRowSets, gameState.Length1) && WellFormedSets(newColSets, gameState.Length0)
    ensures forall G :: Fits(G, rowSets0, colSets0, gameState.Length0, gameState.Length1) ==>
              Fits(G, newRowSets, newColSets, gameState.Length0, gameState.Length1) && AgreesWith(GridOf(gameState), G)
    ensures |EmptyCells(GridOf(gameState))| <= |EmptyCells(old(GridOf(gameState)))|
    ensures progressed ==> |EmptyCells(GridOf(gameState))| < |EmptyCells(old(GridOf(gameState)))|
  {
    var height, width := gameState.Length0, gameState.Length1;
    ghost var g0 := GridOf(gameState);
    progressed := false;
    var rowProgress := DeduceRows(gameState, rowSets);
    ghost var g1 := GridOf(gameState);
    RowPassProgress(g0, rowSets, width);
    var columnProgress := DeduceColumns(gameState, colSets);
    ColumnPassProgress(g1, colSets, height);
    progressed := rowProgress || columnProgress;
    var g2 := GridOf(gameState);
    forall G | Fits(G, rowSets0, colSets0, height, width)
      ensures Fits(G, PruneAll(rowSets, g2), PruneAll(colSets, Columns(g2, width)), height, width)
      ensures AgreesWith(g2, G)
    {
      assert Fits(G, rowSets, colSets, height, width) && AgreesWith(g0, G);
      RowPassAgrees(g0, rowSets, width, G);
      ColumnPassAgrees(g1, colSets, height, G);
      PruneKeepsFit(g2, rowSets, colSets, G, height, width);
    }
    PruneWellFormed(rowSets, g2, width);
    PruneWellFormed(colSets, Columns(g2, width), height);
    newRowSets := PruneAll(rowSets, g2);
    newColSets := PruneAll(colSets, Columns(g2, width));
  }

  /** checkPuzzleHasUniqueSolution, with progress counted only when a pass
      writes into an EMPTY cell. `deduced` is the final working grid, the
      grid of Deduce from Start. The result is true exactly when deduction
      left no EMPTY cell; every grid satisfying all hints agrees with every
      deduced cell, so a true result means at most one grid satisfies them. */
  method CheckPuzzleHasUniqueSolution(solution: Solution) returns (unique: bool, ghost deduced: Grid)
    requires |solution| > 0
    ensures HasShape(deduced, |solution|, Width(solution))
    ensures deduced == Deduce(Start(solution), |solution|, Width(solution)).grid
    ensures unique <==> Solved(deduced)
    ensures forall G :: FitsHints(solution, G) ==> AgreesWith(deduced, G)
    ensures unique ==> forall G1, G2 :: FitsHints(solution, G1) && FitsHints(solution, G2) ==> G1 == G2
  {
    var width := |solution[0]|;
    var height := |solution|;
    var gameState := new CellState[height, width]((_, _) => EMPTY);
    GridsEqual(GridOf(gameState), EmptyGameState(width, height), height, width);
    var rowSets, colSets := InitialPlacements(solution);
    InitialSetsWellFormed(solution);
    ghost var rowSets0 := rowSets;
    ghost var colSets0 := colSets;
    ghost var target := Deduce(Start(solution), height, width);
    assert Deduction(GridOf(gameState), rowSets, colSets) == Start(solution);

    // The do-while of the source: the body runs at least once.
    var progressedSolution := true;
    while progressedSolution
      invariant gameState.Length0 == height && gameState.Length1 == width
      invariant |rowSets| == height && |colSets| == width
      invariant WellFormedSets(rowSets, width) && WellFormedSets(colSets, height)
      invariant forall G :: Fits(G, rowSets0, colSets0, height, width) ==>
                  Fits(G, rowSets, colSets, height, width) && AgreesWith(GridOf(gameState), G)
      invariant progressedSolution ==> Deduce(Deduction(GridOf(gameState), rowSets, colSets), height, width) == target
      invariant !progressedSolution ==> Deduction(GridOf(gameState), rowSets, colSets) == target
      decreases |EmptyCells(GridOf(gameState))| + if progressedSolution then 1 else 0
    {
      ghost var before := Deduction(GridOf(gameState), rowSets, colSets);
      progressedSolution, rowSets, colSets := DeductionStep(gameState, rowSets, colSets, rowSets0, colSets0);
      assert Deduce(before, height, width)
             == if progressedSolution then Deduce(Deduction(GridOf(gameState), rowSets, colSets), height, width)
                else Deduction(GridOf(gameState), rowSets, colSets);
    }
    deduced := GridOf(gameState);
    unique := Solved(GridOf(gameState));
    if unique {
      forall G1, G2 | FitsHints(solution, G1) && FitsHints(solution, G2)
        ensures G1 == G2
      {
        GridsEqual(G1, G2, height, width);
      }
    }
  }

  // ---------------------------------------------------------------------------
  // The loop as written

  /** Where a nested array was pushed: by the row or the column enumeration,
      for which line, into which placement, at which position. Every push
      creates a new array, so this is the array's identity for `===`. */
  datatype Origin = Origin(inRow: bool, line: nat, placement: nat, position: nat)

  /** A value the source's loop handles as written: a cell; a nested array
      with its identity; or `undefined`, read past the end of a placement. */
  datatype JsValue = Undefined | Cell(cell: CellState) | ArrayRef(cells: seq<CellState>, origin: Origin)

  /** `x[i]`, `undefined` past the end. */
  function At(x: seq<JsValue>, i: nat): (v: JsValue)
    ensures i < |x| ==> v == x[i]
    ensures i >= |x| ==> v.Undefined?
  {
    if i < |x| then x[i] else Undefined
  }

  /** A placement of the written enumeration as the loop sees it, each nested
      array tagged with where it was pushed. */
  function Tag(x: seq<Entry>, inRow: bool, line: nat, placement: nat): (t: seq<JsValue>)
    ensures |t| == |x|
    ensures forall j :: 0 <= j < |x| && x[j].Single? ==> t[j] == Cell(x[j].cell)
    ensures forall j :: 0 <= j < |x| && x[j].Nested? ==> t[j] == ArrayRef(x[j].cells, Origin(inRow, line, placement, j))
  {
    seq(|x|, j requires 0 <= j < |x| =>
      match x[j]
      case Single(c) => Cell(c)
      case Nested(cs) => ArrayRef(cs, Origin(inRow, line, placement, j)))
  }

  /** The written enumeration's placements of one line, tagged. */
  function TagAll(ps: seq<seq<Entry>>, inRow: bool, line: nat): (t: seq<seq<JsValue>>)
    ensures |t| == |ps|
    ensures forall p :: 0 <= p < |ps| ==> t[p] == Tag(ps[p], inRow, line, p)
  {
    seq(|ps|, p requires 0 <= p < |ps| => Tag(ps[p], inRow, line, p))
  }

  /** The state of the source's do-while as written. */
  datatype LoopState = LoopState(grid: seq<seq<JsValue>>, rowSets: seq<seq<seq<JsValue>>>,
                                 colSets: seq<seq<seq<JsValue>>>)

  /** The state before the first iteration: the empty game state and the
      written enumeration's placements of every row and every column. */
  function InitialLoopState(solution: Solution): (s: LoopState)
    ensures |s.grid| == |solution| && |s.rowSets| == |solution| && |s.colSets| == Width(solution)
    ensures forall r :: 0 <= r < |solution| ==> |s.grid[r]| == Width(solution)
  {
    LoopState(seq(|solution|, r => seq(Width(solution), c => Cell(EMPTY))),
              seq(|solution|, r requires 0 <= r < |solution| =>
                TagAll(PossibilitiesAsWritten(RowHints(solution)[r], Width(solution)), true, r)),
              seq(Width(solution), c requires 0 <= c < Width(solution) =>
                TagAll(PossibilitiesAsWritten(ColumnHints(solution)[c], |solution|), false, c)))
  }

  /** `solutionSet.every((x) => x[i] === solutionSet[0][i])` on a non-empty
      set, with `===` on values and `undefined` past the end. */
  predicate AgreedAsWritten(placements: seq<seq<JsValue>>, i: nat)
  {
    |placements| > 0 && forall x :: x in placements ==> At(x, i) == At(placements[0], i)
  }

  /** The row pass as written: every agreed position takes the first
      placement's value there, whatever the cell held. */
  function RowPassAsWritten(g: seq<seq<JsValue>>, rowSets: seq<seq<seq<JsValue>>>): (g': seq<seq<JsValue>>)
    requires |rowSets| == |g|
    ensures |g'| == |g| && forall r :: 0 <= r < |g| ==> |g'[r]| == |g[r]|
    ensures forall r, i :: 0 <= r < |g| && 0 <= i < |g[r]| ==>
              g'[r][i] == if AgreedAsWritten(rowSets[r], i) then At(rowSets[r][0], i) else g[r][i]
  {
    seq(|g|, r requires 0 <= r < |g| =>
      seq(|g[r]|, i requires 0 <= i < |g[r]| =>
        if AgreedAsWritten(rowSets[r], i) then At(rowSets[r][0], i) else g[r][i]))
  }

  /** The column pass as written. */
  function ColumnPassAsWritten(g: seq<seq<JsValue>>, colSets: seq<seq<seq<JsValue>>>): (g': seq<seq<JsValue>>)
    requires forall r :: 0 <= r < |g| ==> |g[r]| == |colSets|
    ensures |g'| == |g| && forall r :: 0 <= r < |g| ==> |g'[r]| == |g[r]|
    ensures forall r, c :: 0 <= r < |g| && 0 <= c < |g[r]| ==>
              g'[r][c] == if AgreedAsWritten(colSets[c], r) then At(colSets[c][0], r) else g[r][c]
  {
    seq(|g|, r requires 0 <= r < |g| =>
      seq(|g[r]|, c requires 0 <= c < |g[r]| =>
        if AgreedAsWritten(colSets[c], r) then At(colSets[c][0], r) else g[r][c]))
  }

  /** The filter of the cross-validation: every cell of the line is EMPTY or
      `===` the placement's value at its index. */
  predicate CompatibleAsWritten(line: seq<JsValue>, x: seq<JsValue>)
  {
    forall k :: 0 <= k < |line| ==> line[k] == Cell(EMPTY) || line[k] == At(x, k)
  }

  /** `solutionSet.filter(...)`: the compatible placements, in order. */
  function PruneAsWritten(placements: seq<seq<JsValue>>, line: seq<JsValue>): (r: seq<seq<JsValue>>)
    ensures forall x :: x in r <==> x in placements && CompatibleAsWritten(line, x)
  {
    if placements == [] then []
    else (if CompatibleAsWritten(line, placements[0]) then [placements[0]] else [])
         + PruneAsWritten(placements[1..], line)
  }

  /** Column c of the game state as written. */
  function ColumnAsWritten(g: seq<seq<JsValue>>, c: nat): (col: seq<JsValue>)
    requires forall r :: 0 <= r < |g| ==> c < |g[r]|
    ensures |col| == |g| && forall r :: 0 <= r < |g| ==> col[r] == g[r][c]
  {
    seq(|g|, r requires 0 <= r < |g| => g[r][c])
  }

  /** Some non-empty set agrees somewhere: what sets `progressedSolution`. */
  predicate ProgressAsWritten(s: LoopState, height: nat, width: nat)
  {
    (exists r, i :: 0 <= r < |s.rowSets| && 0 <= i < width && AgreedAsWritten(s.rowSets[r], i))
    || (exists c, i :: 0 <= c < |s.colSets| && 0 <= i < height && AgreedAsWritten(s.colSets[c], i))
  }

  /** A well-shaped written state: `height` rows of `width` values, a set per
      row and per column. */
  predicate LoopShape(s: LoopState, height: nat, width: nat)
  {
    |s.grid| == height && |s.rowSets| == height && |s.colSets| == width
    && forall r :: 0 <= r < height ==> |s.grid[r]| == width
  }

  /** One iteration of the source's loop body exactly as written: the two
      passes, the cross-validation, and the `progressedSolution` flag. */
  function IterationAsWritten(s: LoopState, height: nat, width: nat): (r: (LoopState, bool))
    requires LoopShape(s, height, width)
    ensures LoopShape(r.0, height, width)
    ensures r.1 <==> ProgressAsWritten(s, height, width)
  {
    var g2 := ColumnPassAsWritten(RowPassAsWritten(s.grid, s.rowSets), s.colSets);
    (LoopState(g2, PruneRowsAsWritten(s.rowSets, g2), PruneColumnsAsWritten(s.colSets, g2)),
     ProgressAsWritten(s, height, width))
  }

  /** The cross-validation of every row set against its row. */
  function PruneRowsAsWritten(rowSets: seq<seq<seq<JsValue>>>, g: seq<seq<JsValue>>): (r: seq<seq<seq<JsValue>>>)
    requires |rowSets| == |g|
    ensures |r| == |rowSets| && forall k :: 0 <= k < |r| ==> r[k] == PruneAsWritten(rowSets[k], g[k])
  {
    seq(|rowSets|, k requires 0 <= k < |rowSets| => PruneAsWritten(rowSets[k], g[k]))
  }

  /** The cross-validation of every column set against its column. */
  function PruneColumnsAsWritten(colSets: seq<seq<seq<JsValue>>>, g: seq<seq<JsValue>>): (r: seq<seq<seq<JsValue>>>)
    requires forall k :: 0 <= k < |g| ==> |g[k]| == |colSets|
    ensures |r| == |colSets| && forall c :: 0 <= c < |r| ==> r[c] == PruneAsWritten(colSets[c], ColumnAsWritten(g, c))
  {
    seq(|colSets|, c requires 0 <= c < |colSets| => PruneAsWritten(colSets[c], ColumnAsWritten(g, c)))
  }

  /** The hints of the puzzle [[FILLED, EMPTY]]: [1] for the row, [1] and
      none for the columns. */
  lemma OneByTwoHints()
    ensures RowHints([[FILLED, EMPTY]]) == [[Hint(1, false)]]
    ensures ColumnHints([[FILLED, EMPTY]]) == [[Hint(1, false)], []]
  {
    var sol: Solution := [[FILLED, EMPTY]];
    assert Lines.Runs([FILLED, EMPTY]) == [Lines.Run(0, 1)];
    assert Lines.Runs([FILLED]) == [Lines.Run(0, 1)];
    assert Lines.Runs([EMPTY]) == [];
    assert LineHints([FILLED, EMPTY]) == [Hint(1, false)];
    assert LineHints([FILLED]) == [Hint(1, false)];
    assert LineHints([EMPTY]) == [];
    var t := Transpose(sol, 2);
    assert t[0] == [FILLED] && t[1] == [EMPTY];
    assert RowHints(t) == [[Hint(1, false)], []];
  }

  /** The written enumeration for those hints: the row [1] in two cells gives
      the one placement [[F], [X]] of two nested arrays; the column [1] in one
      cell gives none; the empty column gives two. */
  lemma OneByTwoPlacements()
    ensures PossibilitiesAsWritten([Hint(1, false)], 2) == [[Nested([FILLED]), Nested([CROSSED_OUT])]]
    ensures PossibilitiesAsWritten([Hint(1, false)], 1) == []
    ensures PossibilitiesAsWritten([], 1)
         == [[Nested([CROSSED_OUT, CROSSED_OUT])], [Single(CROSSED_OUT), Nested([CROSSED_OUT])]]
  {
    var h := [Hint(1, false)];
    assert HintWidth(h) == 1;
    assert Repeat(FILLED, 1) == [FILLED];
    assert NestedBlockUpTo(h, 1) == [Nested([FILLED])];
    assert Repeat(CROSSED_OUT, 1) == [CROSSED_OUT];
    assert Repeat(CROSSED_OUT, 2) == [CROSSED_OUT, CROSSED_OUT];
    assert Singles(CROSSED_OUT, 1) == [Single(CROSSED_OUT)];
    var ps := PossibilitiesAsWritten(h, 2);
    assert Singles(CROSSED_OUT, 0) == [];
    assert ps[0] == Singles(CROSSED_OUT, 0) + NestedBlockUpTo(h, 1) + [Nested(Repeat(CROSSED_OUT, 1))];
    assert ps[0] == [Nested([FILLED]), Nested([CROSSED_OUT])];
    assert ps == [ps[0]];
    assert HintWidth([]) == -1;
    var qs := PossibilitiesAsWritten([], 1);
    assert |qs| == 2;
    assert NestedBlockUpTo([], 0) == [];
    assert qs[0] == Singles(CROSSED_OUT, 0) + NestedBlockUpTo([], 0) + [Nested(Repeat(CROSSED_OUT, 2))];
    assert qs[0] == [Nested([CROSSED_OUT, CROSSED_OUT])];
    assert qs[1] == Singles(CROSSED_OUT, 1) + NestedBlockUpTo([], 0) + [Nested(Repeat(CROSSED_OUT, 1))];
    assert qs[1] == [Single(CROSSED_OUT), Nested([CROSSED_OUT])];
    assert qs == [qs[0], qs[1]];
  }

  /** The state the written loop starts from on [[FILLED, EMPTY]]. */
  lemma OneByTwoStart()
    ensures var start := InitialLoopState([[FILLED, EMPTY]]);
            start.grid == [[Cell(EMPTY), Cell(EMPTY)]]
            && start.rowSets == [[[ArrayRef([FILLED], Origin(true, 0, 0, 0)),
                                   ArrayRef([CROSSED_OUT], Origin(true, 0, 0, 1))]]]
            && start.colSets == [[], [[ArrayRef([CROSSED_OUT, CROSSED_OUT], Origin(false, 1, 0, 0))],
                                      [Cell(CROSSED_OUT), ArrayRef([CROSSED_OUT], Origin(false, 1, 1, 1))]]]
  {
    OneByTwoHints();
    OneByTwoPlacements();
    var sol: Solution := [[FILLED, EMPTY]];
    var start := InitialLoopState(sol);
    assert Width(sol) == 2;
    assert start.grid[0] == [Cell(EMPTY), Cell(EMPTY)];
    var rp := PossibilitiesAsWritten([Hint(1, false)], 2);
    assert start.rowSets[0] == TagAll(rp, true, 0);
    assert Tag(rp[0], true, 0, 0) == [ArrayRef([FILLED], Origin(true, 0, 0, 0)),
                                      ArrayRef([CROSSED_OUT], Origin(true, 0, 0, 1))];
    assert TagAll(rp, true, 0) == [Tag(rp[0], true, 0, 0)];
    assert start.rowSets == [start.rowSets[0]];
    var cp := PossibilitiesAsWritten([], 1);
    assert start.colSets[0] == TagAll([], false, 0);
    assert start.colSets[1] == TagAll(cp, false, 1);
    assert Tag(cp[0], false, 1, 0) == [ArrayRef([CROSSED_OUT, CROSSED_OUT], Origin(false, 1, 0, 0))];
    assert Tag(cp[1], false, 1, 1) == [Cell(CROSSED_OUT), ArrayRef([CROSSED_OUT], Origin(false, 1, 1, 1))];
    assert TagAll(cp, false, 1) == [Tag(cp[0], false, 1, 0), Tag(cp[1], false, 1, 1)];
    assert TagAll([], false, 0) == [];
    assert start.colSets == [start.colSets[0], start.colSets[1]];
  }

  /** The row of nested arrays the written loop writes on [[FILLED, EMPTY]]. */
  function OneByTwoRow(): (row: seq<JsValue>)
    ensures |row| == 2
  {
    [ArrayRef([FILLED], Origin(true, 0, 0, 0)), ArrayRef([CROSSED_OUT], Origin(true, 0, 0, 1))]
  }

  /** The column sets the written loop starts from on [[FILLED, EMPTY]]. */
  function OneByTwoColumnSets(): (sets: seq<seq<seq<JsValue>>>)
    ensures |sets| == 2
  {
    [[], [[ArrayRef([CROSSED_OUT, CROSSED_OUT], Origin(false, 1, 0, 0))],
          [Cell(CROSSED_OUT), ArrayRef([CROSSED_OUT], Origin(false, 1, 1, 1))]]]
  }

  /** The two passes of the first iteration write the row's nested arrays:
      the row's single placement agrees with itself at both positions, the
      second column's two placements disagree. */
  lemma FirstPasses()
    ensures ColumnPassAsWritten(RowPassAsWritten([[Cell(EMPTY), Cell(EMPTY)]], [[OneByTwoRow()]]),
                                OneByTwoColumnSets()) == [OneByTwoRow()]
  {
    var row := OneByTwoRow();
    var cs := OneByTwoColumnSets();
    assert AgreedAsWritten([row], 0) && AgreedAsWritten([row], 1);
    assert !AgreedAsWritten(cs[1], 0) by {
      assert At(cs[1][1], 0) != At(cs[1][0], 0);
    }
    assert !AgreedAsWritten(cs[0], 0);
    var g1 := RowPassAsWritten([[Cell(EMPTY), Cell(EMPTY)]], [[row]]);
    assert g1[0][0] == row[0] && g1[0][1] == row[1];
    assert g1[0] == row;
    assert g1 == [row];
    var g2 := ColumnPassAsWritten(g1, cs);
    assert g2[0][0] == row[0] && g2[0][1] == row[1];
    assert g2[0] == row;
  }

  /** Its cross-validation keeps the row's placement and drops both of the
      second column's: neither `===` the nested array now in the grid. */
  lemma FirstPrune()
    ensures PruneRowsAsWritten([[OneByTwoRow()]], [OneByTwoRow()]) == [[OneByTwoRow()]]
    ensures PruneColumnsAsWritten(OneByTwoColumnSets(), [OneByTwoRow()]) == [[], []]
  {
    var row := OneByTwoRow();
    var cs := OneByTwoColumnSets();
    assert PruneAsWritten([row], row) == [row];
    var x := row[1];
    assert ColumnAsWritten([row], 1) == [x];
    assert !CompatibleAsWritten([x], cs[1][0]) && !CompatibleAsWritten([x], cs[1][1]);
    assert cs[1][1..] == [cs[1][1]] && [cs[1][1]][1..] == [];
    assert PruneAsWritten([cs[1][1]], [x]) == [];
    assert PruneAsWritten(cs[1], [x]) == [];
  }

  /** The first written iteration on [[FILLED, EMPTY]]: the row's nested
      arrays are written into the grid and the flag is set; the columns lose
      all their placements. */
  lemma AsWrittenFirstIteration()
    ensures IterationAsWritten(InitialLoopState([[FILLED, EMPTY]]), 1, 2)
         == (LoopState([OneByTwoRow()], [[OneByTwoRow()]], [[], []]), true)
  {
    OneByTwoStart();
    var start := InitialLoopState([[FILLED, EMPTY]]);
    assert start == LoopState([[Cell(EMPTY), Cell(EMPTY)]], [[OneByTwoRow()]], OneByTwoColumnSets());
    FirstPasses();
    FirstPrune();
    assert AgreedAsWritten(start.rowSets[0], 0);
    assert ProgressAsWritten(start, 1, 2);
  }

  /** The state after it is a fixed point of the written body, with the flag
      set again. */
  lemma AsWrittenFixedPoint()
    ensures var next := LoopState([OneByTwoRow()], [[OneByTwoRow()]], [[], []]);
            IterationAsWritten(next, 1, 2) == (next, true)
  {
    var row := OneByTwoRow();
    var next := LoopState([row], [[row]], [[], []]);
    assert AgreedAsWritten([row], 0);
    var h1 := RowPassAsWritten(next.grid, next.rowSets);
    assert h1[0][0] == row[0] && h1[0][1] == row[1];
    assert h1[0] == row;
    assert h1 == [row];
    var h2 := ColumnPassAsWritten(h1, next.colSets);
    assert !AgreedAsWritten(next.colSets[0], 0) && !AgreedAsWritten(next.colSets[1], 0);
    assert h2[0][0] == row[0] && h2[0][1] == row[1];
    assert h2[0] == row;
    assert h2 == [row];
    assert PruneAsWritten([row], row) == [row];
    assert PruneRowsAsWritten(next.rowSets, h2) == [[row]];
    assert PruneColumnsAsWritten(next.colSets, h2) == [[], []];
    assert ProgressAsWritten(next, 1, 2);
  }

  /** As written, the loop never ends on the puzzle [[FILLED, EMPTY]]: the
      first iteration reaches a state the body maps to itself with
      `progressedSolution` true. */
  lemma AsWrittenLoopsForever()
    ensures var start := InitialLoopState([[FILLED, EMPTY]]);
            var next := IterationAsWritten(start, 1, 2).0;
            IterationAsWritten(start, 1, 2).1 && IterationAsWritten(next, 1, 2) == (next, true)
  {
    AsWrittenFirstIteration();
    AsWrittenFixedPoint();
  }

  /** The enumeration places runs one cell apart only, so a line of the form
      FILLED, EMPTY, EMPTY, FILLED is not among the placements of its own
      hints [1, 1], and a puzzle holding it has no grid satisfying the hints
      as enumerated. */
  lemma SingleGapPlacementsOnly()
    ensures LineHints([FILLED, EMPTY, EMPTY, FILLED]) == [Hint(1, false), Hint(1, false)]
    ensures [FILLED, CROSSED_OUT, CROSSED_OUT, FILLED] !in Possibilities([Hint(1, false), Hint(1, false)], 4)
  {
    assert Lines.Runs([FILLED, EMPTY, EMPTY, FILLED]) == [Lines.Run(0, 1), Lines.Run(3, 1)];
    var h := [Hint(1, false), Hint(1, false)];
    assert BlockUpTo(h, 1) == [FILLED, CROSSED_OUT];
    assert Block(h) == [FILLED, CROSSED_OUT, FILLED];
    assert Possibility(h, 4, 0) == [FILLED, CROSSED_OUT, FILLED, CROSSED_OUT];
    assert Possibility(h, 4, 1) == [CROSSED_OUT, FILLED, CROSSED_OUT, FILLED];
    assert Possibilities(h, 4) == [Possibility(h, 4, 0), Possibility(h, 4, 1)];
  }
}
