# nonogram-gb in Dafny

A model of the core of nonogram-gb, a nonogram (picture-logic puzzle) game
that exists twice: as a React web app written in TypeScript, and as a Game
Boy ROM written in C against GBDK.

The TypeScript core covers the following:

- **Hints.** Each row and column of a solution gets a list of hints: the
  lengths of its maximal runs of FILLED cells, each with a `used` flag.
- **Validation and checking.** A puzzle is validated. A player's grid is
  checked against the solution: no FILLED cell where the answer is EMPTY, and
  no CROSSED_OUT cell where it is FILLED.
- **Hint ticking.** `checkHints` marks a hint used when the player's line
  holds a run of the hint's length at the position of the answer's
  corresponding run.
- **Cell update.** `updateCell` toggles a cell with the current tool. In
  Assisted mode a fill the solution forbids is refused: the error sound
  plays, the cell is crossed out, and a contradiction-free row or column is
  crossed out automatically.
- **Uniqueness check.** A line solver enumerates the placements of each
  line's hints, fixes the cells all placements agree on, prunes placements
  against the grid, and repeats. The puzzle is uniquely solvable when no
  EMPTY cell is left.

The Game Boy core is two screens:

- **Puzzle screen.** A 15x15 player array. The cursor wraps at the edges.
  SELECT swaps the primary tool between fill (1) and stamp (2). The
  comments say A and B toggle the primary and the secondary tool on the
  cursor cell. The code at src/puzzle.c:163 and :175 does something else.
- **Menu.** A 4x7 grid of options. The cursor steps by 32 and 16 pixels,
  is wrapped by `wrap_cursor`, and reacts only to a change of the joypad
  reading. The steps are `uint8_t` operations.

Where a Game Boy line does something other than its comments or its wrap
intend, the frame functions take a `Variant`. `AsWritten` follows the code
line by line, and `Intended` is the commented behaviour. The loop methods
`PuzzleLoop` and `MenuLoop` run as written. The lemmas about the intended
behaviour name `Intended`, and the lemmas that show the difference compare
the two.

## Files

- `types.dfy` (module `Nonogram`): cell states, hints, game modes, grids, and `GridOf`, the value of a 2-D array.
- `lines.dfy` (module `Lines`): runs of FILLED cells. It has an independent definition of a decomposition into maximal runs, the scan that `findSequences` and the hint derivation share, and the proof that the scan yields the unique decomposition.
- `puzzle_utils.dfy` (module `PuzzleUtils`): `createEmptyGameState`, the hint derivations, `validatePuzzle`, `checkSolution`, the line-completion rule, and `generatePossibleDataForHints`, both as written and corrected.
- `hint_checker.dfy` (module `HintChecker`): `findSequences` and `checkHints`, ticking the caller's hint array in place.
- `update_cell.dfy` (module `UpdateCell`): `updateCell` on a 2-D array with hint-list arrays and an error-sound object.
- `solvability.dfy` (module `Solvability`): `checkPuzzleHasUniqueSolution` on a 2-D array, and the source's loop as written.
- `gameboy.dfy` (module `GameBoy`): `uint8_t` arithmetic and the joypad masks.
- `gb_puzzle.dfy` (module `GbPuzzle`): src/puzzle.c.
- `gb_menu.dfy` (module `GbMenu`): src/menu.c.

### State and parameters

- **`updateCell`.** The source rebinds the outer grid array but shares its rows, so the caller's grid changes in place. The model makes the grid an `array2` and each hint list an entry of an `array<seq<Hint>>`. The source mutates the caller's hint objects. The two hint arrays must be distinct, which holds for the app's separate row and column hint lists.
- **Game Boy loops.** The `while (1)` loops take their joypad readings as a finite sequence parameter. Each reading is one frame.
- **`puzzle_loop`.** The sequence is consumed to its end, and the final arrays and variables are returned.
- **`menu_loop`.** The loop returns the option picked with A, or None if the readings run out first.

### Where the model follows the code

- **`checkHints` compares with the hint value.** The code compares the player's run with the hint value, not with the answer's run. The test "should not mark hints if sequences are too short" (src/utils/hintChecker.test.ts:353-372) passes hints that are not the answer's. On the code as written, its first hint is ticked and its second makes `answerSequence.start` throw. `HintChecker.TooShortTestAgainstCode` shows both.
- **The answer with fewer runs than hints.** The test "should not mark hints if they don't match the answer" (src/utils/hintChecker.test.ts:395-414) checks the cells [FILLED, EMPTY, FILLED] against the answer [EMPTY, FILLED, EMPTY] with two hints of 1. The answer has one run. On the code as written, the second hint's `find` matches the length of the line's first run and then reads `answerSequence.start` of a run that does not exist, so the code throws (the `&&` at src/utils/hintChecker.ts:48-51). The model ticks neither hint, as the test expects. `HintChecker.CheckHintsExamples` states both.
- **The final uniqueness test.** A deduced grid counts as solved when it has no EMPTY cell. No further contradiction check is made.

## Model

| member | source | states |
|---|---|---|
| Lines.RunsDecompose | src/utils/hintChecker.ts:11-34 | The scan lists the line's maximal FILLED runs, left to right: each is a run with a non-FILLED cell or the line's edge on both sides, and nothing FILLED lies between them. |
| Lines.DecompUnique | src/utils/hintChecker.ts:11-34 | A line has only one decomposition into maximal runs, so the scan's output is determined by that definition alone. |
| Lines.RunMembership | src/utils/hintChecker.ts:11-34 | A (start, length) pair is listed if and only if it is a maximal FILLED run of the line. |
| Lines.NoRunsIffNoFilled | src/utils/hintChecker.ts:11-34 | No run is listed exactly when the line has no FILLED cell. |
| Lines.RunsCountFilled | src/utils/puzzleUtils.ts:22-41 | The run lengths add up to the number of FILLED cells. |
| Lines.RunsSameFilled | src/utils/hintChecker.ts:11-34 | Two lines with the same FILLED positions have the same runs, whatever their other cells hold. |
| Lines.CountFilled | src/utils/puzzleUtils.ts:27-34 | The number of FILLED cells is at most the line's length. |
| PuzzleUtils.EmptyGameState | src/utils/puzzleUtils.ts:12-17 | The grid has `height` rows of `width` cells, all EMPTY. |
| PuzzleUtils.LineHintsProperties | src/utils/puzzleUtils.ts:22-41 | A line's hints have these properties: <br>- one hint per maximal run, and each hint is at least 1 and unused; <br>- the k-th hint is the length of a maximal run at the k-th run's start; <br>- the hints sum to the FILLED count; <br>- there are no hints exactly when nothing is FILLED. |
| PuzzleUtils.DeriveLineHints | src/utils/puzzleUtils.ts:23-40 | The counting loop returns exactly the line's hints, one per maximal run in order. |
| PuzzleUtils.DeriveRowHints | src/utils/puzzleUtils.ts:22-42 | Row r of the result is the hint list of solution row r. |
| PuzzleUtils.DeriveColumnHints | src/utils/puzzleUtils.ts:47-73 | The nested loops give, for each column up to the first row's width, the hints of that column. A missing cell reads as not FILLED. The result equals the row hints of the transposed solution. |
| PuzzleUtils.DeriveOneColumnHints | src/utils/puzzleUtils.ts:53-69 | One column scanned top to bottom gives exactly that column's hints, one per maximal run in order. A cell missing from a short row counts as not FILLED. |
| PuzzleUtils.ValidatePuzzle | src/utils/puzzleUtils.ts:78-108 | Returns true if and only if the puzzle has at least one row, a non-empty first row, every row as wide as the first, and no CROSSED_OUT cell. |
| PuzzleUtils.CheckSolution | src/utils/puzzleUtils.ts:113-147 | Returns true if and only if the grid has the solution's dimensions, and no FILLED cell lies on an answer EMPTY and no CROSSED_OUT cell on an answer FILLED. |
| PuzzleUtils.EmptyGridMatches | src/utils/puzzleUtils.ts:113-147 | A fresh empty game state of the solution's size passes `checkSolution`: EMPTY cells never contradict. |
| PuzzleUtils.DimensionMismatchFails | src/utils/puzzleUtils.ts:117-126 | A grid of other dimensions is always rejected. |
| PuzzleUtils.SolutionMatchesIffLinesComplete | src/utils/updateCell.ts:60-80 | The grid passes `checkSolution` exactly when every row is complete under the line rule used for `isRowOrColumnComplete`, and exactly when every column is. |
| PuzzleUtils.IsRowOrColumnComplete | src/utils/updateCell.ts:60-80 | The model's `isRowOrColumnComplete`, which the source imports without defining. A row or column is complete exactly when none of its cells contradicts the answer under `checkSolution`'s cell rule. Its link to the whole-grid check is SolutionMatchesIffLinesComplete. |
| PuzzleUtils.Possibilities | src/utils/puzzleUtils.ts:149-170 | The corrected enumeration. Every placement has `size` cells. There is one placement for no hints, none when the hints do not fit, and otherwise one per offset 0 to `size - hintWidth`. Which lines it lists is stated by PossibilitiesAreSingleGapLines. |
| PuzzleUtils.PossibilitiesAreSingleGapLines | src/utils/puzzleUtils.ts:149-170 | For positive hints, a line is listed by the corrected enumeration if and only if it has `size` cells, none EMPTY, and its maximal FILLED runs have the hint values as lengths in order, each run starting one cell after the previous one ends. The hints `LineHints` reads back from a listed line have the given values. |
| PuzzleUtils.PlacementIsSingleGap | src/utils/puzzleUtils.ts:157-166 | Every placement that fits is such a single-gap line. |
| PuzzleUtils.SingleGapLineIsPlaced | src/utils/puzzleUtils.ts:157-166 | Every single-gap line fits, and it is the placement at the start of its first run. |
| PuzzleUtils.PossibilityRuns | src/utils/puzzleUtils.ts:157-166 | The runs of placement i are the hint blocks, block k starting at i plus the earlier blocks and one cell after each. |
| PuzzleUtils.PossibilityCells | src/utils/puzzleUtils.ts:157-166 | Cell p of placement i is never EMPTY, and it is FILLED exactly when one of the placed runs covers p. |
| PuzzleUtils.BlockCells | src/utils/puzzleUtils.ts:158-163 | The first n hint blocks with their separators hold no EMPTY cell, and a cell is FILLED exactly inside one of the blocks. |
| PuzzleUtils.OffsetGap | src/utils/puzzleUtils.ts:158-163 | Each block ends at least one cell before any later block starts. |
| PuzzleUtils.PlacedRunsApart | src/utils/puzzleUtils.ts:158-163 | Each placed run ends before any later one starts. |
| PuzzleUtils.ChainedArePlaced | src/utils/puzzleUtils.ts:157-166 | Runs of the hint lengths, each one cell after the previous, are the placed runs of their first start. |
| PuzzleUtils.ExactRuns | src/utils/hintChecker.ts:11-34 | Non-empty ordered runs with gaps that cover exactly the FILLED cells are the line's runs. |
| PuzzleUtils.SameRunsSameLine | src/utils/hintChecker.ts:11-34 | Two lines of the same length with no EMPTY cell and the same runs are equal. |
| PuzzleUtils.GeneratePossibleDataForHints | src/utils/puzzleUtils.ts:149-170 | The loops build exactly the corrected list of placements. |
| PuzzleUtils.PossibilitiesExamples | src/utils/puzzleUtils.ts:149-170 | [1,1] in 3 cells gives the single line F X F. [1,2] in 3 gives nothing. [1] in 3 gives the three positions of the block. |
| PuzzleUtils.PossibilitiesAsWritten | src/utils/puzzleUtils.ts:149-170 | The enumeration as written yields `size - hintWidth` placements, or none when that is not positive. |
| PuzzleUtils.AsWrittenPlacementsWrong | src/utils/puzzleUtils.ts:157-166 | The enumeration as written gives: <br>- nothing for [1,1] in 3, where one placement exists; <br>- a placement for [2] in 3 made of nested arrays rather than cells; <br>- four placements for no hints in 3. |
| HintChecker.FindSequences | src/utils/hintChecker.ts:11-34 | The loop returns the line's maximal FILLED runs in order, a decomposition of the line. |
| HintChecker.FindRun | src/utils/hintChecker.ts:48-51 | The search finds a run exactly when the given (start, length) run is in the list, and then returns that run. |
| HintChecker.MatchHints | src/utils/hintChecker.ts:40-56 | Ticking keeps the list's length and every hint value, and leaves used hints as they are. |
| HintChecker.CheckHints | src/utils/hintChecker.ts:3-59 | The caller's hint array is updated in place to the ticked list, and that list is returned. |
| HintChecker.TickIffRunAtAnswerStart | src/utils/hintChecker.ts:40-56 | An unused hint i is ticked if and only if the answer has an i-th run and the line has a maximal run of exactly the hint's length starting where that answer run starts. |
| HintChecker.HintsIndependent | src/utils/hintChecker.ts:40-56 | The verdict on hint i depends on that hint alone, not on the rest of the list. |
| HintChecker.MatchHintsIdempotent | src/utils/hintChecker.ts:40-56 | Running the ticker twice gives the same list as running it once. |
| HintChecker.AnswerLineTicksAll | src/utils/hintChecker.ts:36-56 | The answer line itself ticks every hint derived from it, and does not make the source throw. |
| HintChecker.NoThrowWhenHintsFit | src/utils/hintChecker.ts:45-51 | A hint list no longer than the answer's run list never reaches a missing answer run. |
| HintChecker.CheckHintsExamples | src/utils/hintChecker.test.ts:332-464 | The test cases give the expected tick patterns: <br>- ticks go by position; <br>- each hint is ticked on its own; <br>- used hints stay used; <br>- a run elsewhere ticks nothing. <br>On the test at :395-414 the answer has fewer runs than there are hints, and the code as written throws (`SourceThrows`); the model's ticks are the ones the test expects. |
| HintChecker.TooShortTestAgainstCode | src/utils/hintChecker.test.ts:353-372 | On that test's input the code ticks the first hint, and the second hint makes the source throw. |
| UpdateCell.ErrorSound.Play | src/utils/updateCell.ts:39 | Each play adds one to the count of error sounds played. |
| UpdateCell.AfterCell | src/utils/updateCell.ts:31-48 | The target-cell update keeps the grid rectangular with the solution's shape. |
| UpdateCell.CrossOutRow | src/utils/updateCell.ts:65-69 | Crossing out a row keeps the grid's shape. |
| UpdateCell.CrossOutColumn | src/utils/updateCell.ts:75-79 | Crossing out a column keeps the grid's shape. |
| UpdateCell.AutoCrossOut | src/utils/updateCell.ts:60-81 | The Assisted auto cross-out keeps the grid rectangular. |
| UpdateCell.UpdatedGrid | src/utils/updateCell.ts:25-89 | The whole update keeps the grid rectangular. |
| UpdateCell.UpdateCell | src/utils/updateCell.ts:25-89 | After the call: <br>- the grid array holds the updated grid; <br>- the target row's and column's hint lists are ticked against the grid after the target-cell change; <br>- no other hint list changes; <br>- an error cell is reported and one sound played exactly on a refused Assisted fill. |
| UpdateCell.UpdateTargetCell | src/utils/updateCell.ts:31-48 | The target cell is set by the cell rule, and the error is reported and sounded exactly on a refused move. |
| UpdateCell.TickHintList | src/utils/updateCell.ts:51-58 | Only hint list `index` changes, to its ticked form. |
| UpdateCell.CrossOutRowCells | src/utils/updateCell.ts:65-69 | The loop crosses out the EMPTY cells of the row. |
| UpdateCell.CrossOutColumnCells | src/utils/updateCell.ts:75-79 | The loop crosses out the EMPTY cells of the column. |
| UpdateCell.Toggle | src/utils/updateCell.ts:43-47 | An EMPTY cell takes the tool. For a non-EMPTY tool the result is EMPTY exactly when the cell held the tool. Any other cell is kept. The involution is ToggleRule. |
| UpdateCell.NewCellValue | src/utils/updateCell.ts:31-48 | Free mode always toggles. In Assisted mode a fill on an answer EMPTY is crossed out. That refusal is the only case where the result differs from the toggle. |
| UpdateCell.ToggleRule | src/utils/updateCell.ts:44-47 | An EMPTY cell takes the tool, a cell holding the tool becomes EMPTY, any other cell stays. Toggling twice restores the cell. |
| UpdateCell.FreeModeChangesOnlyTarget | src/utils/updateCell.ts:42-48 | In Free mode only the target cell changes, and it changes by the toggle. |
| UpdateCell.FreeModeRoundTrip | src/utils/updateCell.test.ts:55-65 | In Free mode, the same update applied twice gives back the original grid. |
| UpdateCell.AutoCrossOutOnlyCrossesEmpty | src/utils/updateCell.ts:60-81 | The auto cross-out only turns EMPTY cells into CROSSED_OUT, and only in the target row and column. |
| UpdateCell.NothingElseChanges | src/utils/updateCell.ts:25-89 | Every cell other than the target is unchanged, or is an EMPTY cell of the target row or column now crossed out. |
| UpdateCell.TargetCell | src/utils/updateCell.ts:31-48 | A refused Assisted fill leaves the target CROSSED_OUT. Otherwise the target holds the toggled value, possibly crossed out by the auto cross-out. |
| UpdateCell.InconsistentRowStays | src/utils/updateCell.ts:63-70 | Crossing out EMPTY cells never makes a contradicting row complete. |
| UpdateCell.AssistedCompleteLinesDetermined | src/utils/updateCell.ts:60-81 | In Assisted mode the lines are judged where the source judges them. A target row complete after the cell change, and a target column complete after the row step, have no EMPTY cell in the result. So does either line when it is complete in the result. |
| UpdateCell.AutoCrossOutKeepsRuns | src/utils/updateCell.ts:50-81 | The auto cross-out does not change the FILLED runs of the target row or column. So the hints ticked before it stay correct. |
| UpdateCell.AssistedKeepsNoWrongFill | src/utils/updateCell.ts:31-41 | In Assisted mode a grid with no FILLED cell on an answer EMPTY keeps that invariant. |
| UpdateCell.AutoCrossOutCanHideFilled | src/utils/updateCell.ts:60-81 | Filling a forbidden cell in a 1x2 puzzle crosses out the whole row, including the answer's FILLED cell, so the grid no longer passes `checkSolution`. |
| Solvability.RowPass | src/utils/puzzleUtils.ts:190-200 | The row pass keeps the grid's shape. |
| Solvability.ColumnPass | src/utils/puzzleUtils.ts:201-211 | The column pass keeps the grid's shape. |
| Solvability.Prune | src/utils/puzzleUtils.ts:213-232 | A placement survives if and only if it was there and agrees with every non-EMPTY cell of the line. |
| Solvability.PruneAll | src/utils/puzzleUtils.ts:213-232 | Each line's placements are pruned against that line. |
| Solvability.InitialRowSets | src/utils/puzzleUtils.ts:177-182 | There is one placement list per row. |
| Solvability.InitialColumnSets | src/utils/puzzleUtils.ts:178-185 | There is one placement list per column. |
| Solvability.RowPassProgress | src/utils/puzzleUtils.ts:190-200 | The row pass never adds an EMPTY cell, and it removes one whenever some agreed position was still EMPTY. |
| Solvability.RowPassAgrees | src/utils/puzzleUtils.ts:190-200 | A solution whose rows are among the placements still agrees with the grid after the row pass. |
| Solvability.ColumnPassProgress | src/utils/puzzleUtils.ts:201-211 | The same as RowPassProgress, for the column pass. |
| Solvability.ColumnPassAgrees | src/utils/puzzleUtils.ts:201-211 | The same as RowPassAgrees, for the column pass. |
| Solvability.PruneKeepsFit | src/utils/puzzleUtils.ts:213-232 | Pruning never removes the placement of a solution that agrees with the grid. |
| Solvability.PruneWellFormed | src/utils/puzzleUtils.ts:213-232 | Pruned placement lists still hold lines of the right length with no EMPTY cell. |
| Solvability.InitialSetsWellFormed | src/utils/puzzleUtils.ts:180-185 | The initial placements have the line length and no EMPTY cell. |
| Solvability.DeduceRow | src/utils/puzzleUtils.ts:194-199 | Exactly the agreed positions of the row are written. The loop reports progress iff it wrote a cell that was EMPTY. |
| Solvability.DeduceRows | src/utils/puzzleUtils.ts:190-200 | The array becomes the row pass of the old grid, with progress as in RowProgress. |
| Solvability.DeduceColumn | src/utils/puzzleUtils.ts:205-210 | Exactly the agreed positions of the column are written. The loop reports progress iff it wrote a cell that was EMPTY. |
| Solvability.DeduceColumns | src/utils/puzzleUtils.ts:201-211 | The array becomes the column pass of the old grid, with progress as in ColumnProgress. |
| Solvability.InitialPlacements | src/utils/puzzleUtils.ts:177-185 | The placement lists are the enumerations of the derived row and column hints. |
| Solvability.Iteration | src/utils/puzzleUtils.ts:189-232 | One iteration on values keeps one grid row, one row list and one column list per line. |
| Solvability.IterationProgress | src/utils/puzzleUtils.ts:189-232 | An iteration has these properties: <br>- it leaves well-formed placement lists, each placement compatible with its line; <br>- it never adds an EMPTY cell; <br>- it removes one when it reports progress. |
| Solvability.Deduce | src/utils/puzzleUtils.ts:186-234 | The `do … while` on values: iterations repeat until one reports no progress, and the result is the state that iteration left. It terminates because progress removes an EMPTY cell, and the state it stops in is well formed and pruned. |
| Solvability.Start | src/utils/puzzleUtils.ts:175-185 | The loop starts from an all-EMPTY grid of the solution's shape, with the placements of every row and column hint, well formed and compatible with that grid. |
| Solvability.PruneKeepsCompatible | src/utils/puzzleUtils.ts:213-222 | The filter keeps a placement list unchanged when every placement is compatible with the line. |
| Solvability.PruneAllKeepsCompatible | src/utils/puzzleUtils.ts:213-232 | The same for all lines at once. |
| Solvability.StalledIterationKeeps | src/utils/puzzleUtils.ts:186-234 | From a pruned state, an iteration that writes no EMPTY cell changes neither the grid nor the placement lists. |
| Solvability.DeduceIsFixedPoint | src/utils/puzzleUtils.ts:186-234 | The state the loop stops in is a fixed point: one more iteration would report no progress and change nothing. |
| Solvability.OneByTwoStartState | src/utils/puzzleUtils.ts:175-185 | On [[FILLED, EMPTY]] the loop starts with the row placements [F, X] and [X, F], and the column placements [F] and [X]. |
| Solvability.OneByTwoFirstIteration | src/utils/puzzleUtils.ts:189-232 | The first iteration on that puzzle decides both cells through the columns, keeps only the row placement [F, X], and reports progress. |
| Solvability.OneByTwoSecondIteration | src/utils/puzzleUtils.ts:189-232 | The second iteration finds no EMPTY cell and reports no progress. |
| Solvability.OneByTwoDeduced | src/utils/puzzleUtils.ts:172-239 | On [[FILLED, EMPTY]] the deduction reaches [[FILLED, CROSSED_OUT]] with no EMPTY cell, so the verdict is true. |
| Solvability.DiagonalStartState | src/utils/puzzleUtils.ts:175-185 | On the diagonal [[FILLED, EMPTY], [EMPTY, FILLED]] every row and column starts with the placements [F, X] and [X, F]. |
| Solvability.DiagonalNotDeduced | src/utils/puzzleUtils.ts:172-239 | On the diagonal the first iteration deduces nothing, the grid stays all EMPTY, and the verdict is false. |
| Solvability.DeductionStep | src/utils/puzzleUtils.ts:189-232 | One iteration in place: <br>- the array becomes the column pass of the row pass of the old grid; <br>- the new lists are the old ones pruned against that grid; <br>- progress is reported iff either pass wrote into an EMPTY cell; <br>- so the result is `Iteration` of the old state. <br>It keeps every fitting solution in the placements and in agreement with the grid. |
| Solvability.CheckPuzzleHasUniqueSolution | src/utils/puzzleUtils.ts:172-239 | The corrected loop terminates. Its result has these properties: <br>- the deduced grid is the grid of `Deduce` from `Start`; <br>- the verdict is true iff that grid has no EMPTY cell; <br>- every grid with the solution's hints agrees with the deduction; <br>- when it is true, at most one grid has those hints. |
| Solvability.At | src/utils/puzzleUtils.ts:195 | `x[i]` is the element when i is inside the array, and `undefined` past its end. |
| Solvability.InitialLoopState | src/utils/puzzleUtils.ts:175-185 | The written loop starts from an empty grid of the solution's size, with one placement list per row and per column. |
| Solvability.RowPassAsWritten | src/utils/puzzleUtils.ts:190-200 | As written, every position where all of a row's placements agree by `===` takes the first placement's value there, whatever the cell held. Other cells are kept. |
| Solvability.ColumnPassAsWritten | src/utils/puzzleUtils.ts:201-211 | The same for columns. |
| Solvability.PruneAsWritten | src/utils/puzzleUtils.ts:213-232 | A placement survives if and only if it was there and every cell of the line is EMPTY or `===` the placement's value at that index. |
| Solvability.IterationAsWritten | src/utils/puzzleUtils.ts:186-234 | One written iteration keeps the state's shape, and its flag is set if and only if some non-empty row or column list agrees at some position. |
| Solvability.OneByTwoHints | src/utils/puzzleUtils.ts:177-178 | The puzzle [[FILLED, EMPTY]] has row hints [[1]] and column hints [[1], []]. |
| Solvability.OneByTwoPlacements | src/utils/puzzleUtils.ts:149-170 | Written enumeration of those hints: <br>- [1] in 2 cells gives one placement of two nested arrays, [[F], [X]]; <br>- [1] in 1 cell gives none; <br>- no hints in 1 cell gives two placements. |
| Solvability.OneByTwoStart | src/utils/puzzleUtils.ts:175-185 | The written loop's start state on that puzzle, with each nested array tagged by where it was pushed. |
| Solvability.FirstPasses | src/utils/puzzleUtils.ts:190-211 | The two passes write the row placement's two nested arrays into the grid. The second column's placements disagree, so the column pass writes nothing. |
| Solvability.FirstPrune | src/utils/puzzleUtils.ts:213-232 | The row keeps its one placement. Both column lists become empty, since no placement `===` the nested array now in the grid. |
| Solvability.AsWrittenFirstIteration | src/utils/puzzleUtils.ts:186-234 | The first written iteration reaches the grid of nested arrays with the progress flag set. |
| Solvability.AsWrittenFixedPoint | src/utils/puzzleUtils.ts:186-234 | That state is mapped to itself with the flag set. |
| Solvability.AsWrittenLoopsForever | src/utils/puzzleUtils.ts:186-234 | As written, on the 1x2 puzzle [[FILLED, EMPTY]] the first iteration sets the flag and reaches a state that the body maps to itself with the flag set again, so the `do … while` never ends. |
| Solvability.SingleGapPlacementsOnly | src/utils/puzzleUtils.ts:157-168 | The enumeration ignores wider gaps: F . . F has hints [1,1], but F X X F is not among the placements of [1,1] in 4. |
| GbPuzzle.SampleShape | src/puzzle.c:24-39 | The sample puzzle is 15x15 and holds only 0 and 1. |
| GbPuzzle.Opposite | src/puzzle.c:154-157 | `3 - tool` maps FILL_TOOL to STAMP_TOOL and back, in both directions of each if-and-only-if. |
| GbPuzzle.OppositeInvolution | src/puzzle.c:154-157 | Swapping twice gives back any `uint8_t`. |
| GbPuzzle.ApplyTool | src/puzzle.c:159-180 | The press the comments at :167 and :179 intend: it flags `tile_changed` whenever it changes the cell, and keeps cells in {0, 1, 2}. |
| GbPuzzle.PressA | src/puzzle.c:159-168 | The intended A, with the primary tool. It keeps cells in {0, 1, 2}, and flags a change exactly when the cell changes. |
| GbPuzzle.PressB | src/puzzle.c:169-180 | The intended B, with the secondary tool. It keeps cells in {0, 1, 2}, and flags a change exactly when the cell changes. |
| GbPuzzle.PressAAsWritten | src/puzzle.c:159-168 | The written A keeps cells in {0, 1, 2} and flags every change. Under the fill tool it equals the intended A. On a marked cell it clears exactly the fill (the literal 1 at :163), whichever tool is primary. |
| GbPuzzle.PressBAsWritten | src/puzzle.c:169-180 | The written B keeps cells in {0, 1, 2} and flags every change. On an empty cell it equals the intended B. On a marked cell it clears exactly the primary tool's mark (`!= secondary_tool` at :175), the opposite of the comment at :179. |
| GbPuzzle.ApplyToolToggles | src/puzzle.c:159-180 | The intended press has these properties: <br>- applied twice, it restores the cell; <br>- it ignores the other tool's mark; <br>- it flags a change exactly when the cell changes. |
| GbPuzzle.AsWrittenButtonsMisfire | src/puzzle.c:159-180 | As written, with the stamp as primary, A cannot erase the stamp it placed but erases a fill. B erases the primary mark and cannot erase its own. The intended presses do the opposite. |
| GbPuzzle.AsWrittenAgreement | src/puzzle.c:145-168 | With the fill as primary (the start state) the written A is the intended one, while the written B differs on every marked cell. |
| GbPuzzle.CursorBack | src/puzzle.c:195-202 | The cursor stays in 0..14. |
| GbPuzzle.CursorForward | src/puzzle.c:203-210 | The cursor stays in 0..14. |
| GbPuzzle.CursorMovesInverse | src/puzzle.c:195-226 | Back and forward undo each other on the grid. 0 goes back to 14, and 14 goes forward to 0. |
| GbPuzzle.MoveCursor | src/puzzle.c:194-226 | The four sequential direction tests keep the cursor on the grid. |
| GbPuzzle.Buttons | src/puzzle.c:158-180 | A then B on one cell, as written or as intended, keep it in {0, 1, 2}, and raise the flag whenever the cell changes. |
| GbPuzzle.Frame | src/puzzle.c:149-240 | One frame, in either variant, keeps the screen valid (cells in {0, 1, 2}, cursor on the grid, a tool selected) and changes no cell but the one under the old cursor. |
| GbPuzzle.Frames | src/puzzle.c:149-240 | Any sequence of frames, in either variant, keeps the screen valid. |
| GbPuzzle.InitialScreen | src/puzzle.c:144-147 | The start state is valid. |
| GbPuzzle.TileChangedIffCellChanged | src/puzzle.c:158-182 | With the intended presses, `tile_changed` is set exactly when the cursor cell's value changes, even with A and B together. |
| GbPuzzle.AsWrittenTileChangedWithoutChange | src/puzzle.c:158-182 | As written, that holds for A or B alone. With A and B together on an empty cell under the fill tool, the cell ends empty and `tile_changed` is set. The intended presses leave it filled. |
| GbPuzzle.IdleFrame | src/puzzle.c:149-240 | A frame with no button down changes nothing, in either variant. |
| GbPuzzle.HeldARestores | src/puzzle.c:159-168 | With the intended A, A held for two frames restores the screen. As written, this holds while the fill is the primary tool. |
| GbPuzzle.HeldBRestores | src/puzzle.c:169-180 | With the intended B, B held for two frames restores the screen. |
| GbPuzzle.HeldSelectRestores | src/puzzle.c:154-157 | SELECT held for two frames restores the tool and touches no cell, in either variant. |
| GbPuzzle.MovesUndo | src/puzzle.c:195-226 | LEFT then RIGHT, and UP then DOWN, restore the screen across the edges in either variant. LEFT from 0 goes to 14, and DOWN from 14 goes to 0. |
| GbPuzzle.PuzzleToScreen | src/puzzle.c:89-94 | `puzzle_coordinates_to_screen_coordinates` through `uint8_t` out-pointers. On the grid it is exactly (58 + 6x, 50 + 6y). Injectivity is ScreenCoordinatesOnGrid. |
| GbPuzzle.ScreenCoordinatesOnGrid | src/puzzle.c:89-94 | On the grid the coordinates are exactly (58 + 6x, 50 + 6y) with no `uint8_t` overflow, and distinct cells get distinct positions. |
| GbPuzzle.MemoryAddress | src/puzzle.c:104-106 | `puzzle_coordinates_to_memory_address` as written. After the `uint8_t` return it is (128·(y mod 2) + 8x + 32) mod 256, so only the row's parity survives. The collision is MemoryAddressKeepsRowParity. |
| GbPuzzle.TileAddress | src/puzzle.c:104-106 | The same sum without truncation. It is a multiple of 8, and the written address is it modulo 256. Injectivity on the grid is TileAddressInjective. |
| GbPuzzle.MemoryAddressKeepsRowParity | src/puzzle.c:104-106 | The `uint8_t` address is (128·(y mod 2) + 8x + 32) mod 256, so rows y and y + 2 collide. (0, 0) and (0, 2) are both 32. |
| GbPuzzle.TileAddressInjective | src/puzzle.c:104-106 | The untruncated address separates all 225 cells. |
| GbPuzzle.LoadPuzzle | src/puzzle.c:60-66 | Afterwards `puzzle_solution[i*15+j]` is `sample_puzzle_data[i][j]` for every cell. |
| GbPuzzle.InitPuzzle | src/puzzle.c:68-87 | The solution is loaded and all 225 player cells are 0. |
| GbPuzzle.PuzzleLoopIteration | src/puzzle.c:149-237 | One loop pass leaves the array and variables in the state the written `Frame` gives. Its flags are the written A/B change flag and whether a direction was pressed. |
| GbPuzzle.PressButtons | src/puzzle.c:158-180 | The A and B code as written changes only the cursor cell, as the written `Buttons` says. |
| GbPuzzle.MoveCursorStep | src/puzzle.c:194-226 | The cursor moves as `MoveCursor` says, and `moved` is set iff a direction is down. |
| GbPuzzle.PuzzleLoop | src/puzzle.c:141-240 | After `init_puzzle` and one pass per reading, the solution holds the sample and the state is the written `Frames` of the start state. |
| GbMenu.WrapCursor | src/menu.c:84-95 | The result lies in [min, max] when min ≤ max. A value inside is kept, one below goes to max, and one above goes to min. |
| GbMenu.MenuOptionsTable | src/menu.c:97-105 | The table is 7x4, and row r of column c holds r + 7c. |
| GbMenu.SelectedOption | src/menu.c:124-129 | On a valid cursor, A returns row index + 7·column index, which lies in 0..27. |
| GbMenu.SelectionOneToOne | src/menu.c:97-128 | Distinct cursor positions select distinct options, and each option 0..27 has a position that selects it. |
| GbMenu.HorizontalMovesInverse | src/menu.c:140-153 | Computed in int, LEFT and RIGHT keep x on the four columns and undo each other. LEFT from 16 goes to 112, and RIGHT from 112 goes to 16. |
| GbMenu.VerticalMovesInverse | src/menu.c:130-154 | UP and DOWN keep y on the seven rows and undo each other. UP from 20 goes to 116, and DOWN from 116 goes to 20. |
| GbMenu.AsWrittenLeftStuck | src/menu.c:140-153 | As written, LEFT from 16 gives 240 in `uint8_t`, and the wrap sends it back to 16, not 112. Every other move agrees with the int computation. |
| GbMenu.StepAxis | src/menu.c:130-154 | The intended step, added in int and wrapped. It lands in [min, max]. An in-range sum is kept, one below goes to max, one above to min. Inverses are HorizontalMovesInverse and VerticalMovesInverse. |
| GbMenu.StepAxisAsWritten | src/menu.c:130-154 | The written step, `cursor -= step` or `+= step` in `uint8_t`, then `wrap_cursor`. It lands in [min, max], and it equals the int step whenever the sum stays in 0..255. An underflow that lands above max goes to min, as LEFT from 16 does (AsWrittenLeftStuck). |
| GbMenu.Step | src/menu.c:130-154 | One step along an axis, in `uint8_t` as written or in int as intended, then wrapped, lands in [min, max]. |
| GbMenu.StepKeepsColumn | src/menu.c:140-153 | A step of none or one column, in either variant, lands on one of the four columns. |
| GbMenu.StepKeepsRow | src/menu.c:130-154 | A step of none or one row, in either variant, lands on one of the seven rows. |
| GbMenu.ActionOf | src/menu.c:124-149 | The else-if chain's priority. A selects whenever it is down; UP acts only without A; DOWN only without A and UP; LEFT only without A, UP and DOWN. Nothing happens exactly when none of the five is down. |
| GbMenu.Move | src/menu.c:130-154 | A move, in either variant, keeps the cursor on the menu grid. |
| GbMenu.MenuFrame | src/menu.c:119-161 | A frame, in either variant, keeps the cursor valid, and any option it returns is in 0..27. |
| GbMenu.MenuRun | src/menu.c:117-164 | Any option returned after a sequence of frames is in 0..27. |
| GbMenu.InitialMenu | src/menu.c:112-115 | The start state is valid. |
| GbMenu.HeldButtonActsOnce | src/menu.c:122-161 | A reading equal to the last changes nothing. After a move the reading is recorded, so holding it does nothing more. |
| GbMenu.OneActionPerChange | src/menu.c:122-149 | A new reading with A down returns the option under the cursor, whatever else is down. At most one coordinate changes per frame. Without A nothing is returned. |
| GbMenu.MenuRunExamples | src/menu.c:108-164 | In either variant: DOWN, release, A picks 1. UP, release, A picks 6 (wrapping to the bottom row). RIGHT held over two frames, then A picks 7. |
| GbMenu.AsWrittenLeftFromStart | src/menu.c:140-153 | As written, LEFT from the start, a release and A pick option 0. The intended wrap picks 21. |
| GbMenu.MoveStep | src/menu.c:130-153 | The move part of the loop body, in `uint8_t`, gives the written `Move`. |
| GbMenu.MenuLoop | src/menu.c:108-164 | The loop returns what the written `MenuRun` gives from the start state. |

## Left out

- **`hasUniqueSolution`** (src/utils/puzzleUtils.ts:242-329): unused by the rest of the core. Its fill rule is no valid deduction, and it has a duplicated branch.
- **Diagnostic logging:** the `console.log` of `checkPuzzleHasUniqueSolution`.
- **The error sound's audio** (src/utils/errorSound.ts): it is reduced to a count of plays. The `await` on it is not modelled, since everything then runs in order.
- **The React UI, routing, storage and timers, and `puzzleLoader`:** these are not part of the core.
- **Game Boy hardware:** sprites, palettes, VRAM writes in `update_background_tile`, `vsync`, and title.c, graphics_util.c and main.c. The display effects of `tile_changed` and `moved` are returned as flags only.
- **gb/gb.h** is not part of this model. The joypad masks are GBDK's values.
- **START** (src/puzzle.c:151-153) does nothing in the source, and it is modelled as doing nothing.
- **`selected_puzzle`** is ignored by `load_puzzle`, as in the source.
- **UpdateCell.UpdateCell** requires the row and column hint arrays to be two different arrays.
- **UpdateCell.UpdateCell: `isRowOrColumnComplete`.** It is imported from puzzleUtils.ts but not defined there. It is modelled as "no cell of the line contradicts the answer", the rule `checkSolution` applies cell by cell.
- **HintChecker.CheckHints: the missing answer run.** Where the source reads the start of a missing answer run and throws a TypeError, the model leaves the hint unused. `SourceThrows` states exactly when the source throws.
- **Solvability.CheckPuzzleHasUniqueSolution: empty solution.** It requires a non-empty solution, because the source reads `solution[0].length`.
- **Solvability.CheckPuzzleHasUniqueSolution: `deduced`.** Its deduced grid is a ghost result. It is the grid of `Deduce(Start(solution))`, the loop on values, and `DeduceIsFixedPoint` shows that no further iteration would change it.
- **Solvability.IterationAsWritten: JS values.** The written loop is modelled on values. A cell is a cell, a nested array, or `undefined`. A nested array's identity for `===` is where it was pushed, since each push creates a new array. No other JS semantics is modelled.
- **Solvability: the written loop's termination.** A function cannot run a loop that does not end. So the non-termination is stated as a reachable fixed point with the flag set (`AsWrittenLoopsForever`), not as a method.
- **PuzzleUtils.PossibilitiesAreSingleGapLines** requires positive hints. Hints derived from a solution are always at least 1 (`LineHints`).
- **GbPuzzle.ApplyTool** and **GbPuzzle.TileChangedIffCellChanged** state the intended presses. The written presses are `PressAAsWritten` and `PressBAsWritten`, which `AsWrittenButtonsMisfire` and `AsWrittenTileChangedWithoutChange` treat.
- **GbPuzzle.HeldBRestores** is stated for the intended B only. With the written B, a second B clears the secondary mark the first B placed.
- **Solvability.CheckPuzzleHasUniqueSolution: gaps.** It inherits the single-gap enumeration (`SingleGapPlacementsOnly`, the source's own todo at :168). "Unique" is stated only relative to those placements.
- **GbPuzzle.InitPuzzle** requires the solution and player arrays to be distinct, as the two locals of `puzzle_loop` are.
- **GbMenu.SelectedOption** requires a cursor on the menu grid, where `menu_loop` always keeps it, because other positions would index outside `menu_options`.

## Findings

| source | as written | input that shows it | evidently intended | confidence | as-written member | corrected member |
|---|---|---|---|---|---|---|
| src/utils/puzzleUtils.ts:157-166 | The loop bound is `i < size - hintWidth`, and whole arrays are pushed into each placement. | hints [1,1], size 3: no placement at all. Hints [2], size 3: [[F,F],[X]]. No hints, size 3: four placements. | Offsets 0 to `size - hintWidth` inclusive, flat lines of cells, and one all-crossed line for no hints. | high (not executed) | PuzzleUtils.AsWrittenPlacementsWrong | PuzzleUtils.PossibilitiesAreSingleGapLines |
| src/utils/puzzleUtils.ts:195-198 | The progress flag is set whenever all placements agree at a position, even if the cell is already known. | 1x2 puzzle [[FILLED, EMPTY]]: the row's one placement is two nested arrays ([F], [X]). It agrees with itself at both positions, so every iteration sets the flag and writes the same arrays, and the `do … while` never ends. | Progress only when an EMPTY cell is newly determined. The corrected loop then stops on this puzzle after two iterations with the verdict true (`OneByTwoDeduced`). | high (not executed) | Solvability.AsWrittenLoopsForever | Solvability.CheckPuzzleHasUniqueSolution |
| src/puzzle.c:163 | A clears a cell holding the literal 1. | SELECT (primary = stamp), A on an empty cell: it becomes 2, and a second A leaves it 2. A on a fill clears it, against the comment at :167. | A clears the primary tool's mark and ignores the secondary's. | medium (not executed) | GbPuzzle.AsWrittenButtonsMisfire | GbPuzzle.HeldARestores |
| src/puzzle.c:175 | B clears a non-empty cell that is not the secondary tool. | Primary = fill, B on an empty cell: it becomes 2, and a second B leaves it 2. B on a fill clears it, against the comment at :179. | B clears the secondary tool's mark and ignores the primary's. | medium (not executed) | GbPuzzle.AsWrittenButtonsMisfire | GbPuzzle.HeldBRestores |
| src/puzzle.c:163, :175 | A and B run one after the other on the same cell in one frame. | Fill tool, A and B together on an empty cell: A fills it, B sees a cell that is not the stamp and clears it, and `tile_changed` is set on an unchanged cell. | The intended presses: A fills, and B leaves the fill alone. | medium (not executed) | GbPuzzle.AsWrittenTileChangedWithoutChange | GbPuzzle.TileChangedIffCellChanged |
| src/menu.c:142 | `cursor_x -= 32` in `uint8_t`. | x = 16, LEFT: 240, which wraps to 16, so the cursor does not move. | Wrap round to the last column (112), as UP does for rows. | medium (not executed) | GbMenu.AsWrittenLeftFromStart | GbMenu.HorizontalMovesInverse |
| src/puzzle.c:104-106 | The tile address is returned as `uint8_t`. | Cells (0, 0) and (0, 2) both get address 32. | The untruncated address `128y + 8x + 32`, distinct for every cell. | low (not executed) | GbPuzzle.MemoryAddressKeepsRowParity | GbPuzzle.TileAddressInjective |
