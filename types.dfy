/** The value types of the nonogram rules engine: cell states, hints, game modes
    and the grid helpers every component shares. */
module Nonogram {

  /** State of one cell of the working grid. */
  datatype CellState = EMPTY | FILLED | CROSSED_OUT

  /** A cell of a solution grid: a working cell state that is never crossed out. */
  type SolutionCell = c: CellState | c != CROSSED_OUT witness EMPTY

  /** A hint of a row or column: the length of one run of filled cells, and whether
      the player has already satisfied it. */
  datatype Hint = Hint(hint: nat, used: bool)

  /** The play policy of a session. */
  datatype GameMode = Free | Assisted

  datatype Option<T> = None | Some(value: T)

  /** A working grid, row-major. */
  type Grid = seq<seq<CellState>>

  /** A solution grid, row-major. */
  type Solution = seq<seq<SolutionCell>>

  /** The line of n copies of c (the source's `Array(n).fill(c)`). */
  function Repeat(c: CellState, n: nat): (r: seq<CellState>)
    ensures |r| == n
    ensures forall k :: 0 <= k < n ==> r[k] == c
  {
    if n == 0 then [] else [c] + Repeat(c, n - 1)
  }

  /** Every row of g has exactly `width` cells. */
  predicate HasWidth<T>(g: seq<seq<T>>, width: nat)
  {
    forall r :: 0 <= r < |g| ==> |g[r]| == width
  }

  /** g has `height` rows of `width` cells each. */
  predicate HasShape<T>(g: seq<seq<T>>, height: nat, width: nat)
  {
    |g| == height && HasWidth(g, width)
  }

  /** Column `col` of g, top to bottom (the source's `grid.map(row => row[col])`). */
  function Column<T>(g: seq<seq<T>>, col: nat): (c: seq<T>)
    requires forall r :: 0 <= r < |g| ==> col < |g[r]|
    ensures |c| == |g|
    ensures forall r :: 0 <= r < |g| ==> c[r] == g[r][col]
  {
    seq(|g|, r requires 0 <= r < |g| => g[r][col])
  }

  /** The contents of a two-dimensional cell array, row-major. */
  function GridOf(a: array2<CellState>): (g: Grid)
    reads a
    ensures HasShape(g, a.Length0, a.Length1)
    ensures forall r, c :: 0 <= r < a.Length0 && 0 <= c < a.Length1 ==> g[r][c] == a[r, c]
  {
    seq(a.Length0, r requires 0 <= r < a.Length0 reads a =>
      seq(a.Length1, c requires 0 <= c < a.Length1 reads a => a[r, c]))
  }

  /** Grids of one shape with the same cells are equal. */
  lemma GridsEqual<T>(a: seq<seq<T>>, b: seq<seq<T>>, height: nat, width: nat)
    requires HasShape(a, height, width) && HasShape(b, height, width)
    requires forall r, c :: 0 <= r < height && 0 <= c < width ==> a[r][c] == b[r][c]
    ensures a == b
  {
    forall r | 0 <= r < height
      ensures a[r] == b[r]
    {
    }
  }
}
