/** The puzzle screen of src/puzzle.c: the solution and player arrays of a
    15x15 puzzle (row-major, `y * 15 + x`), the cursor, and the tool the A and
    B buttons apply. One pass of the `while (1)` loop of `puzzle_loop` is one
    frame: SELECT swaps the tools, A and B act on the cursor cell, then the
    cursor moves with wrap-around. */
module GbPuzzle {
  import opened GameBoy

  const ERASE_TOOL: Byte := 0
  const FILL_TOOL: Byte := 1
  const STAMP_TOOL: Byte := 2

  const PUZZLE_TILE_SIZE: Byte := 6
  const PUZZLE_TILE_START_X: Byte := 58
  const PUZZLE_TILE_START_Y: Byte := 50

  const OFFSET_FOR_CLUES: Byte := 8 * 4

  /** The one puzzle there is: `load_puzzle` copies it whatever is selected. */
  const SAMPLE_PUZZLE_DATA: seq<seq<Byte>> := [
    [0, 0, 0, 1, 1, 1, 1, 1, 1, 1, 1, 1, 0, 0, 0],
    [0, 0, 1, 1, 1, 1, 1, 1, 1, 1, 1, 1, 1, 0, 0],
    [0, 1, 1, 1, 1, 1, 1, 1, 1, 1, 1, 1, 1, 1, 0],
    [1, 1, 1, 0, 0, 1, 1, 1, 1, 1, 0, 0, 1, 1, 1],
    [1, 1, 1, 0, 0, 1, 1, 1, 1, 1, 0, 0, 1, 1, 1],
    [1, 1, 1, 1, 1, 1, 1, 1, 1, 1, 1, 1, 1, 1, 1],
    [1, 1, 1, 1, 1, 1, 0, 0, 0, 1, 1, 1, 1, 1, 1],
    [1, 1, 1, 1, 1, 0, 0, 0, 0, 0, 1, 1, 1, 1, 1],
    [1, 1, 1, 1, 1, 1, 0, 0, 0, 1, 1, 1, 1, 1, 1],
    [1, 1, 1, 1, 1, 1, 1, 1, 1, 1, 1, 1, 1, 1, 1],
    [1, 1, 1, 0, 0, 1, 1, 1, 1, 1, 0, 0, 1, 1, 1],
    [1, 1, 1, 0, 0, 1, 1, 1, 1, 1, 0, 0, 1, 1, 1],
    [0, 1, 1, 1, 1, 1, 1, 1, 1, 1, 1, 1, 1, 1, 0],
    [0, 0, 1, 1, 1, 1, 1, 1, 1, 1, 1, 1, 1, 0, 0],
    [0, 0, 0, 1, 1, 1, 1, 1, 1, 1, 1, 1, 0, 0, 0]]

  /** The sample is a 15x15 grid of 0/1 values. */
  lemma SampleShape()
    ensures |SAMPLE_PUZZLE_DATA| == 15
    ensures forall i :: 0 <= i < 15 ==> |SAMPLE_PUZZLE_DATA[i]| == 15
    ensures forall i, j :: 0 <= i < 15 && 0 <= j < 15 ==> SAMPLE_PUZZLE_DATA[i][j] <= 1
  {
  }

  /** The two tools SELECT swaps between. */
  predicate IsTool(t: Byte)
  {
    t == FILL_TOOL || t == STAMP_TOOL
  }

  /** What a cell of `puzzle_data` may hold: nothing, or one of the tools. */
  predicate IsCellValue(v: Byte)
  {
    v == ERASE_TOOL || IsTool(v)
  }

  /** `3 - tool` stored in a `uint8_t`: the other tool. */
  function Opposite(tool: Byte): (other: Byte)
    ensures tool == FILL_TOOL <==> other == STAMP_TOOL
    ensures tool == STAMP_TOOL <==> other == FILL_TOOL
  {
    U8(3 - tool)
  }

  /** Swapping twice gives back any `uint8_t`, not only the two tools. */
  lemma OppositeInvolution(tool: Byte)
    ensures Opposite(Opposite(tool)) == tool
  {
    if tool <= 3 {
      assert Opposite(tool) == 3 - tool;
    } else {
      assert Opposite(tool) == 259 - tool;
    }
  }

  // ----- the A and B buttons on one cell -----

  /** A button acting with `tool` on a cell: an empty cell takes the tool, a
      cell holding the tool is cleared, any other cell is left alone. The
      flag is the source's `tile_changed`. */
  function ApplyTool(cell: Byte, tool: Byte): (r: (Byte, bool))
    ensures r.0 != cell ==> r.1
    ensures IsCellValue(cell) && IsTool(tool) ==> IsCellValue(r.0)
  {
    if cell == ERASE_TOOL then (tool, true)
    else if cell == tool then (ERASE_TOOL, true)
    else (cell, false)
  }

  /** A, as its comment at src/puzzle.c:167 intends: the primary tool. */
  function PressA(cell: Byte, primaryTool: Byte): (r: (Byte, bool))
    ensures IsCellValue(cell) && IsTool(primaryTool) ==> IsCellValue(r.0) && (r.1 <==> r.0 != cell)
  {
    ApplyTool(cell, primaryTool)
  }

  /** B, as its comment at src/puzzle.c:179 intends: the secondary tool. */
  function PressB(cell: Byte, primaryTool: Byte): (r: (Byte, bool))
    ensures IsCellValue(cell) && IsTool(primaryTool) ==> IsCellValue(r.0) && (r.1 <==> r.0 != cell)
  {
    ApplyTool(cell, Opposite(primaryTool))
  }

  /** A as written: a cell holding the literal FILL_TOOL is cleared, whatever
      the primary tool is. */
  function PressAAsWritten(cell: Byte, primaryTool: Byte): (r: (Byte, bool))
    ensures IsCellValue(cell) && IsTool(primaryTool) ==> IsCellValue(r.0)
    ensures r.0 != cell ==> r.1
    ensures primaryTool == FILL_TOOL ==> r == PressA(cell, primaryTool)
    ensures cell != ERASE_TOOL ==> (r.0 == ERASE_TOOL <==> cell == FILL_TOOL)
  {
    if cell == 0 then (primaryTool, true)
    else if cell == 1 then (0, true)
    else (cell, false)
  }

  /** B as written: a non-empty cell is cleared unless it holds the secondary
      tool. */
  function PressBAsWritten(cell: Byte, primaryTool: Byte): (r: (Byte, bool))
    ensures IsCellValue(cell) && IsTool(primaryTool) ==> IsCellValue(r.0)
    ensures r.0 != cell ==> r.1
    ensures cell == ERASE_TOOL ==> r == PressB(cell, primaryTool)
    ensures IsCellValue(cell) && IsTool(primaryTool) && cell != ERASE_TOOL ==>
              (r.0 == ERASE_TOOL <==> cell == primaryTool)
  {
    var secondaryTool := Opposite(primaryTool);
    if cell == 0 then (secondaryTool, true)
    else if cell != secondaryTool then (0, true)
    else (cell, false)
  }

  /** A tool toggles its own mark: applying it twice restores the cell, it
      leaves the other tool's mark alone, and it reports a change exactly when
      the cell changes. */
  lemma ApplyToolToggles(cell: Byte, tool: Byte)
    requires IsCellValue(cell) && IsTool(tool)
    ensures ApplyTool(ApplyTool(cell, tool).0, tool).0 == cell
    ensures cell == Opposite(tool) ==> ApplyTool(cell, tool) == (cell, false)
    ensures ApplyTool(cell, tool).1 <==> ApplyTool(cell, tool).0 != cell
  {
  }

  /** The written A and B against the intended ones. With the stamp as the
      primary tool, A cannot erase the stamp it placed and does erase the
      secondary fill. B erases the primary mark and never its own. */
  lemma AsWrittenButtonsMisfire()
    ensures PressAAsWritten(PressAAsWritten(0, STAMP_TOOL).0, STAMP_TOOL).0 == STAMP_TOOL
    ensures PressA(PressA(0, STAMP_TOOL).0, STAMP_TOOL).0 == ERASE_TOOL
    ensures PressAAsWritten(FILL_TOOL, STAMP_TOOL) == (ERASE_TOOL, true)
    ensures PressA(FILL_TOOL, STAMP_TOOL) == (FILL_TOOL, false)
    ensures PressBAsWritten(PressBAsWritten(0, FILL_TOOL).0, FILL_TOOL).0 == STAMP_TOOL
    ensures PressB(PressB(0, FILL_TOOL).0, FILL_TOOL).0 == ERASE_TOOL
    ensures PressBAsWritten(FILL_TOOL, FILL_TOOL) == (ERASE_TOOL, true)
    ensures PressB(FILL_TOOL, FILL_TOOL) == (FILL_TOOL, false)
  {
  }

  /** With the fill as the primary tool (the start of `puzzle_loop`) the
      written A is the intended one; B never is on a marked cell. */
  lemma AsWrittenAgreement(cell: Byte)
    requires IsCellValue(cell)
    ensures PressAAsWritten(cell, FILL_TOOL) == PressA(cell, FILL_TOOL)
    ensures cell != ERASE_TOOL ==> PressBAsWritten(cell, FILL_TOOL).0 != PressB(cell, FILL_TOOL).0
  {
  }

  // ----- the cursor -----

  /** `cursor_x--` (or `cursor_y--`) with wrap-around from 0 to 14. */
  function CursorBack(c: Byte): (d: Byte)
    ensures c < 15 ==> d < 15
  {
    if c == 0 then 14 else c - 1
  }

  /** `cursor_x++` (or `cursor_y++`) with wrap-around from 14 to 0. */
  function CursorForward(c: Byte): (d: Byte)
    ensures c < 15 ==> d < 15
  {
    if c == 14 then 0 else U8(c + 1)
  }

  /** The two moves undo each other on the grid, both wrapping at the edges. */
  lemma CursorMovesInverse(c: Byte)
    requires c < 15
    ensures CursorForward(CursorBack(c)) == c
    ensures CursorBack(CursorForward(c)) == c
    ensures CursorBack(0) == 14 && CursorForward(14) == 0
  {
  }

  /** The four directions in the order the loop tests them. */
  function MoveCursor(x: Byte, y: Byte, joypadState: Byte): (r: (Byte, Byte))
    ensures x < 15 && y < 15 ==> r.0 < 15 && r.1 < 15
  {
    var x1 := if Pressed(joypadState, J_LEFT) then CursorBack(x) else x;
    var x2 := if Pressed(joypadState, J_RIGHT) then CursorForward(x1) else x1;
    var y1 := if Pressed(joypadState, J_UP) then CursorBack(y) else y;
    var y2 := if Pressed(joypadState, J_DOWN) then CursorForward(y1) else y1;
    (x2, y2)
  }

  // ----- one frame -----

  /** The state `puzzle_loop` carries from frame to frame. */
  datatype Screen = Screen(data: seq<Byte>, cursorX: Byte, cursorY: Byte, primaryTool: Byte)

  /** A well-formed screen: 225 cells holding nothing or a tool, the cursor on
      the grid, and one of the two tools selected. */
  predicate ValidScreen(s: Screen)
  {
    |s.data| == 15 * 15 && s.cursorX < 15 && s.cursorY < 15 && IsTool(s.primaryTool)
    && forall k :: 0 <= k < |s.data| ==> IsCellValue(s.data[k])
  }

  /** The index of cell (x, y) in the row-major arrays. */
  function CellIndex(x: Byte, y: Byte): (k: nat)
    ensures x < 15 && y < 15 ==> k < 15 * 15
  {
    y * 15 + x
  }

  /** A and then B on the cursor cell, as the loop applies them in one frame,
      with the presses as written or as intended. The flag is raised whenever
      the cell changes. */
  function Buttons(cell: Byte, primaryTool: Byte, joypadState: Byte, variant: Variant): (r: (Byte, bool))
    ensures IsCellValue(cell) && IsTool(primaryTool) ==> IsCellValue(r.0)
    ensures r.0 != cell ==> r.1
  {
    var (afterA, changedA) :=
      if !Pressed(joypadState, J_A) then (cell, false)
      else if variant == AsWritten then PressAAsWritten(cell, primaryTool)
      else PressA(cell, primaryTool);
    var (afterB, changedB) :=
      if !Pressed(joypadState, J_B) then (afterA, false)
      else if variant == AsWritten then PressBAsWritten(afterA, primaryTool)
      else PressB(afterA, primaryTool);
    (afterB, changedA || changedB)
  }

  /** The screen after one frame with the given joypad reading. */
  function Frame(s: Screen, joypadState: Byte, variant: Variant): (t: Screen)
    requires ValidScreen(s)
    ensures ValidScreen(t)
    ensures forall k :: 0 <= k < |s.data| && k != CellIndex(s.cursorX, s.cursorY) ==> t.data[k] == s.data[k]
  {
    var tool := if Pressed(joypadState, J_SELECT) then Opposite(s.primaryTool) else s.primaryTool;
    var k := CellIndex(s.cursorX, s.cursorY);
    var (x, y) := MoveCursor(s.cursorX, s.cursorY, joypadState);
    Screen(s.data[k := Buttons(s.data[k], tool, joypadState, variant).0], x, y, tool)
  }

  /** The screen after a sequence of frames. */
  function Frames(s: Screen, joypadReadings: seq<Byte>, variant: Variant): (t: Screen)
    requires ValidScreen(s)
    ensures ValidScreen(t)
    decreases |joypadReadings|
  {
    if joypadReadings == [] then s else Frames(Frame(s, joypadReadings[0], variant), joypadReadings[1..], variant)
  }

  /** The screen `puzzle_loop` starts from: a cleared grid, the cursor at the
      top-left cell and the fill tool. */
  function InitialScreen(): (s: Screen)
    ensures ValidScreen(s)
  {
    Screen(seq(15 * 15, k => ERASE_TOOL), 0, 0, FILL_TOOL)
  }

  /** With the intended presses `tile_changed` is raised exactly when the
      cursor cell changes, even with A and B pressed together. */
  lemma TileChangedIffCellChanged(cell: Byte, primaryTool: Byte, joypadState: Byte)
    requires IsCellValue(cell) && IsTool(primaryTool)
    ensures Buttons(cell, primaryTool, joypadState, Intended).1
        <==> Buttons(cell, primaryTool, joypadState, Intended).0 != cell
  {
    var secondaryTool := Opposite(primaryTool);
    assert secondaryTool != primaryTool && IsTool(secondaryTool);
  }

  /** As written the same holds for A or B alone, but not for both: with the
      fill tool, A fills an empty cell and B, seeing a cell that is not the
      stamp, clears it again, so `tile_changed` is raised on an unchanged
      cell. */
  lemma AsWrittenTileChangedWithoutChange(cell: Byte, primaryTool: Byte, joypadState: Byte)
    requires IsCellValue(cell) && IsTool(primaryTool)
    ensures !(Pressed(joypadState, J_A) && Pressed(joypadState, J_B)) ==>
              (Buttons(cell, primaryTool, joypadState, AsWritten).1
               <==> Buttons(cell, primaryTool, joypadState, AsWritten).0 != cell)
    ensures Buttons(ERASE_TOOL, FILL_TOOL, J_A + J_B, AsWritten) == (ERASE_TOOL, true)
    ensures Buttons(ERASE_TOOL, FILL_TOOL, J_A + J_B, Intended) == (FILL_TOOL, true)
  {
    assert Pressed(J_A + J_B, J_A) && Pressed(J_A + J_B, J_B);
    var secondaryTool := Opposite(primaryTool);
    assert secondaryTool != primaryTool && IsTool(secondaryTool);
  }

  /** Without A and B the cursor cell is left alone. */
  lemma NoButtonKeepsCell(cell: Byte, primaryTool: Byte, joypadState: Byte, variant: Variant)
    requires !Pressed(joypadState, J_A) && !Pressed(joypadState, J_B)
    ensures Buttons(cell, primaryTool, joypadState, variant) == (cell, false)
  {
  }

  /** Without a direction the cursor stays. */
  lemma NoDirectionKeepsCursor(x: Byte, y: Byte, joypadState: Byte)
    requires !Pressed(joypadState, J_LEFT) && !Pressed(joypadState, J_RIGHT)
    requires !Pressed(joypadState, J_UP) && !Pressed(joypadState, J_DOWN)
    ensures MoveCursor(x, y, joypadState) == (x, y)
  {
  }

  /** A frame with no button down changes nothing. */
  lemma IdleFrame(s: Screen, variant: Variant)
    requires ValidScreen(s)
    ensures Frame(s, 0, variant) == s
  {
    assert !Pressed(0, J_A) && !Pressed(0, J_B) && !Pressed(0, J_SELECT);
    assert !Pressed(0, J_LEFT) && !Pressed(0, J_RIGHT) && !Pressed(0, J_UP) && !Pressed(0, J_DOWN);
    var k := CellIndex(s.cursorX, s.cursorY);
    NoButtonKeepsCell(s.data[k], s.primaryTool, 0, variant);
    NoDirectionKeepsCursor(s.cursorX, s.cursorY, 0);
    assert s.data[k := s.data[k]] == s.data;
  }

  /** With the intended presses, A held for two frames toggles the cursor
      cell twice with the primary tool: the screen is back where it was. As
      written that holds while the fill is the primary tool. */
  lemma HeldARestores(s: Screen)
    requires ValidScreen(s)
    ensures Frame(Frame(s, J_A, Intended), J_A, Intended) == s
    ensures s.primaryTool == FILL_TOOL ==> Frame(Frame(s, J_A, AsWritten), J_A, AsWritten) == s
  {
    var k := CellIndex(s.cursorX, s.cursorY);
    assert Pressed(J_A, J_A) && !Pressed(J_A, J_B) && !Pressed(J_A, J_SELECT);
    assert !Pressed(J_A, J_LEFT) && !Pressed(J_A, J_RIGHT) && !Pressed(J_A, J_UP) && !Pressed(J_A, J_DOWN);
    NoDirectionKeepsCursor(s.cursorX, s.cursorY, J_A);
    ApplyToolToggles(s.data[k], s.primaryTool);
    assert Frame(Frame(s, J_A, Intended), J_A, Intended).data == s.data;
    if s.primaryTool == FILL_TOOL {
      AsWrittenAgreement(s.data[k]);
      AsWrittenAgreement(PressA(s.data[k], FILL_TOOL).0);
      assert Frame(Frame(s, J_A, AsWritten), J_A, AsWritten).data == s.data;
    }
  }

  /** The same for B with the intended presses, with the secondary tool. */
  lemma HeldBRestores(s: Screen)
    requires ValidScreen(s)
    ensures Frame(Frame(s, J_B, Intended), J_B, Intended) == s
  {
    var k := CellIndex(s.cursorX, s.cursorY);
    assert Pressed(J_B, J_B) && !Pressed(J_B, J_A) && !Pressed(J_B, J_SELECT);
    assert !Pressed(J_B, J_LEFT) && !Pressed(J_B, J_RIGHT) && !Pressed(J_B, J_UP) && !Pressed(J_B, J_DOWN);
    NoDirectionKeepsCursor(s.cursorX, s.cursorY, J_B);
    ApplyToolToggles(s.data[k], Opposite(s.primaryTool));
    assert Frame(Frame(s, J_B, Intended), J_B, Intended).data == s.data;
  }

  /** SELECT held for two frames swaps the tool twice and touches no cell. */
  lemma HeldSelectRestores(s: Screen, variant: Variant)
    requires ValidScreen(s)
    ensures Frame(Frame(s, J_SELECT, variant), J_SELECT, variant) == s
  {
    var k := CellIndex(s.cursorX, s.cursorY);
    assert Pressed(J_SELECT, J_SELECT) && !Pressed(J_SELECT, J_A) && !Pressed(J_SELECT, J_B);
    assert !Pressed(J_SELECT, J_LEFT) && !Pressed(J_SELECT, J_RIGHT);
    assert !Pressed(J_SELECT, J_UP) && !Pressed(J_SELECT, J_DOWN);
    NoButtonKeepsCell(s.data[k], Opposite(s.primaryTool), J_SELECT, variant);
    NoButtonKeepsCell(s.data[k], s.primaryTool, J_SELECT, variant);
    NoDirectionKeepsCursor(s.cursorX, s.cursorY, J_SELECT);
    assert s.data[k := s.data[k]] == s.data;
    var t := Frame(s, J_SELECT, variant);
    assert t == Screen(s.data, s.cursorX, s.cursorY, Opposite(s.primaryTool));
    OppositeInvolution(s.primaryTool);
  }

  /** LEFT then RIGHT, or UP then DOWN, brings the cursor back, across the
      wrap-around edges too, and none of them touches the cells or the tool. */
  lemma MovesUndo(s: Screen, variant: Variant)
    requires ValidScreen(s)
    ensures Frame(Frame(s, J_LEFT, variant), J_RIGHT, variant) == s
    ensures Frame(Frame(s, J_UP, variant), J_DOWN, variant) == s
    ensures Frame(s, J_LEFT, variant).cursorX == (if s.cursorX == 0 then 14 else s.cursorX - 1)
    ensures Frame(s, J_DOWN, variant).cursorY == (if s.cursorY == 14 then 0 else s.cursorY + 1)
  {
    assert Pressed(J_LEFT, J_LEFT) && !Pressed(J_LEFT, J_RIGHT) && !Pressed(J_LEFT, J_UP) && !Pressed(J_LEFT, J_DOWN);
    assert !Pressed(J_LEFT, J_A) && !Pressed(J_LEFT, J_B) && !Pressed(J_LEFT, J_SELECT);
    assert Pressed(J_RIGHT, J_RIGHT) && !Pressed(J_RIGHT, J_LEFT) && !Pressed(J_RIGHT, J_UP) && !Pressed(J_RIGHT, J_DOWN);
    assert !Pressed(J_RIGHT, J_A) && !Pressed(J_RIGHT, J_B) && !Pressed(J_RIGHT, J_SELECT);
    assert Pressed(J_UP, J_UP) && !Pressed(J_UP, J_LEFT) && !Pressed(J_UP, J_RIGHT) && !Pressed(J_UP, J_DOWN);
    assert !Pressed(J_UP, J_A) && !Pressed(J_UP, J_B) && !Pressed(J_UP, J_SELECT);
    assert Pressed(J_DOWN, J_DOWN) && !Pressed(J_DOWN, J_LEFT) && !Pressed(J_DOWN, J_RIGHT) && !Pressed(J_DOWN, J_UP);
    assert !Pressed(J_DOWN, J_A) && !Pressed(J_DOWN, J_B) && !Pressed(J_DOWN, J_SELECT);
    CursorMovesInverse(s.cursorX);
    CursorMovesInverse(s.cursorY);
    var k := CellIndex(s.cursorX, s.cursorY);
    assert s.data[k := s.data[k]] == s.data;
  }

  // ----- screen and memory coordinates -----

  /** `puzzle_coordinates_to_screen_coordinates`: the top-left pixel of the
      cell's sprite, written through `uint8_t` out-pointers. */
  function PuzzleToScreen(x: Byte, y: Byte): (screen: (Byte, Byte))
    ensures x < 15 && y < 15 ==> screen == (58 + 6 * x, 50 + 6 * y)
  {
    (U8(PUZZLE_TILE_START_X + x * PUZZLE_TILE_SIZE), U8(PUZZLE_TILE_START_Y + y * PUZZLE_TILE_SIZE))
  }

  /** On the grid the sum never leaves `uint8_t`: cells sit 6 pixels apart
      from (58, 50) on, and distinct cells get distinct positions. */
  lemma ScreenCoordinatesOnGrid(x: Byte, y: Byte, x': Byte, y': Byte)
    requires x < 15 && y < 15 && x' < 15 && y' < 15
    ensures PuzzleToScreen(x, y) == (58 + 6 * x, 50 + 6 * y)
    ensures PuzzleToScreen(x, y) == PuzzleToScreen(x', y') ==> x == x' && y == y'
  {
  }

  /** `puzzle_coordinates_to_memory_address` as written: the int sum is
      truncated by the `uint8_t` return type. */
  function MemoryAddress(x: Byte, y: Byte): (address: Byte)
    ensures address == (128 * (y % 2) + 8 * x + 32) % 256
  {
    var r := 128 * (y % 2) + 8 * x + 32;
    assert y * 16 * 8 + x * 8 + OFFSET_FOR_CLUES == r + 256 * (y / 2);
    ModOffset(r, y / 2);
    U8(y * 16 * 8 + x * 8 + OFFSET_FOR_CLUES)
  }

  /** The address of the cell's tile as the comment at src/puzzle.c:136 lays
      the tiles out (16 tiles of 8x8 pixels to a row), without truncation. */
  function TileAddress(x: Byte, y: Byte): (address: nat)
    ensures MemoryAddress(x, y) == address % 256
    ensures address % 8 == 0
  {
    y * 16 * 8 + x * 8 + OFFSET_FOR_CLUES
  }

  /** The truncation keeps only the parity of the row: rows y and y + 2 share
      their addresses, so (0, 0) and (0, 2) both land on 32. */
  lemma MemoryAddressKeepsRowParity(x: Byte, y: Byte)
    requires y + 2 < 256
    ensures MemoryAddress(x, y) == (128 * (y % 2) + 8 * x + 32) % 256
    ensures MemoryAddress(x, y + 2) == MemoryAddress(x, y)
    ensures MemoryAddress(0, 0) == MemoryAddress(0, 2) == 32
  {
  }

  /** Adding a multiple of 256 does not change a value modulo 256. */
  lemma {:induction false} ModOffset(r: int, q: nat)
    ensures (r + 256 * q) % 256 == r % 256
  {
    if q > 0 {
      ModOffset(r, q - 1);
      assert r + 256 * q == (r + 256 * (q - 1)) + 256;
    }
  }

  /** The untruncated addresses of the 225 cells are pairwise distinct. */
  lemma TileAddressInjective(x: Byte, y: Byte, x': Byte, y': Byte)
    requires x < 15 && y < 15 && x' < 15 && y' < 15
    requires TileAddress(x, y) == TileAddress(x', y')
    ensures x == x' && y == y'
  {
  }

  // ----- the arrays -----

  /** `load_puzzle`: the sample copied into the row-major solution array. */
  method LoadPuzzle(selectedPuzzle: Byte, puzzleSolution: array<Byte>)
    requires puzzleSolution.Length == 15 * 15
    modifies puzzleSolution
    ensures forall i, j :: 0 <= i < 15 && 0 <= j < 15 ==> puzzleSolution[i * 15 + j] == SAMPLE_PUZZLE_DATA[i][j]
  {
    SampleShape();
    for i := 0 to 15
      invariant forall i', j :: 0 <= i' < i && 0 <= j < 15 ==> puzzleSolution[i' * 15 + j] == SAMPLE_PUZZLE_DATA[i'][j]
    {
      for j := 0 to 15
        invariant forall i', j' :: 0 <= i' < i && 0 <= j' < 15 ==> puzzleSolution[i' * 15 + j'] == SAMPLE_PUZZLE_DATA[i'][j']
        invariant forall j' :: 0 <= j' < j ==> puzzleSolution[i * 15 + j'] == SAMPLE_PUZZLE_DATA[i][j']
      {
        puzzleSolution[i * 15 + j] := SAMPLE_PUZZLE_DATA[i][j];
      }
    }
  }

  /** `init_puzzle`: the solution loaded and every player cell cleared. */
  method InitPuzzle(selectedPuzzle: Byte, puzzleSolution: array<Byte>, puzzleData: array<Byte>)
    requires puzzleSolution.Length == 15 * 15 && puzzleData.Length == 15 * 15
    requires puzzleSolution != puzzleData
    modifies puzzleSolution, puzzleData
    ensures forall i, j :: 0 <= i < 15 && 0 <= j < 15 ==> puzzleSolution[i * 15 + j] == SAMPLE_PUZZLE_DATA[i][j]
    ensures forall k :: 0 <= k < 15 * 15 ==> puzzleData[k] == ERASE_TOOL
  {
    LoadPuzzle(selectedPuzzle, puzzleSolution);
    for i := 0 to 15
      modifies puzzleData
      invariant forall k :: 0 <= k < i * 15 ==> puzzleData[k] == ERASE_TOOL
    {
      for j := 0 to 15
        modifies puzzleData
        invariant forall k :: 0 <= k < i * 15 + j ==> puzzleData[k] == ERASE_TOOL
      {
        puzzleData[i * 15 + j] := 0;
      }
    }
  }

  /** One pass of the `puzzle_loop` body, as written, on the player array and
      the loop's variables; the flags are the source's `tile_changed` and
      `moved`. */
  method PuzzleLoopIteration(puzzleData: array<Byte>, cursorX: Byte, cursorY: Byte, primaryTool: Byte,
                             joypadState: Byte)
    returns (newCursorX: Byte, newCursorY: Byte, newPrimaryTool: Byte, tileChanged: bool, moved: bool)
    requires ValidScreen(Screen(puzzleData[..], cursorX, cursorY, primaryTool))
    modifies puzzleData
    ensures Screen(puzzleData[..], newCursorX, newCursorY, newPrimaryTool)
         == Frame(Screen(old(puzzleData[..]), cursorX, cursorY, primaryTool), joypadState, AsWritten)
    ensures tileChanged == Buttons(old(puzzleData[cursorY * 15 + cursorX]), newPrimaryTool, joypadState, AsWritten).1
    ensures moved <==> (Pressed(joypadState, J_LEFT) || Pressed(joypadState, J_RIGHT)
                        || Pressed(joypadState, J_UP) || Pressed(joypadState, J_DOWN))
  {
    newPrimaryTool := primaryTool;
    if Pressed(joypadState, J_SELECT) {
      newPrimaryTool := Opposite(newPrimaryTool);
    }
    tileChanged := PressButtons(puzzleData, cursorY * 15 + cursorX, newPrimaryTool, joypadState);
    newCursorX, newCursorY, moved := MoveCursorStep(cursorX, cursorY, joypadState);
  }

  /** The A and B part of the loop body, as written, on the cell at `index`. */
  method PressButtons(puzzleData: array<Byte>, index: nat, primaryTool: Byte, joypadState: Byte)
    returns (tileChanged: bool)
    requires index < puzzleData.Length
    modifies puzzleData
    ensures puzzleData[..]
         == old(puzzleData[..])[index := Buttons(old(puzzleData[index]), primaryTool, joypadState, AsWritten).0]
    ensures tileChanged == Buttons(old(puzzleData[index]), primaryTool, joypadState, AsWritten).1
  {
    tileChanged := false;
    if Pressed(joypadState, J_A) {
      if puzzleData[index] == 0 {
        puzzleData[index] := primaryTool;
        tileChanged := true;
      } else if puzzleData[index] == 1 {
        puzzleData[index] := 0;
        tileChanged := true;
      }
    }
    if Pressed(joypadState, J_B) {
      var secondaryTool := Opposite(primaryTool);
      if puzzleData[index] == 0 {
        puzzleData[index] := secondaryTool;
        tileChanged := true;
      } else if puzzleData[index] != secondaryTool {
        puzzleData[index] := 0;
        tileChanged := true;
      }
    }
  }

  /** The cursor part of the loop body. */
  method MoveCursorStep(cursorX: Byte, cursorY: Byte, joypadState: Byte)
    returns (newCursorX: Byte, newCursorY: Byte, moved: bool)
    ensures (newCursorX, newCursorY) == MoveCursor(cursorX, cursorY, joypadState)
    ensures moved <==> (Pressed(joypadState, J_LEFT) || Pressed(joypadState, J_RIGHT)
                        || Pressed(joypadState, J_UP) || Pressed(joypadState, J_DOWN))
  {
    moved := false;
    newCursorX, newCursorY := cursorX, cursorY;
    if Pressed(joypadState, J_LEFT) {
      if newCursorX == 0 {
        newCursorX := 14;
      } else {
        newCursorX := newCursorX - 1;
      }
      moved := true;
    }
    if Pressed(joypadState, J_RIGHT) {
      if newCursorX == 14 {
        newCursorX := 0;
      } else {
        newCursorX := U8(newCursorX + 1);
      }
      moved := true;
    }
    if Pressed(joypadState, J_UP) {
      if newCursorY == 0 {
        newCursorY := 14;
      } else {
        newCursorY := newCursorY - 1;
      }
      moved := true;
    }
    if Pressed(joypadState, J_DOWN) {
      if newCursorY == 14 {
        newCursorY := 0;
      } else {
        newCursorY := U8(newCursorY + 1);
      }
      moved := true;
    }
  }

  /** `puzzle_loop` over a finite prefix of joypad readings: `init_puzzle`,
      then one frame per reading, as written. */
  method PuzzleLoop(selectedPuzzle: Byte, joypadReadings: seq<Byte>)
    returns (puzzleSolution: array<Byte>, puzzleData: array<Byte>, cursorX: Byte, cursorY: Byte, primaryTool: Byte)
    ensures fresh(puzzleSolution) && fresh(puzzleData)
    ensures puzzleSolution.Length == 15 * 15
    ensures forall i, j :: 0 <= i < 15 && 0 <= j < 15 ==> puzzleSolution[i * 15 + j] == SAMPLE_PUZZLE_DATA[i][j]
    ensures Screen(puzzleData[..], cursorX, cursorY, primaryTool) == Frames(InitialScreen(), joypadReadings, AsWritten)
  {
    puzzleSolution := new Byte[15 * 15];
    puzzleData := new Byte[15 * 15];
    InitPuzzle(selectedPuzzle, puzzleSolution, puzzleData);
    cursorX, cursorY, primaryTool := 0, 0, FILL_TOOL;
    assert puzzleData[..] == InitialScreen().data;
    for i := 0 to |joypadReadings|
      modifies puzzleData
      invariant ValidScreen(Screen(puzzleData[..], cursorX, cursorY, primaryTool))
      invariant Frames(Screen(puzzleData[..], cursorX, cursorY, primaryTool), joypadReadings[i..], AsWritten)
             == Frames(InitialScreen(), joypadReadings, AsWritten)
    {
      ghost var before := Screen(puzzleData[..], cursorX, cursorY, primaryTool);
      assert joypadReadings[i..][1..] == joypadReadings[i + 1..];
      var tileChanged, moved;
      cursorX, cursorY, primaryTool, tileChanged, moved :=
        PuzzleLoopIteration(puzzleData, cursorX, cursorY, primaryTool, joypadReadings[i]);
      assert Screen(puzzleData[..], cursorX, cursorY, primaryTool) == Frame(before, joypadReadings[i], AsWritten);
    }
  }
}
