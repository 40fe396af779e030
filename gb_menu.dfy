/** The puzzle-selection menu of src/menu.c: a cursor on a grid of 4 columns
    and 7 rows of options, moved one step per change of the joypad reading and
    wrapped at the edges by `wrap_cursor`; A picks the option under it. */
module GbMenu {
  import opened GameBoy
  import opened Nonogram

  const MIN_CURSOR_X: Byte := 16
  const CURSOR_X_STEP: Byte := 32
  const MAX_CURSOR_X: Byte := MIN_CURSOR_X + CURSOR_X_STEP * 3
  const MIN_CURSOR_Y: Byte := 20
  const CURSOR_Y_STEP: Byte := 16
  const MAX_CURSOR_Y: Byte := MIN_CURSOR_Y + CURSOR_Y_STEP * 6

  /** `wrap_cursor`: a value below the range goes to its top, one above it to
      its bottom, one inside it stays. */
  function WrapCursor(value: int, min: Byte, max: Byte): (r: int)
    ensures min <= max ==> min <= r <= max
    ensures min <= value <= max ==> r == value
    ensures value < min ==> r == max
    ensures min <= max < value ==> r == min
  {
    if value < min then max
    else if value > max then min
    else value
  }

  /** The option numbers of the 7 rows and 4 columns of the menu. */
  const MENU_OPTIONS: seq<seq<Byte>> := [
    [0, 7, 14, 21],
    [1, 8, 15, 22],
    [2, 9, 16, 23],
    [3, 10, 17, 24],
    [4, 11, 18, 25],
    [5, 12, 19, 26],
    [6, 13, 20, 27]]

  /** The table numbers its cells column by column: row r of column c holds
      r + 7c, so the 28 cells number 0..27 without repetition. */
  lemma MenuOptionsTable()
    ensures |MENU_OPTIONS| == 7
    ensures forall r :: 0 <= r < 7 ==> |MENU_OPTIONS[r]| == 4
    ensures forall r, c :: 0 <= r < 7 && 0 <= c < 4 ==> MENU_OPTIONS[r][c] == r + 7 * c
  {
  }

  /** The cursor positions the menu draws: four columns, seven rows. */
  predicate ValidCursor(x: int, y: int)
  {
    ValidX(x) && ValidY(y)
  }

  /** The four columns: from the minimum to the maximum, a step apart. */
  predicate ValidX(x: int)
  {
    MIN_CURSOR_X <= x <= MAX_CURSOR_X && (x - MIN_CURSOR_X) % CURSOR_X_STEP == 0
  }

  /** The seven rows, likewise. */
  predicate ValidY(y: int)
  {
    MIN_CURSOR_Y <= y <= MAX_CURSOR_Y && (y - MIN_CURSOR_Y) % CURSOR_Y_STEP == 0
  }

  /** `menu_options[(y - 20) / 16][(x - 16) / 32]`, the option A returns. */
  function SelectedOption(x: Byte, y: Byte): (option: Byte)
    requires ValidCursor(x, y)
    ensures option < 28
    ensures option == (y - MIN_CURSOR_Y) / CURSOR_Y_STEP + 7 * ((x - MIN_CURSOR_X) / CURSOR_X_STEP)
  {
    MenuOptionsTable();
    MENU_OPTIONS[(y - MIN_CURSOR_Y) / CURSOR_Y_STEP][(x - MIN_CURSOR_X) / CURSOR_X_STEP]
  }

  /** Each of the 28 options is the choice of exactly one cursor position. */
  lemma SelectionOneToOne(x: Byte, y: Byte, x': Byte, y': Byte, n: nat)
    requires ValidCursor(x, y) && ValidCursor(x', y')
    requires n < 28
    ensures SelectedOption(x, y) == SelectedOption(x', y') ==> x == x' && y == y'
    ensures SelectedOption(16 + 32 * (n / 7), 20 + 16 * (n % 7)) == n
  {
    CursorParts(x, y);
    CursorParts(x', y');
    var c, r := (x - 16) / 32, (y - 20) / 16;
    var c', r' := (x' - 16) / 32, (y' - 20) / 16;
    if SelectedOption(x, y) == SelectedOption(x', y') {
      assert r + 7 * c == r' + 7 * c';
      assert c == c' by {
        assert c == 0 || c == 1 || c == 2 || c == 3;
        assert c' == 0 || c' == 1 || c' == 2 || c' == 3;
      }
    }
    var cn, rn := n / 7, n % 7;
    assert cn == 0 || cn == 1 || cn == 2 || cn == 3;
    assert ValidCursor(16 + 32 * cn, 20 + 16 * rn);
    assert (16 + 32 * cn - 16) / 32 == cn;
    assert (20 + 16 * rn - 20) / 16 == rn;
  }

  /** A valid cursor is the position of its column index and row index. */
  lemma CursorParts(x: Byte, y: Byte)
    requires ValidCursor(x, y)
    ensures (x - 16) / 32 < 4 && x == 16 + 32 * ((x - 16) / 32)
    ensures (y - 20) / 16 < 7 && y == 20 + 16 * ((y - 20) / 16)
  {
  }

  // ----- one axis -----

  /** One move along an axis: the step added in int, then wrapped. */
  function StepAxis(value: Byte, delta: int, min: Byte, max: Byte): (r: Byte)
    requires min <= max
    ensures min <= r <= max
    ensures min <= value + delta <= max ==> r == value + delta
    ensures value + delta < min ==> r == max
    ensures value + delta > max ==> r == min
  {
    WrapCursor(value + delta, min, max)
  }

  /** The same move as written: `cursor -= step` and `cursor += step` are
      `uint8_t` operations, so the sum is taken modulo 256 before the wrap. */
  function StepAxisAsWritten(value: Byte, delta: int, min: Byte, max: Byte): (r: Byte)
    requires min <= max
    ensures min <= r <= max
    ensures 0 <= value + delta < 256 ==> r == StepAxis(value, delta, min, max)
    ensures value + delta < 0 && max < value + delta + 256 ==> r == min
  {
    WrapCursor(U8(value + delta), min, max)
  }

  /** The step a move takes in the given variant. */
  function Step(value: Byte, delta: int, min: Byte, max: Byte, variant: Variant): (r: Byte)
    requires min <= max
    ensures min <= r <= max
  {
    if variant == AsWritten then StepAxisAsWritten(value, delta, min, max) else StepAxis(value, delta, min, max)
  }

  /** Moving left and right undo each other on every column, wrapping from
      the last column to the first and back. */
  lemma HorizontalMovesInverse(x: Byte)
    requires ValidX(x)
    ensures ValidX(StepAxis(x, -32, 16, 112)) && ValidX(StepAxis(x, 32, 16, 112))
    ensures StepAxis(StepAxis(x, -32, 16, 112), 32, 16, 112) == x
    ensures StepAxis(StepAxis(x, 32, 16, 112), -32, 16, 112) == x
    ensures StepAxis(16, -32, 16, 112) == 112 && StepAxis(112, 32, 16, 112) == 16
  {
  }

  /** Moving up and down undo each other on every row, wrapping from the top
      row to the bottom and back. */
  lemma VerticalMovesInverse(y: Byte)
    requires ValidY(y)
    ensures ValidY(StepAxis(y, -16, 20, 116)) && ValidY(StepAxis(y, 16, 20, 116))
    ensures StepAxis(StepAxis(y, -16, 20, 116), 16, 20, 116) == y
    ensures StepAxis(StepAxis(y, 16, 20, 116), -16, 20, 116) == y
    ensures StepAxis(20, -16, 20, 116) == 116 && StepAxis(116, 16, 20, 116) == 20
  {
  }

  /** As written, LEFT on the first column computes 16 - 32 in `uint8_t`,
      which is 240; that is above the range, so the wrap sends the cursor
      back to 16 instead of round to 112. Every other move of either axis
      agrees with the move computed in int. */
  lemma AsWrittenLeftStuck(x: Byte, y: Byte, dx: int, dy: int)
    requires ValidX(x) && ValidY(y)
    requires (dx == -32 || dx == 0 || dx == 32) && (dy == -16 || dy == 0 || dy == 16)
    ensures U8(16 - 32) == 240
    ensures StepAxisAsWritten(16, -32, 16, 112) == 16 != StepAxis(16, -32, 16, 112)
    ensures (x, dx) != (16, -32) ==> StepAxisAsWritten(x, dx, 16, 112) == StepAxis(x, dx, 16, 112)
    ensures StepAxisAsWritten(y, dy, 20, 116) == StepAxis(y, dy, 20, 116)
  {
  }

  // ----- the loop -----

  /** The variables `menu_loop` carries from frame to frame. */
  datatype MenuState = MenuState(cursorX: Byte, cursorY: Byte, lastJoypadState: Byte)

  predicate ValidMenu(s: MenuState)
  {
    ValidCursor(s.cursorX, s.cursorY)
  }

  /** The one action a new joypad reading triggers, by priority. */
  datatype Action = Select | Up | Down | Left | Right | Idle

  function ActionOf(joypadState: Byte): (a: Action)
    ensures a == Select <==> Pressed(joypadState, J_A)
    ensures a == Up <==> !Pressed(joypadState, J_A) && Pressed(joypadState, J_UP)
    ensures a == Down <==> !Pressed(joypadState, J_A) && !Pressed(joypadState, J_UP) && Pressed(joypadState, J_DOWN)
    ensures a == Left <==> !Pressed(joypadState, J_A) && !Pressed(joypadState, J_UP) && !Pressed(joypadState, J_DOWN)
                           && Pressed(joypadState, J_LEFT)
    ensures a == Idle <==> !Pressed(joypadState, J_A) && !Pressed(joypadState, J_UP) && !Pressed(joypadState, J_DOWN)
                           && !Pressed(joypadState, J_LEFT) && !Pressed(joypadState, J_RIGHT)
  {
    if Pressed(joypadState, J_A) then Select
    else if Pressed(joypadState, J_UP) then Up
    else if Pressed(joypadState, J_DOWN) then Down
    else if Pressed(joypadState, J_LEFT) then Left
    else if Pressed(joypadState, J_RIGHT) then Right
    else Idle
  }

  /** The cursor after a move action (Select is not one), both axes wrapped. */
  function Move(x: Byte, y: Byte, action: Action, variant: Variant): (r: (Byte, Byte))
    requires ValidCursor(x, y) && action != Select
    ensures ValidCursor(r.0, r.1)
  {
    var dx := match action case Left => -(CURSOR_X_STEP as int) case Right => CURSOR_X_STEP as int case _ => 0;
    var dy := match action case Up => -(CURSOR_Y_STEP as int) case Down => CURSOR_Y_STEP as int case _ => 0;
    StepKeepsColumn(x, dx, variant);
    StepKeepsRow(y, dy, variant);
    (Step(x, dx, MIN_CURSOR_X, MAX_CURSOR_X, variant), Step(y, dy, MIN_CURSOR_Y, MAX_CURSOR_Y, variant))
  }

  /** A step of none or one column, in either variant, lands on a column. */
  lemma StepKeepsColumn(x: Byte, dx: int, variant: Variant)
    requires ValidX(x) && (dx == -32 || dx == 0 || dx == 32)
    ensures ValidX(Step(x, dx, MIN_CURSOR_X, MAX_CURSOR_X, variant))
  {
    CursorParts(x, MIN_CURSOR_Y);
  }

  /** A step of none or one row, in either variant, lands on a row. */
  lemma StepKeepsRow(y: Byte, dy: int, variant: Variant)
    requires ValidY(y) && (dy == -16 || dy == 0 || dy == 16)
    ensures ValidY(Step(y, dy, MIN_CURSOR_Y, MAX_CURSOR_Y, variant))
  {
    CursorParts(MIN_CURSOR_X, y);
  }

  /** One frame of `menu_loop`: nothing happens unless the reading differs
      from the last one; then A returns the option under the cursor (the loop
      ends there), and otherwise at most one move is made and both axes are
      wrapped. */
  function MenuFrame(s: MenuState, joypadState: Byte, variant: Variant): (r: (MenuState, Option<Byte>))
    requires ValidMenu(s)
    ensures ValidMenu(r.0)
    ensures r.1.Some? ==> r.1.value < 28
  {
    if joypadState == s.lastJoypadState then (s, None)
    else
      var action := ActionOf(joypadState);
      if action == Select then (s, Some(SelectedOption(s.cursorX, s.cursorY)))
      else
        var (x, y) := Move(s.cursorX, s.cursorY, action, variant);
        (MenuState(x, y, joypadState), None)
  }

  /** The option `menu_loop` returns on a finite prefix of joypad readings,
      or None if A has not been pressed anew within it. */
  function MenuRun(s: MenuState, joypadReadings: seq<Byte>, variant: Variant): (selected: Option<Byte>)
    requires ValidMenu(s)
    ensures selected.Some? ==> selected.value < 28
    decreases |joypadReadings|
  {
    if joypadReadings == [] then None
    else
      var (t, selected) := MenuFrame(s, joypadReadings[0], variant);
      if selected.Some? then selected else MenuRun(t, joypadReadings[1..], variant)
  }

  /** The menu's start: top-left cursor, no button recorded. */
  function InitialMenu(): (s: MenuState)
    ensures ValidMenu(s)
  {
    MenuState(MIN_CURSOR_X, MIN_CURSOR_Y, 0)
  }

  /** Input is edge-triggered: a reading equal to the last one does nothing,
      so a button held down acts once. */
  lemma HeldButtonActsOnce(s: MenuState, joypadState: Byte, variant: Variant)
    requires ValidMenu(s)
    ensures MenuFrame(s, s.lastJoypadState, variant) == (s, None)
    ensures MenuFrame(s, joypadState, variant).1.None? ==>
              MenuFrame(s, joypadState, variant).0.lastJoypadState == joypadState
    ensures MenuFrame(s, joypadState, variant).1.None? ==>
              MenuFrame(MenuFrame(s, joypadState, variant).0, joypadState, variant)
              == (MenuFrame(s, joypadState, variant).0, None)
  {
  }

  /** A new reading with A down selects, whatever else is down; otherwise at
      most one of the two coordinates changes. */
  lemma OneActionPerChange(s: MenuState, joypadState: Byte, variant: Variant)
    requires ValidMenu(s)
    ensures joypadState != s.lastJoypadState && Pressed(joypadState, J_A) ==>
              MenuFrame(s, joypadState, variant).1 == Some(SelectedOption(s.cursorX, s.cursorY))
    ensures MenuFrame(s, joypadState, variant).0.cursorX == s.cursorX
         || MenuFrame(s, joypadState, variant).0.cursorY == s.cursorY
    ensures !Pressed(joypadState, J_A) ==> MenuFrame(s, joypadState, variant).1.None?
  {
    if joypadState != s.lastJoypadState {
      var action := ActionOf(joypadState);
      assert action == Select <==> Pressed(joypadState, J_A);
      if action != Select {
        var (x, y) := Move(s.cursorX, s.cursorY, action, variant);
        assert x == s.cursorX || y == s.cursorY;
      }
    }
  }

  /** From the start, DOWN, a release and A pick option 1; UP, a release and
      A pick option 6, the bottom of the first column; RIGHT held over two
      frames and A pick option 7. These agree as written and as intended. */
  lemma MenuRunExamples(variant: Variant)
    ensures MenuRun(InitialMenu(), [J_DOWN, 0, J_A], variant) == Some(1)
    ensures MenuRun(InitialMenu(), [J_UP, 0, J_A], variant) == Some(6)
    ensures MenuRun(InitialMenu(), [J_RIGHT, J_RIGHT, J_A], variant) == Some(7)
  {
    assert ActionOf(J_DOWN) == Down && ActionOf(J_UP) == Up && ActionOf(J_RIGHT) == Right;
    assert ActionOf(0) == Idle && ActionOf(J_A) == Select;
    var s1 := MenuState(16, 36, J_DOWN);
    var t1 := MenuState(16, 36, 0);
    assert MenuFrame(InitialMenu(), J_DOWN, variant) == (s1, None);
    assert MenuFrame(s1, 0, variant) == (t1, None);
    assert MenuFrame(t1, J_A, variant) == (t1, Some(1));
    assert MenuRun(t1, [J_A], variant) == Some(1);
    assert [J_DOWN, 0, J_A][1..] == [0, J_A] && [0, J_A][1..] == [J_A];
    assert MenuRun(s1, [0, J_A], variant) == Some(1);
    var s2 := MenuState(16, 116, J_UP);
    var t2 := MenuState(16, 116, 0);
    assert MenuFrame(InitialMenu(), J_UP, variant) == (s2, None);
    assert MenuFrame(s2, 0, variant) == (t2, None);
    assert MenuFrame(t2, J_A, variant) == (t2, Some(6));
    assert MenuRun(t2, [J_A], variant) == Some(6);
    assert [J_UP, 0, J_A][1..] == [0, J_A];
    assert MenuRun(s2, [0, J_A], variant) == Some(6);
    var s3 := MenuState(48, 20, J_RIGHT);
    assert MenuFrame(InitialMenu(), J_RIGHT, variant) == (s3, None);
    assert MenuFrame(s3, J_RIGHT, variant) == (s3, None);
    assert MenuFrame(s3, J_A, variant) == (s3, Some(7));
    assert MenuRun(s3, [J_A], variant) == Some(7);
    assert [J_RIGHT, J_RIGHT, J_A][1..] == [J_RIGHT, J_A] && [J_RIGHT, J_A][1..] == [J_A];
    assert MenuRun(s3, [J_RIGHT, J_A], variant) == Some(7);
  }

  /** LEFT from the start, a release and A: as written the cursor stays on
      the first column and option 0 is picked, where the wrap intends the
      last column and option 21. */
  lemma AsWrittenLeftFromStart()
    ensures MenuRun(InitialMenu(), [J_LEFT, 0, J_A], AsWritten) == Some(0)
    ensures MenuRun(InitialMenu(), [J_LEFT, 0, J_A], Intended) == Some(21)
  {
    assert ActionOf(J_LEFT) == Left && ActionOf(0) == Idle && ActionOf(J_A) == Select;
    assert [J_LEFT, 0, J_A][1..] == [0, J_A] && [0, J_A][1..] == [J_A];
    var w := MenuState(16, 20, J_LEFT);
    var w' := MenuState(16, 20, 0);
    assert MenuFrame(InitialMenu(), J_LEFT, AsWritten) == (w, None);
    assert MenuFrame(w, 0, AsWritten) == (w', None);
    assert MenuFrame(w', J_A, AsWritten) == (w', Some(0));
    assert MenuRun(w, [0, J_A], AsWritten) == Some(0);
    var c := MenuState(112, 20, J_LEFT);
    var c' := MenuState(112, 20, 0);
    assert MenuFrame(InitialMenu(), J_LEFT, Intended) == (c, None);
    assert MenuFrame(c, 0, Intended) == (c', None);
    assert MenuFrame(c', J_A, Intended) == (c', Some(21));
    assert MenuRun(c, [0, J_A], Intended) == Some(21);
  }

  /** The move part of the loop body for a new reading without A: at most
      one `uint8_t` step, then both axes wrapped. */
  method MoveStep(cursorX: Byte, cursorY: Byte, joypadState: Byte) returns (newCursorX: Byte, newCursorY: Byte)
    requires ValidCursor(cursorX, cursorY) && !Pressed(joypadState, J_A)
    ensures (newCursorX, newCursorY) == Move(cursorX, cursorY, ActionOf(joypadState), AsWritten)
  {
    newCursorX, newCursorY := cursorX, cursorY;
    if Pressed(joypadState, J_UP) {
      newCursorY := U8(newCursorY - CURSOR_Y_STEP);
    } else if Pressed(joypadState, J_DOWN) {
      newCursorY := U8(newCursorY + CURSOR_Y_STEP);
    } else if Pressed(joypadState, J_LEFT) {
      newCursorX := U8(newCursorX - CURSOR_X_STEP);
    } else if Pressed(joypadState, J_RIGHT) {
      newCursorX := U8(newCursorX + CURSOR_X_STEP);
    }
    newCursorX := WrapCursor(newCursorX, MIN_CURSOR_X, MAX_CURSOR_X);
    newCursorY := WrapCursor(newCursorY, MIN_CURSOR_Y, MAX_CURSOR_Y);
  }

  /** `menu_loop` over a finite prefix of joypad readings, with its `uint8_t`
      arithmetic as written: the option chosen with A, or None if the readings
      run out first. */
  method MenuLoop(joypadReadings: seq<Byte>) returns (selected: Option<Byte>)
    ensures selected == MenuRun(InitialMenu(), joypadReadings, AsWritten)
  {
    var cursorY: Byte := MIN_CURSOR_Y;
    var cursorX: Byte := MIN_CURSOR_X;
    var lastJoypadState: Byte := 0;
    var i := 0;
    while i < |joypadReadings|
      invariant 0 <= i <= |joypadReadings|
      invariant ValidCursor(cursorX, cursorY)
      invariant MenuRun(MenuState(cursorX, cursorY, lastJoypadState), joypadReadings[i..], AsWritten)
             == MenuRun(InitialMenu(), joypadReadings, AsWritten)
    {
      ghost var before := MenuState(cursorX, cursorY, lastJoypadState);
      assert joypadReadings[i..][1..] == joypadReadings[i + 1..];
      var joypadState := joypadReadings[i];
      if joypadState != lastJoypadState {
        if Pressed(joypadState, J_A) {
          var selectedOptionY := (cursorY - MIN_CURSOR_Y) / CURSOR_Y_STEP;
          var selectedOptionX := (cursorX - MIN_CURSOR_X) / CURSOR_X_STEP;
          MenuOptionsTable();
          CursorParts(cursorX, cursorY);
          assert MenuFrame(before, joypadState, AsWritten) == (before, Some(SelectedOption(cursorX, cursorY)));
          return Some(MENU_OPTIONS[selectedOptionY][selectedOptionX]);
        }
        cursorX, cursorY := MoveStep(cursorX, cursorY, joypadState);
      }
      lastJoypadState := joypadState;
      assert MenuFrame(before, joypadState, AsWritten) == (MenuState(cursorX, cursorY, lastJoypadState), None);
      i := i + 1;
    }
    return None;
  }
}
