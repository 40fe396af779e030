/** What the Game Boy screens of src/puzzle.c and src/menu.c share: the
    unsigned 8-bit arithmetic of `uint8_t` and the joypad bit masks. The masks
    are those of the GBDK library (gb/gb.h, which is not part of this model). */
module GameBoy {
  /** A `uint8_t` value. */
  type Byte = x: int | 0 <= x < 256

  /** Conversion of an int result back to `uint8_t`: the value modulo 256. */
  function U8(x: int): (b: Byte)
    ensures 0 <= x < 256 ==> b == x
    ensures (b - x) % 256 == 0
  {
    x % 256
  }

  const J_RIGHT: Byte := 0x01
  const J_LEFT: Byte := 0x02
  const J_UP: Byte := 0x04
  const J_DOWN: Byte := 0x08
  const J_A: Byte := 0x10
  const J_B: Byte := 0x20
  const J_SELECT: Byte := 0x40
  const J_START: Byte := 0x80

  /** Where a line of the source does something other than its comments say,
      the model can follow the line as written or the behaviour intended. */
  datatype Variant = AsWritten | Intended

  /** `joypad_state & button`, read as a condition. */
  predicate Pressed(joypadState: Byte, button: Byte)
  {
    (joypadState as bv8) & (button as bv8) != 0
  }
}
