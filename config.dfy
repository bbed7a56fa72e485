/**
 * Board constants of the 5x5 key matrix with 33 LEDs, and the column
 * decoding that turns the GPIO port B reading into consecutive key bits.
 */
module Config {

  const ROWS_NUM: nat := 5
  const COLS_NUM: nat := 5
  const LAYERS_NUM: nat := 3

  /** Rows are driven on PA0-PA4. */
  const ROWS_BV: bv16 := 0x1f
  /** Columns are read on PB0-PB2 and PB6-PB7. */
  const COLS_BV: bv16 := 0xc7

  const RGB_KEYS_NUM: nat := COLS_NUM * ROWS_NUM
  const RGB_BACKLIGHT_NUM: nat := 8
  const RGB_ALL_NUM: nat := RGB_KEYS_NUM + RGB_BACKLIGHT_NUM
  const RGB_BACKLIGHT_OFFSET: nat := RGB_KEYS_NUM

  /** Size of the serial input buffer, also the macro phrase buffer. */
  const SERIAL_BUF_SIZEIN: nat := 160

  /** Bit k of x, as 0 or 1. */
  function Bit(x: bv16, k: nat): bv16
    requires k < 16
  {
    (x >> k) & 1
  }

  /** `COLS_DECODE`: GPIO bits 0-2 stay in place, bits 6-7 move down to bits 3-4. */
  function ColsDecode(x: bv16): (r: bv16)
    ensures r < 32
    ensures forall k: nat :: k < 3 ==> Bit(r, k) == Bit(x, k)
    ensures forall k: nat :: 3 <= k < 5 ==> Bit(r, k) == Bit(x, k + 3)
  {
    ((x >> 3) & 0x18) | (x & 0x7)
  }

  /** The wiring in the other direction: where key column bit k is found on the port. */
  function ColsEncode(y: bv16): (x: bv16)
  {
    ((y & 0x18) << 3) | (y & 0x7)
  }

  /** Every column reading masked with COLS_BV decodes to a distinct value, and all of 0..31 occur. */
  lemma ColsDecodeBijective(x: bv16, y: bv16)
    ensures x & !COLS_BV == 0 ==> ColsEncode(ColsDecode(x)) == x
    ensures y < 32 ==> ColsDecode(ColsEncode(y)) == y && ColsEncode(y) & !COLS_BV == 0
  {
  }

  /** Number of set bits among the lowest n bits of x. */
  function PopCount(x: bv16, n: nat): (k: nat)
    requires n <= 16
    ensures k <= n
  {
    if n == 0 then 0
    else PopCount(x, n - 1) + (if Bit(x, n - 1) == 1 then 1 else 0)
  }

  /** The row and column masks select exactly ROWS_NUM and COLS_NUM port pins. */
  lemma MasksMatchMatrixSize()
    ensures PopCount(ROWS_BV, 16) == ROWS_NUM
    ensures PopCount(COLS_BV, 16) == COLS_NUM
  {
    assert PopCount(0x1f, 5) == 5;
    assert PopCount(0x1f, 10) == 5;
    assert PopCount(0x1f, 16) == 5;
    assert PopCount(0xc7, 5) == 3;
    assert PopCount(0xc7, 10) == 5;
    assert PopCount(0xc7, 16) == 5;
  }

  /** LED indices 0..24 belong to keys, 25..32 to the backlight strip. */
  predicate IsBacklightLed(id: nat)
  {
    RGB_BACKLIGHT_OFFSET <= id < RGB_ALL_NUM
  }

  lemma LedIndexSpace()
    ensures RGB_ALL_NUM == 33
    ensures forall id: nat :: IsBacklightLed(id) <==> 25 <= id <= 32
  {
  }
}
