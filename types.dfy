/** Value types shared by every part of the firmware model. */
module Types {

  /** An unsigned 8-bit quantity (`uint8_t`). */
  type byte = x: int | 0 <= x < 0x100

  /**
   * The bit pattern of a byte, for the code that reads single bits of it;
   * built by counting up so that its value is evident to the verifier.
   */
  function Bits(x: byte): (b: bv8)
    ensures b as int == x
  {
    if x == 0 then 0 else Bits(x - 1) + 1
  }

  /** An `int` result stored into a `uint8_t`. */
  function Wrap8(x: int): byte
  {
    x % 0x100
  }

  /** An unsigned 16-bit quantity (`uint16_t`). */
  type u16 = x: int | 0 <= x < 0x10000

  datatype Option<+T> = None | Some(value: T)

  /** `hsv_t`: hue 0..0xffff (the conversion only uses it modulo 6 sextants), saturation, value. */
  datatype Hsv = Hsv(h: u16, s: byte, v: byte)

  /** `rgbpixel_t`: one LED's colour. */
  datatype Rgb = Rgb(r: byte, g: byte, b: byte)

  /** A key event as the keymap tables store it: a type byte and three argument bytes. */
  datatype Event = Event(kind: byte, num1: byte, num2: byte, num3: byte)

  const ZeroEvent: Event := Event(0, 0, 0, 0)
}
