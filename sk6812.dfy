/**
 * The older LED driver of sk6812.c: the same line code and buffer layout
 * as rgbpixel.c for `BACKLIGHT_LEDS_NUM` LEDs, but without a transmitter.
 * Its render never changes `active_buffer`, so every render goes to
 * buffer 1 and buffer 0 keeps its preset contents.
 */
module Sk6812 {
  import opened Types
  import opened SpiEncoding

  class Strip {
    /** `BACKLIGHT_LEDS_NUM`, whose value is not part of this model; the C loops count it in a `uint8_t`. */
    const count: nat
    /** `frame[BACKLIGHT_LEDS_NUM]` */
    const frame: array<Rgb>
    /** `spi[2][BACKLIGHT_LEDS_NUM]`: buffer 0 in bytes 0 up to 9 * count, buffer 1 after it. */
    const spi: array<bv8>
    /** `active_buffer` */
    var active: nat

    ghost predicate Valid()
      reads this, spi
    {
      count < 256 && frame.Length == count && spi.Length == 18 * count && active == 0 &&
      FramedBuffer(spi[..])
    }

    /** The bytes of buffer b. */
    function Buffer(b: nat): (buf: seq<bv8>)
      requires b < 2 && frame.Length == count && spi.Length == 18 * count
      reads this, spi
      ensures |buf| == 9 * count
    {
      if b == 0 then spi[0..9 * frame.Length] else spi[9 * count..9 * count + 9 * frame.Length]
    }

    /** Static storage of the strip followed by `sk6812_reset`. */
    constructor Init(n: nat)
      requires n < 256
      ensures Valid() && count == n && fresh(frame) && fresh(spi)
      ensures frame[..] == seq(n, _ => Rgb(0, 0, 0))
      ensures Buffer(0) == PresetBuffer(n) && Buffer(1) == PresetBuffer(n)
    {
      count := n;
      frame := new Rgb[n](_ => Rgb(0, 0, 0));
      spi := new bv8[18 * n](_ => 0);
      active := 0;
      new;
      Reset();
    }

    /** `sk6812_reset`: black frame, both buffers preset to the framing bits, buffer 0 active. */
    method Reset()
      requires count < 256 && frame.Length == count && spi.Length == 18 * count
      modifies this, frame, spi
      ensures Valid()
      ensures frame[..] == seq(count, _ => Rgb(0, 0, 0))
      ensures Buffer(0) == PresetBuffer(count) && Buffer(1) == PresetBuffer(count)
    {
      forall i | 0 <= i < frame.Length {
        frame[i] := Rgb(0, 0, 0);
      }
      forall j | 0 <= j < spi.Length {
        spi[j] := 0;
      }
      active := 0;
      PresetInto(spi, 0, count);
      PresetInto(spi, 9 * count, count);
      PresetHalvesFramed(spi[..], count);
    }

    /** `sk6812_set`: store a colour, ignoring an index past the last LED. */
    method Set(n: byte, r: byte, g: byte, b: byte)
      requires Valid()
      modifies frame
      ensures Valid()
      ensures n < count ==> frame[..] == old(frame[..])[n := Rgb(r, g, b)]
      ensures n >= count ==> frame[..] == old(frame[..])
    {
      if n < count {
        frame[n] := Rgb(r, g, b);
      }
    }

    /**
     * `sk6812_render`: render into buffer `active_buffer ^ 1`, which is
     * always buffer 1; the active buffer stays 0 and buffer 0 and the frame
     * are untouched.
     */
    method Render()
      requires Valid()
      modifies spi
      ensures Valid()
      ensures Buffer(1) == RenderBuffer(frame[..], old(Buffer(1)))
      ensures Buffer(0) == old(Buffer(0))
      ensures DecodeBuffer(Buffer(1)) == frame[..]
    {
      var inactive := 1 - active;
      var off := if inactive == 0 then 0 else 9 * count;
      ghost var before := Buffer(1);
      ghost var kept := Buffer(0);
      assert off == 9 * count && before == spi[off..off + 9 * frame.Length];
      LedAligned(count);
      RenderInto(frame, spi, off);
      assert spi[off..off + 9 * frame.Length] == RenderBuffer(frame[..], before);
      assert Buffer(1) == RenderBuffer(frame[..], before);
      assert Buffer(0) == kept;
      RenderRoundTrip(frame[..], before);
    }
  }
}
