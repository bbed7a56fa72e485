/**
 * The LED driver of rgbpixel.c: a frame of 33 colours, two SPI buffers of
 * 9 bytes per LED (laid out one after the other, as `spi[2][RGB_ALL_NUM]`
 * is in memory), the index of the buffer the DMA sends, and the state of
 * the transfer-complete interrupt that alternates a reset pulse with the
 * pixel array.
 */
module RgbPixel {
  import opened Types
  import Config
  import opened SpiEncoding

  /** The reset pulse has to last at least this long. */
  const RESET_PULSE_NS: nat := 80000
  /** Duration of one SPI bit at the 72 MHz / 32 clock. */
  const RESET_SPI_RATE_NS: nat := 444
  /** Number of bytes the reset transfer sends (C integer division). */
  const RESET_SPI_COUNT: nat := RESET_PULSE_NS / RESET_SPI_RATE_NS

  /** `sizeof(spi[0])`: the bytes of one buffer. */
  const BUFFER_BYTES: nat := 9 * Config.RGB_ALL_NUM

  datatype SpiStatus = ResetPulse | PixelArray

  /** Where a DMA transfer reads from. */
  datatype Source = ResetData | SpiBuffer(index: nat)

  /** A DMA transfer as the driver programs it: source, number of bytes, and whether the memory address advances. */
  datatype Transfer = Transfer(source: Source, count: nat, increment: bool)

  /** The status the interrupt moves to on a transfer-complete event. */
  function NextStatus(s: SpiStatus): SpiStatus
  {
    if s == ResetPulse then PixelArray else ResetPulse
  }

  /** The transfer that is started on entering status s. */
  function TransferFor(s: SpiStatus, active: nat): (t: Transfer)
    ensures s == PixelArray ==> t.source == SpiBuffer(active) && t.count == BUFFER_BYTES && t.increment
    ensures s == ResetPulse ==> t.source == ResetData && t.count == RESET_SPI_COUNT && !t.increment
  {
    match s
    case ResetPulse => Transfer(ResetData, RESET_SPI_COUNT, false)
    case PixelArray => Transfer(SpiBuffer(active), BUFFER_BYTES, true)
  }

  /** The status after n transfer-complete events. */
  function StatusAfter(s: SpiStatus, n: nat): SpiStatus
  {
    if n == 0 then s else NextStatus(StatusAfter(s, n - 1))
  }

  /** The two transfer kinds strictly alternate. */
  lemma StatusAlternates(s: SpiStatus)
    ensures NextStatus(s) != s
    ensures NextStatus(NextStatus(s)) == s
  {
  }

  /** Starting from the reset pulse, the even-numbered transfers are reset pulses and the odd ones pixel arrays. */
  lemma {:induction false} StatusParity(n: nat)
    ensures StatusAfter(ResetPulse, n) == if n % 2 == 0 then ResetPulse else PixelArray
  {
    if n > 0 {
      StatusParity(n - 1);
    }
  }

  /**
   * The reset transfer sends 180 bytes of 8 bits at 444 ns each, which is
   * longer than the 80 us the LEDs need; a symbol of three SPI bits lasts
   * 1332 ns, within the 650-1850 ns the LEDs accept.
   */
  lemma Timing()
    ensures RESET_SPI_COUNT == 180
    ensures RESET_SPI_COUNT * 8 * RESET_SPI_RATE_NS >= RESET_PULSE_NS
    ensures 650 <= 3 * RESET_SPI_RATE_NS <= 1850
    ensures BUFFER_BYTES == 297
  {
  }

  class PixelDriver {
    /** `frame[RGB_ALL_NUM]`: the colours to show. */
    const frame: array<Rgb>
    /** `spi[2][RGB_ALL_NUM]`: buffer b occupies bytes 297 * b up to 297 * (b + 1). */
    const spi: array<bv8>
    /** `active_buffer`: the buffer the pixel transfer sends. */
    var active: nat
    /** `status`: the transfer in progress. */
    var status: SpiStatus

    ghost predicate Valid()
      reads this, spi
    {
      frame.Length == Config.RGB_ALL_NUM && spi.Length == 594 && active < 2 &&
      FramedBuffer(spi[..])
    }

    /** The bytes of buffer b. */
    function Buffer(b: nat): (buf: seq<bv8>)
      requires b < 2 && spi.Length == 594
      reads this, spi
      ensures |buf| == 297
    {
      spi[297 * b..297 * b + 297]
    }

    /**
     * `rgbpixel_init` as far as the model goes: the zeroed static state,
     * then `rgbpixel_reset`; the status is the reset pulse, whose transfer
     * `TransferFor(ResetPulse, 0)` init starts.
     */
    constructor Init()
      ensures Valid() && fresh(frame) && fresh(spi)
      ensures frame[..] == seq(Config.RGB_ALL_NUM, _ => Rgb(0, 0, 0))
      ensures Buffer(0) == PresetBuffer(Config.RGB_ALL_NUM) && Buffer(1) == PresetBuffer(Config.RGB_ALL_NUM)
      ensures active == 0 && status == ResetPulse
    {
      frame := new Rgb[Config.RGB_ALL_NUM](_ => Rgb(0, 0, 0));
      spi := new bv8[594](_ => 0);
      active := 0;
      status := ResetPulse;
      new;
      Reset();
    }

    /** `rgbpixel_reset`: black frame, both buffers preset to the framing bits, buffer 0 active. */
    method Reset()
      requires frame.Length == Config.RGB_ALL_NUM && spi.Length == 594
      modifies this, frame, spi
      ensures Valid()
      ensures frame[..] == seq(Config.RGB_ALL_NUM, _ => Rgb(0, 0, 0))
      ensures Buffer(0) == PresetBuffer(Config.RGB_ALL_NUM) && Buffer(1) == PresetBuffer(Config.RGB_ALL_NUM)
      ensures active == 0 && status == old(status)
    {
      forall i | 0 <= i < frame.Length {
        frame[i] := Rgb(0, 0, 0);
      }
      forall j | 0 <= j < spi.Length {
        spi[j] := 0;
      }
      active := 0;
      PresetInto(spi, 0, Config.RGB_ALL_NUM);
      PresetInto(spi, 297, Config.RGB_ALL_NUM);
      assert spi[..] == PresetBuffer(2 * Config.RGB_ALL_NUM) by {
        assert spi[..] == Buffer(0) + Buffer(1);
        PresetBufferConcat(Config.RGB_ALL_NUM);
      }
      PresetBufferFramed(2 * Config.RGB_ALL_NUM);
    }

    /** `rgbpixel_set`: store a colour, ignoring an index past the last LED. */
    method Set(n: byte, r: byte, g: byte, b: byte)
      requires Valid()
      modifies frame
      ensures Valid()
      ensures n < Config.RGB_ALL_NUM ==> frame[..] == old(frame[..])[n := Rgb(r, g, b)]
      ensures n >= Config.RGB_ALL_NUM ==> frame[..] == old(frame[..])
    {
      if n < Config.RGB_ALL_NUM {
        frame[n] := Rgb(r, g, b);
      }
    }

    /**
     * `rgbpixel_render`: render the frame into the buffer that is not being
     * sent, then make it the one to send. The buffer being sent is not
     * touched, and the new active buffer shows the frame.
     */
    method Render()
      requires Valid()
      modifies this, spi
      ensures Valid()
      ensures active == 1 - old(active) && status == old(status)
      ensures Buffer(active) == RenderBuffer(frame[..], old(Buffer(1 - active)))
      ensures Buffer(1 - active) == old(Buffer(active))
      ensures DecodeBuffer(Buffer(active)) == frame[..]
    {
      var inactive := 1 - active;
      ghost var before := Buffer(inactive);
      ghost var kept := Buffer(active);
      RenderInto(frame, spi, 297 * inactive);
      active := inactive;
      assert Buffer(active) == RenderBuffer(frame[..], before);
      assert Buffer(1 - active) == kept;
      RenderRoundTrip(frame[..], before);
    }

    /**
     * The DMA transfer-complete interrupt: the status toggles, and the
     * transfer for the new status starts (the pixel array from the active
     * buffer, or the reset pulse).
     */
    method Isr() returns (t: Transfer)
      requires Valid()
      modifies this
      ensures Valid()
      ensures status == NextStatus(old(status)) && active == old(active)
      ensures t == TransferFor(status, active)
    {
      if status == ResetPulse {
        status := PixelArray;
      } else {
        status := ResetPulse;
      }
      t := TransferFor(status, active);
    }
  }
}
