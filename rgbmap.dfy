/**
 * Colour conversion (rgbmap.c): integer HSV to RGB conversion, the key to
 * LED table, and the test rainbow over the backlight LEDs.
 */
module RgbMap {
  import opened Types
  import Config
  import RgbPixel
  import SpiEncoding

  const HUE_SEXTANT: nat := 0x100
  const SEXTANT_MAX: nat := 6
  /** One less than the full hue circle of 6 * 256 steps. */
  const HUE_MAX: nat := SEXTANT_MAX * HUE_SEXTANT - 1

  // ---------------------------------------------------------------------
  // hsv2rgb

  datatype Channel = R | G | B

  /** The three output pointers `r`, `g`, `b` of hsv2rgb, as the channel each one points at. */
  datatype Pointers = Pointers(r: Channel, g: Channel, b: Channel)

  function SwapRG(p: Pointers): Pointers { Pointers(p.g, p.r, p.b) }
  function SwapRB(p: Pointers): Pointers { Pointers(p.b, p.g, p.r) }
  function SwapGB(p: Pointers): Pointers { Pointers(p.r, p.b, p.g) }

  /**
   * The pointer swaps hsv2rgb performs so that every sextant is computed as
   * sextant 1: afterwards `g` points at the channel holding v, `b` at the
   * bottom channel and `r` at the interpolated one.
   */
  function SextantPointers(sextant: nat): (p: Pointers)
    requires sextant < SEXTANT_MAX
    ensures p.r != p.g && p.g != p.b && p.r != p.b
  {
    var id := Pointers(R, G, B);
    match sextant
    case 0 => SwapRG(id)
    case 1 => id
    case 2 => SwapRB(id)
    case 3 => SwapGB(SwapRG(id))
    case 4 => SwapGB(id)
    case 5 => SwapRB(SwapRG(id))
  }

  function Store(p: Rgb, c: Channel, x: byte): Rgb
  {
    match c
    case R => p.(r := x)
    case G => p.(g := x)
    case B => p.(b := x)
  }

  function ChannelOf(p: Rgb, c: Channel): byte
  {
    match c
    case R => p.r
    case G => p.g
    case B => p.b
  }

  /** The sextant of a hue: `(h >> 8) % 6`. */
  function Sextant(h: u16): (sx: nat)
    ensures sx < SEXTANT_MAX
  {
    (h / 256) % SEXTANT_MAX
  }

  /**
   * The bottom channel: `v * (0xff - s)` stored in 16 bits, plus one, plus
   * itself shifted down by 8, and the top byte stored in 8 bits.
   */
  function BottomLevel(s: byte, v: byte): byte
  {
    BottomOf((v * (0xff - s)) % 0x10000)
  }

  /** The rounding division by 255 of the bottom level, done in 16-bit arithmetic. */
  function BottomOf(level: int): byte
  {
    var level1 := (level + 1) % 0x10000;
    var level2 := (level1 + level1 / 0x100) % 0x10000;
    (level2 / 0x100) % 0x100
  }

  /**
   * The interpolated channel. Odd sextants slope down with the fraction f,
   * even ones slope up; `(uint16_t)` and `(uint32_t)` casts and the final
   * 8-bit store are written out as reductions.
   */
  function Interpolated(sextant: nat, f: byte, s: byte, v: byte): byte
  {
    var k := (0xff00 - Fraction(sextant, f, s)) % 0x1_0000_0000;
    SlopeOf((v * k) % 0x1_0000_0000, v)
  }

  /** The saturation times the hue fraction (odd sextants) or its complement (even ones), as a `uint16_t`. */
  function Fraction(sextant: nat, f: byte, s: byte): int
  {
    if sextant % 2 == 1 then (s * f) % 0x10000 else (s * (0x100 - f)) % 0x10000
  }

  /** The rounding division by 0xFF00 of the slope, done in 32-bit arithmetic. */
  function SlopeOf(slope: int, v: byte): byte
  {
    var slope1 := (slope + slope / 0x100) % 0x1_0000_0000;
    var slope2 := (slope1 + v) % 0x1_0000_0000;
    (slope2 / 0x10000) % 0x100
  }

  /** `hsv2rgb`: the colour a HSV triple shows. */
  function Hsv2Rgb(c: Hsv): (p: Rgb)
    ensures p.r <= c.v && p.g <= c.v && p.b <= c.v
  {
    if c.s == 0 then Rgb(c.v, c.v, c.v)
    else
      var sx := Sextant(c.h);
      var ptr := SextantPointers(sx);
      BottomLevelFormula(c.s, c.v);
      InterpolatedFormula(sx, c.h % 0x100, c.s, c.v);
      var p0 := Store(Rgb(0, 0, 0), ptr.g, c.v);
      var p1 := Store(p0, ptr.b, BottomLevel(c.s, c.v));
      Store(p1, ptr.r, Interpolated(sx, c.h % 0x100, c.s, c.v))
  }

  // ---------------------------------------------------------------------
  // Properties of the conversion

  /** Reference table of which channel holds v, per sextant: R,G,G,B,B,R. */
  function TopChannel(sx: nat): Channel
    requires sx < SEXTANT_MAX
  {
    [R, G, G, B, B, R][sx]
  }

  /** Reference table of the bottom channel, per sextant: B,B,R,R,G,G. */
  function BottomChannel(sx: nat): Channel
    requires sx < SEXTANT_MAX
  {
    [B, B, R, R, G, G][sx]
  }

  /** Reference table of the interpolated channel, per sextant: G,R,B,G,R,B. */
  function RisingChannel(sx: nat): Channel
    requires sx < SEXTANT_MAX
  {
    [G, R, B, G, R, B][sx]
  }

  lemma MulBound(a: nat, b: nat, amax: nat, bmax: nat)
    requires a <= amax && b <= bmax
    ensures a * b <= amax * bmax
  {
    calc {
      a * b;
    <= { MulMono(a, b, bmax); }
      a * bmax;
    <= { MulMono(bmax, a, amax); }
      amax * bmax;
    }
  }

  lemma MulMono(a: nat, b: nat, c: nat)
    requires b <= c
    ensures a * b <= a * c
  {
  }

  /** Dividing by 256 keeps the order of its arguments. */
  lemma DivMono(a: int, b: int)
    requires 0 <= a <= b
    ensures a / 0x100 <= b / 0x100
  {
  }

  /** The linear part of the bottom level, for a product x = v * (255 - s) in 0..v*254 (or exactly v*255). */
  lemma BottomOfProduct(x: int, v: byte)
    requires 0 <= x <= 255 * v
    ensures x + 1 + (x + 1) / 0x100 < 0x10000
    ensures BottomOf(x) == (x + 1 + (x + 1) / 0x100) / 0x100 <= v
  {
    DivMono(x + 1, 255 * v + 1);
    assert (255 * v + 1) / 0x100 <= v;
    var y := x + 1 + (x + 1) / 0x100;
    assert (x + 1) % 0x10000 == x + 1;
    assert y % 0x10000 == y;
    assert (y / 0x100) % 0x100 == y / 0x100;
  }

  /**
   * The bottom level never overflows its 16-bit variable, equals
   * `((x+1) + ((x+1)>>8)) >> 8` with x = v*(255-s), never exceeds v and
   * is 0 at full saturation.
   */
  lemma BottomLevelFormula(s: byte, v: byte)
    ensures var x := v * (255 - s);
      x + 1 + (x + 1) / 0x100 < 0x10000 &&
      BottomLevel(s, v) == (x + 1 + (x + 1) / 0x100) / 0x100
    ensures BottomLevel(s, v) <= v
    ensures s == 255 ==> BottomLevel(s, v) == 0
  {
    var x := v * (255 - s);
    MulMono(v, 255 - s, 255);
    assert 0 <= x <= v * 255;
    assert x % 0x10000 == x;
    BottomOfProduct(x, v);
    if s == 255 {
      assert x == 0;
    }
  }

  /** The linear part of the interpolation, for a product p = v * k with k <= 0xff00. */
  lemma SlopeOfProduct(p: int, v: byte)
    requires 0 <= p <= 0xff00 * v
    ensures p + p / 0x100 + v < 0x1_0000_0000
    ensures SlopeOf(p, v) == (p + p / 0x100 + v) / 0x10000 <= v
  {
    DivMono(p, 0xff00 * v);
    assert (0xff00 * v) / 0x100 == 0xff * v;
    assert (p + p / 0x100) % 0x1_0000_0000 == p + p / 0x100;
    var total := p + p / 0x100 + v;
    assert total % 0x1_0000_0000 == total;
    assert (total / 0x10000) % 0x100 == total / 0x10000;
  }

  /** The 16-bit product of the saturation and the (inverted) hue fraction never wraps. */
  lemma FractionProduct(sx: nat, f: byte, s: byte)
    ensures var t := if sx % 2 == 1 then s * f else s * (256 - f);
      0 <= t <= 0xff00 && Fraction(sx, f, s) == t
  {
    if sx % 2 == 1 {
      MulBound(s, f, 255, 255);
      assert (s * f) % 0x10000 == s * f;
    } else {
      MulBound(s, 256 - f, 255, 256);
      assert (s * (0x100 - f)) % 0x10000 == s * (256 - f);
    }
  }

  /** The 32-bit product of v and a 16-bit factor never wraps. */
  lemma SlopeProduct(v: byte, k: int)
    requires 0 <= k <= 0xff00
    ensures 0 <= v * k <= 0xff00 * v && (v * k) % 0x1_0000_0000 == v * k
  {
    MulMono(v, k, 0xff00);
  }

  /**
   * The interpolated channel equals `(slope + (slope>>8) + v) >> 16` with
   * slope = v*(0xFF00 - s*f) in odd sextants and v*(0xFF00 - s*(256-f)) in
   * even ones; none of the casts changes a value and the result is at most v.
   */
  lemma InterpolatedFormula(sx: nat, f: byte, s: byte, v: byte)
    ensures var t := if sx % 2 == 1 then s * f else s * (256 - f);
      var slope := v * (0xff00 - t);
      0 <= t <= 0xff00 && slope + slope / 0x100 + v < 0x1_0000_0000 &&
      Interpolated(sx, f, s, v) == (slope + slope / 0x100 + v) / 0x10000
    ensures Interpolated(sx, f, s, v) <= v
  {
    FractionProduct(sx, f, s);
    var k := 0xff00 - Fraction(sx, f, s);
    assert k % 0x1_0000_0000 == k;
    SlopeProduct(v, k);
    SlopeOfProduct(v * k, v);
  }

  /** The three pointers go to the channels the reference tables name. */
  lemma SextantTable(sx: nat)
    requires sx < SEXTANT_MAX
    ensures SextantPointers(sx) == Pointers(RisingChannel(sx), TopChannel(sx), BottomChannel(sx))
  {
  }

  /** A colour without saturation is grey at level v, whatever the hue. */
  lemma Monochrome(h: u16, v: byte)
    ensures Hsv2Rgb(Hsv(h, 0, v)) == Rgb(v, v, v)
  {
  }

  /**
   * For a saturated colour, the sextant's top channel shows v, its bottom
   * channel the bottom level and the remaining channel the interpolation.
   */
  lemma {:induction false} SaturatedChannels(c: Hsv)
    requires c.s != 0
    ensures var sx := Sextant(c.h);
      ChannelOf(Hsv2Rgb(c), TopChannel(sx)) == c.v &&
      ChannelOf(Hsv2Rgb(c), BottomChannel(sx)) == BottomLevel(c.s, c.v) &&
      ChannelOf(Hsv2Rgb(c), RisingChannel(sx)) == Interpolated(sx, c.h % 0x100, c.s, c.v)
  {
    var sx := Sextant(c.h);
    SextantTable(sx);
  }

  /** Only the sextant and the fraction of the hue matter, so the hue repeats every 1536 steps. */
  lemma HuePeriodic(h: u16, s: byte, v: byte)
    requires h + 1536 < 0x10000
    ensures Hsv2Rgb(Hsv(h + 1536, s, v)) == Hsv2Rgb(Hsv(h, s, v))
  {
    assert (h + 1536) / 256 == h / 256 + 6;
    assert Sextant(h + 1536) == Sextant(h);
    assert (h + 1536) % 256 == h % 256;
  }

  // ---------------------------------------------------------------------
  // key2rgb

  /** `key2rgb`: the LED behind the key at row r, column c. */
  const Key2Rgb: seq<seq<byte>> := [
    [ 0,  1,  2,  3,  4],
    [ 5,  6,  7,  8,  9],
    [10, 11, 12, 13, 14],
    [15, 16, 17, 18, 19],
    [20, 21, 22, 23, 24]
  ]

  /** The key table numbers the 25 keys row by row, one LED each. */
  lemma Key2RgbRowMajor()
    ensures |Key2Rgb| == Config.ROWS_NUM
    ensures forall r :: 0 <= r < Config.ROWS_NUM ==> |Key2Rgb[r]| == Config.COLS_NUM
    ensures forall r, c :: 0 <= r < 5 && 0 <= c < 5 ==> Key2Rgb[r][c] == 5 * r + c
  {
    forall r, c | 0 <= r < 5 && 0 <= c < 5
      ensures Key2Rgb[r][c] == 5 * r + c
    {
      if r == 0 {} else if r == 1 {} else if r == 2 {} else if r == 3 {} else {}
    }
  }

  /** Every LED 0..24 sits behind exactly one key. */
  lemma {:induction false} Key2RgbBijective(id: nat)
    requires id < Config.RGB_KEYS_NUM
    ensures Key2Rgb[id / 5][id % 5] == id
    ensures forall r, c :: 0 <= r < 5 && 0 <= c < 5 && Key2Rgb[r][c] == id ==> r == id / 5 && c == id % 5
  {
    Key2RgbRowMajor();
  }

  // ---------------------------------------------------------------------
  // The test rainbow

  /** `h += 3; h %= HUE_MAX` on a 16-bit hue. */
  function RainbowStep(c: Hsv): (d: Hsv)
    ensures d.h < HUE_MAX && d.s == c.s && d.v == c.v
    ensures c.h + 3 < 0x10000 ==> d.h == (c.h + 3) % HUE_MAX
  {
    c.(h := ((c.h + 3) % 0x10000) % HUE_MAX)
  }

  /** A hue already below HUE_MAX - 3 just moves on by 3. */
  lemma RainbowStepAdvances(c: Hsv)
    requires c.h + 3 < HUE_MAX
    ensures RainbowStep(c).h == c.h + 3
  {
  }

  /** `rainbow[BACKLIGHT_LEDS_NUM]` and the two functions that animate it over the first LEDs of the frame. */
  class Rainbow {
    /** `BACKLIGHT_LEDS_NUM`, whose value is not part of this model. */
    const count: nat
    const hues: array<Hsv>
    const pixels: RgbPixel.PixelDriver

    ghost predicate Valid()
      reads this, pixels, pixels.spi
    {
      count <= Config.RGB_ALL_NUM && hues.Length == count && pixels.Valid()
    }

    /** The zeroed static array, beside a driver. */
    constructor (n: nat, driver: RgbPixel.PixelDriver)
      requires n <= Config.RGB_ALL_NUM && driver.Valid()
      ensures Valid() && count == n && pixels == driver && fresh(hues)
      ensures hues[..] == seq(n, _ => Hsv(0, 0, 0))
    {
      count := n;
      hues := new Hsv[n](_ => Hsv(0, 0, 0));
      pixels := driver;
    }

    /** `rainbow_init`: every LED starts at hue 0, full saturation and value. */
    method Init()
      requires Valid()
      modifies hues
      ensures Valid()
      ensures hues[..] == seq(count, _ => Hsv(0, 0xff, 0xff))
    {
      var i := 0;
      while i < count
        invariant 0 <= i <= count
        invariant forall j :: 0 <= j < i ==> hues[j] == Hsv(0, 0xff, 0xff)
      {
        hues[i] := Hsv(0, 0xff, 0xff);
        i := i + 1;
      }
    }

    /**
     * `rainbow_advance`: every hue moves on by 3 below HUE_MAX, the frame
     * shows the new colours, and the frame is rendered.
     */
    method Advance()
      requires Valid()
      modifies hues, pixels.frame, pixels, pixels.spi
      ensures Valid()
      ensures hues[..] == seq(count, i requires 0 <= i < count => RainbowStep(old(hues[i])))
      ensures forall i :: 0 <= i < count ==> hues[i].h < HUE_MAX
      ensures forall i :: 0 <= i < count ==> pixels.frame[i] == Hsv2Rgb(hues[i])
      ensures forall i :: count <= i < pixels.frame.Length ==> pixels.frame[i] == old(pixels.frame[i])
      ensures pixels.active == 1 - old(pixels.active)
      ensures SpiEncoding.DecodeBuffer(pixels.Buffer(pixels.active)) == pixels.frame[..]
    {
      StepHues();
      pixels.Render();
    }

    /** The loop of `rainbow_advance`, before the render. */
    method StepHues()
      requires Valid()
      modifies hues, pixels.frame
      ensures Valid()
      ensures hues[..] == seq(count, i requires 0 <= i < count => RainbowStep(old(hues[i])))
      ensures forall i :: 0 <= i < count ==> pixels.frame[i] == Hsv2Rgb(hues[i])
      ensures forall i :: count <= i < pixels.frame.Length ==> pixels.frame[i] == old(pixels.frame[i])
    {
      var i := 0;
      while i < count
        invariant 0 <= i <= count
        invariant forall j :: 0 <= j < i ==> hues[j] == RainbowStep(old(hues[j]))
        invariant forall j :: i <= j < count ==> hues[j] == old(hues[j])
        invariant forall j :: 0 <= j < i ==> pixels.frame[j] == Hsv2Rgb(hues[j])
        invariant forall j :: i <= j < pixels.frame.Length ==> pixels.frame[j] == old(pixels.frame[j])
      {
        hues[i] := RainbowStep(hues[i]);
        pixels.frame[i] := Hsv2Rgb(hues[i]);
        i := i + 1;
      }
    }
  }
}
