/**
 * The serial configuration protocol (command.c): one-letter commands with
 * hexadecimal arguments, read from the serial input ring. The unread part
 * of the ring is a sequence of bytes. The calls the interpreter makes
 * into the rest of the firmware are recorded, in order, as a list of
 * effects.
 */
module Command {
  import opened Types
  import Config
  import Light

  const NL: byte := 0x0a
  const CR: byte := 0x0d
  /** The help command. */
  const HELP: byte := 0x3f

  predicate IsEol(c: byte)
  {
    c == NL || c == CR
  }

  /**
   * The command letters `CMD_*` and the dump selectors `DUMP_*`, whose
   * values are not part of this model.
   */
  datatype Letters = Letters(
    flashClear: byte, flashLoad: byte, flashSave: byte, identify: byte,
    backcolor: byte, color: byte, dump: byte, display: byte,
    intensity: byte, keymap: byte, light: byte, macroClear: byte,
    macroSet: byte, nkro: byte, palette: byte, rotary: byte,
    dumpKeymap: byte, dumpLight: byte, dumpRotary: byte, dumpPalette: byte)
  {
    /** The command letters, in the order of the cases of the command switch. */
    function Commands(): seq<byte>
    {
      [flashClear, flashLoad, flashSave, identify, backcolor, color, dump, display,
       intensity, keymap, light, macroClear, macroSet, nkro, palette, rotary]
    }

    /** The case labels of the command switch, in order. */
    function Labels(): seq<byte>
    {
      Commands() + [HELP, NL, CR]
    }

    /** The case labels of a C switch are distinct. */
    predicate Distinct()
    {
      forall i, j :: 0 <= i < j < |Labels()| ==> Labels()[i] != Labels()[j]
    }
  }

  /** A call the interpreter makes, or a global it writes. */
  datatype Effect =
    | FlashClear
    | FlashLoad
    | FlashSave
    /** `command_identify`: the USB strings are printed. */
    | Identify
    /** The help text is printed. */
    | Help
    /** One of `keymap_dump`, `light_dump`, `rotary_dump`, `palette_dump`, by its selector. */
    | Dump(which: byte)
    /** `rgbease_set(id, HSV_WHITE, F_OVERRIDE, 0, 0)`: the LED stops following its easing. */
    | Override(id: byte)
    /** `rgbpixel_set(id, r, g, b)` */
    | Pixel(id: byte, rgb: Rgb)
    | Desktop(screen: byte, display: byte)
    | MicMute(state: byte)
    | Mute(state: byte)
    | Volume(volume: u16)
    /** `rgbintensity` is written, then `light_apply_state(LIGHT_ALL)`. */
    | Intensity(level: byte)
    | KeymapCell(layer: byte, row: byte, column: byte, event: Event)
    | LightCell(layer: byte, row: byte, column: byte, value: byte)
    /** `macro_init` */
    | MacroClear
    /** `macro_set_phrase(number, phrase, len)` */
    | Macro(number: byte, phrase: seq<byte>)
    /** `nkro_active` is written. */
    | Nkro(active: byte)
    | PaletteEntry(number: byte, hsv: Hsv)
    | RotaryCell(layer: byte, direction: byte, event: Event)

  /** What a command emits, and the input left after it. */
  datatype Out = Out(effects: seq<Effect>, rest: seq<byte>)

  predicate IsHexChar(c: byte)
  {
    0x30 <= c <= 0x39 || 0x41 <= c <= 0x46 || 0x61 <= c <= 0x66
  }

  /** The digit character of n in the given case. */
  function HexChar(n: nat, upper: bool): (c: byte)
    requires n < 16
    ensures IsHexChar(c)
  {
    if n < 10 then 0x30 + n else if upper then 0x41 + n - 10 else 0x61 + n - 10
  }

  /**
   * `hex_digit`: the value of a hexadecimal digit in either case, and 0 for
   * any other byte; every digit character is the character of its value.
   */
  function HexDigit(c: byte): (d: byte)
    ensures d < 16
    ensures !IsHexChar(c) ==> d == 0
    ensures IsHexChar(c) ==> c == HexChar(d, true) || c == HexChar(d, false)
  {
    if 0x30 <= c <= 0x39 then c - 0x30
    else if 0x41 <= c <= 0x46 then 10 + (c - 0x41)
    else if 0x61 <= c <= 0x66 then 10 + (c - 0x61)
    else 0
  }

  /** Every digit character reads back as its value, in either case. */
  lemma HexDigitOfChar(n: nat, upper: bool)
    requires n < 16
    ensures HexDigit(HexChar(n, upper)) == n
  {
  }

  /**
   * `read_hex_8`: up to two characters are consumed; two give the high and
   * the low digit, one gives the high digit alone, none gives 0.
   */
  function Hex8(s: seq<byte>): (r: (byte, seq<byte>))
    ensures |s| >= 2 ==> r.1 == s[2..]
    ensures |s| < 2 ==> r.1 == []
  {
    if |s| == 0 then (0, [])
    else if |s| == 1 then (HexDigit(s[0]) * 16, [])
    else (HexDigit(s[0]) * 16 + HexDigit(s[1]), s[2..])
  }

  /** A byte as two hexadecimal digits, high digit first. */
  function HexByte(b: byte, upper: bool): (s: seq<byte>)
    ensures |s| == 2
  {
    [HexChar(b / 16, upper), HexChar(b % 16, upper)]
  }

  /** Reading the two digits of any byte, in either case, gives that byte back. */
  lemma ReadHexByte(b: byte, upper: bool, rest: seq<byte>)
    ensures Hex8(HexByte(b, upper) + rest) == (b, rest)
  {
    var s := HexByte(b, upper) + rest;
    assert s[2..] == rest;
    HexDigitOfChar(b / 16, upper);
    HexDigitOfChar(b % 16, upper);
  }

  /** `ring_skip_line`, taken to drop everything up to and including the next newline. */
  function AfterLine(s: seq<byte>): (r: seq<byte>)
    ensures |r| <= |s|
  {
    if s == [] then [] else if s[0] == NL then s[1..] else AfterLine(s[1..])
  }

  /** Skipping a line drops exactly the bytes up to the first newline and that newline. */
  lemma {:induction false} SkipLineAfterNewline(p: seq<byte>, rest: seq<byte>)
    requires NL !in p
    ensures AfterLine(p + [NL] + rest) == rest
  {
    if p == [] {
      assert ([NL] + rest)[1..] == rest;
    } else {
      assert (p + [NL] + rest)[1..] == p[1..] + [NL] + rest;
      SkipLineAfterNewline(p[1..], rest);
    }
  }

  /** One LED of `command_set_color` or `command_set_backcolor`: the override, then red, green and blue. */
  function PixelCmd(s: seq<byte>, id: byte): (o: Out)
    ensures |o.rest| <= |s|
    ensures |o.effects| == 2 && o.effects[0] == Override(id) && o.effects[1].Pixel? && o.effects[1].id == id
    ensures |s| >= 6 ==> o.rest == s[6..]
  {
    var (r, s1) := Hex8(s);
    var (g, s2) := Hex8(s1);
    var (b, s3) := Hex8(s2);
    Out([Override(id), Pixel(id, Rgb(r, g, b))], s3)
  }

  /**
   * The LEDs ids in order, each set to override and then given the colour
   * of the next six characters.
   */
  function PixelRun(s: seq<byte>, ids: seq<byte>): (o: Out)
    ensures |o.rest| <= |s|
    ensures |o.effects| == 2 * |ids|
    decreases |ids|
  {
    if ids == [] then Out([], s)
    else
      var first := PixelCmd(s, ids[0]);
      var more := PixelRun(first.rest, ids[1..]);
      Out(first.effects + more.effects, more.rest)
  }

  /** Past the two calls of one LED, the calls of the rest of the run. */
  lemma PastPair(a: seq<Effect>, b: seq<Effect>, i: nat)
    requires |a| == 2 && i < |b|
    ensures (a + b)[i + 2] == b[i]
  {
  }

  /** LED k of the run gets its override first, at effect 2k. */
  lemma {:induction false} PixelRunOrder(s: seq<byte>, ids: seq<byte>, k: nat)
    requires k < |ids|
    ensures PixelRun(s, ids).effects[2 * k] == Override(ids[k])
    decreases k
  {
    var first := PixelCmd(s, ids[0]);
    var more := PixelRun(first.rest, ids[1..]);
    var cat := first.effects + more.effects;
    assert PixelRun(s, ids).effects == cat;
    if k > 0 {
      PixelRunOrder(first.rest, ids[1..], k - 1);
      assert ids[1..][k - 1] == ids[k];
      var j := 2 * (k - 1);
      assert j + 2 == 2 * k;
      PastPair(first.effects, more.effects, j);
      assert cat[2 * k] == more.effects[j];
    }
  }

  /** LED k of the run gets its colour right after its override, at effect 2k + 1. */
  lemma {:induction false} PixelRunColour(s: seq<byte>, ids: seq<byte>, k: nat)
    requires k < |ids|
    ensures PixelRun(s, ids).effects[2 * k + 1].Pixel? && PixelRun(s, ids).effects[2 * k + 1].id == ids[k]
    decreases k
  {
    var first := PixelCmd(s, ids[0]);
    var more := PixelRun(first.rest, ids[1..]);
    var cat := first.effects + more.effects;
    assert PixelRun(s, ids).effects == cat;
    if k > 0 {
      PixelRunColour(first.rest, ids[1..], k - 1);
      assert ids[1..][k - 1] == ids[k];
      var j := 2 * (k - 1) + 1;
      assert j + 2 == 2 * k + 1;
      PastPair(first.effects, more.effects, j);
      assert cat[2 * k + 1] == more.effects[j];
    } else {
      assert cat[1] == first.effects[1];
    }
  }

  /** With enough input, every LED consumes exactly six characters. */
  lemma {:induction false} PixelRunConsumes(s: seq<byte>, ids: seq<byte>)
    requires |s| >= 6 * |ids|
    ensures PixelRun(s, ids).rest == s[6 * |ids|..]
    decreases |ids|
  {
    if ids != [] {
      var first := PixelCmd(s, ids[0]);
      assert first.rest == s[6..];
      PixelRunConsumes(s[6..], ids[1..]);
      assert s[6..][6 * (|ids| - 1)..] == s[6 * |ids|..];
    }
  }

  /** The run from LED i on is LED i's command followed by the run from LED i + 1 on. */
  lemma PixelRunFrom(s: seq<byte>, ids: seq<byte>, i: nat)
    requires i < |ids|
    ensures PixelRun(s, ids[i..]) ==
      Out(PixelCmd(s, ids[i]).effects + PixelRun(PixelCmd(s, ids[i]).rest, ids[i + 1..]).effects,
          PixelRun(PixelCmd(s, ids[i]).rest, ids[i + 1..]).rest)
  {
    assert ids[i..][0] == ids[i] && ids[i..][1..] == ids[i + 1..];
  }

  /**
   * Running LED i's command from input s, after effects e, leaves the same
   * outcome still to come as the run from LED i on.
   */
  lemma PixelRunAdvance(e: seq<Effect>, s: seq<byte>, ids: seq<byte>, i: nat)
    requires i < |ids|
    ensures e + PixelRun(s, ids[i..]).effects ==
      (e + PixelCmd(s, ids[i]).effects) + PixelRun(PixelCmd(s, ids[i]).rest, ids[i + 1..]).effects
    ensures PixelRun(s, ids[i..]).rest == PixelRun(PixelCmd(s, ids[i]).rest, ids[i + 1..]).rest
  {
    PixelRunFrom(s, ids, i);
  }

  /** The colours as the protocol sends them: two digits each of red, green and blue per LED. */
  function HexColors(colors: seq<Rgb>, upper: bool): (s: seq<byte>)
    ensures |s| == 6 * |colors|
  {
    if colors == [] then []
    else HexByte(colors[0].r, upper) + HexByte(colors[0].g, upper) + HexByte(colors[0].b, upper) + HexColors(colors[1..], upper)
  }

  /** The override and the colour of each LED in turn. */
  function PixelEffects(ids: seq<byte>, colors: seq<Rgb>): seq<Effect>
    requires |ids| == |colors|
  {
    if ids == [] then [] else [Override(ids[0]), Pixel(ids[0], colors[0])] + PixelEffects(ids[1..], colors[1..])
  }

  /** Sending the digits of a list of colours sets exactly those colours on the LEDs, in order. */
  lemma {:induction false} PixelRunDecodes(ids: seq<byte>, colors: seq<Rgb>, upper: bool, rest: seq<byte>)
    requires |ids| == |colors|
    ensures PixelRun(HexColors(colors, upper) + rest, ids) == Out(PixelEffects(ids, colors), rest)
  {
    if ids != [] {
      var c := colors[0];
      var tail := HexColors(colors[1..], upper) + rest;
      var s := HexColors(colors, upper) + rest;
      assert s == HexByte(c.r, upper) + (HexByte(c.g, upper) + (HexByte(c.b, upper) + tail));
      ReadHexByte(c.r, upper, HexByte(c.g, upper) + (HexByte(c.b, upper) + tail));
      ReadHexByte(c.g, upper, HexByte(c.b, upper) + tail);
      ReadHexByte(c.b, upper, tail);
      assert PixelCmd(s, ids[0]) == Out([Override(ids[0]), Pixel(ids[0], c)], tail);
      PixelRunDecodes(ids[1..], colors[1..], upper, rest);
    }
  }

  /** The LEDs of the keys, row by row (`key2led`). */
  function KeyIds(key2led: (byte, byte) -> byte): (ids: seq<byte>)
    ensures |ids| == Config.RGB_KEYS_NUM
  {
    seq(Config.RGB_KEYS_NUM, k requires 0 <= k < Config.RGB_KEYS_NUM => key2led(k / 5, k % 5))
  }

  /** Cell 5r + c of the row-by-row list is the LED of row r, column c. */
  lemma KeyIdAt(key2led: (byte, byte) -> byte, r: byte, c: byte)
    requires r < Config.ROWS_NUM && c < Config.COLS_NUM
    ensures KeyIds(key2led)[5 * r + c] == key2led(r, c)
  {
    assert (5 * r + c) / 5 == r && (5 * r + c) % 5 == c;
  }

  /** The backlight LEDs, 25 to 32. */
  function BacklightIds(): (ids: seq<byte>)
    ensures |ids| == Config.RGB_BACKLIGHT_NUM
    ensures forall k :: 0 <= k < |ids| ==> Config.IsBacklightLed(ids[k])
  {
    seq(Config.RGB_BACKLIGHT_NUM, k requires 0 <= k < Config.RGB_BACKLIGHT_NUM => Config.RGB_BACKLIGHT_OFFSET + k)
  }

  /** The dump command: its selector, if it is one of the four. */
  function DumpCmd(s: seq<byte>, letters: Letters): (o: Out)
    ensures |o.rest| <= |s|
    ensures s == [] ==> o == Out([], [])
    ensures s != [] ==> o.rest == s[1..]
    ensures o.effects != [] <==> s != [] && s[0] in {letters.dumpKeymap, letters.dumpLight, letters.dumpRotary, letters.dumpPalette}
    ensures o.effects != [] ==> o.effects == [Dump(s[0])]
  {
    if s == [] then Out([], [])
    else if s[0] in {letters.dumpKeymap, letters.dumpLight, letters.dumpRotary, letters.dumpPalette} then Out([Dump(s[0])], s[1..])
    else Out([], s[1..])
  }

  /**
   * `command_set_light_volume`: two bytes joined as `(first << 8) | second`.
   * C leaves the order of the two reads unspecified; the model reads the
   * high byte first.
   */
  function VolumeCmd(s: seq<byte>): (o: Out)
    ensures |o.rest| <= |s|
  {
    var (hi, s1) := Hex8(s);
    var (lo, s2) := Hex8(s1);
    Out([Volume(hi as int * 0x100 + lo)], s2)
  }

  /** The display command: a light type selector, then that setter's arguments; another selector does nothing. */
  function DisplayCmd(s: seq<byte>): (o: Out)
    ensures |o.rest| <= |s|
  {
    if s == [] then Out([], [])
    else
      var c := s[0];
      var t := s[1..];
      if c == Light.LIGHT_DESKTOP then
        var (ascreen, t1) := Hex8(t);
        var (adisplay, t2) := Hex8(t1);
        Out([Desktop(ascreen, adisplay)], t2)
      else if c == Light.LIGHT_MIC_MUTE then
        var (astate, t1) := Hex8(t);
        Out([MicMute(astate)], t1)
      else if c == Light.LIGHT_MUTE then
        var (astate, t1) := Hex8(t);
        Out([Mute(astate)], t1)
      else if c == Light.LIGHT_VOLUME then VolumeCmd(t)
      else Out([], t)
  }

  /** `command_set_keymap` and `command_set_rotary` read an event as type and three arguments. */
  function EventArgs(s: seq<byte>): (r: (Event, seq<byte>))
    ensures |r.1| <= |s|
  {
    var (kind, s1) := Hex8(s);
    var (num1, s2) := Hex8(s1);
    var (num2, s3) := Hex8(s2);
    var (num3, s4) := Hex8(s3);
    (Event(kind, num1, num2, num3), s4)
  }

  function KeymapCmd(s: seq<byte>): (o: Out)
    ensures |o.rest| <= |s|
  {
    var (alayer, s1) := Hex8(s);
    var (arow, s2) := Hex8(s1);
    var (acolumn, s3) := Hex8(s2);
    var (event, s4) := EventArgs(s3);
    Out([KeymapCell(alayer, arow, acolumn, event)], s4)
  }

  function LightCmd(s: seq<byte>): (o: Out)
    ensures |o.rest| <= |s|
  {
    var (alayer, s1) := Hex8(s);
    var (arow, s2) := Hex8(s1);
    var (acolumn, s3) := Hex8(s2);
    var (avalue, s4) := Hex8(s3);
    Out([LightCell(alayer, arow, acolumn, avalue)], s4)
  }

  function RotaryCmd(s: seq<byte>): (o: Out)
    ensures |o.rest| <= |s|
  {
    var (alayer, s1) := Hex8(s);
    var (adirection, s2) := Hex8(s1);
    var (event, s3) := EventArgs(s2);
    Out([RotaryCell(alayer, adirection, event)], s3)
  }

  /** `command_set_palette`: number, hue (its two reads taken high byte first, an order C leaves unspecified), saturation, value. */
  function PaletteCmd(s: seq<byte>): (o: Out)
    ensures |o.rest| <= |s|
  {
    var (anumber, s1) := Hex8(s);
    var (hi, s2) := Hex8(s1);
    var (lo, s3) := Hex8(s2);
    var (sat, s4) := Hex8(s3);
    var (val, s5) := Hex8(s4);
    Out([PaletteEntry(anumber, Hsv(hi as int * 0x100 + lo, sat, val))], s5)
  }

  /**
   * The phrase loop of `command_set_macro`, with buf the bytes stored so
   * far: a line end after at least one byte ends the phrase; a line end
   * while empty is stored like any byte; a full buffer or the end of the
   * input abandons the macro. Only phrases of 1 to 159 bytes are set.
   */
  function MacroScan(s: seq<byte>, number: byte, buf: seq<byte>): (o: Out)
    requires |buf| < Config.SERIAL_BUF_SIZEIN
    ensures |o.rest| <= |s|
    ensures |o.effects| <= 1
    ensures forall e :: e in o.effects ==> e.Macro? && e.number == number && 0 < |e.phrase| < Config.SERIAL_BUF_SIZEIN
    decreases |s|
  {
    if s == [] then Out([], [])
    else if IsEol(s[0]) && |buf| > 0 then Out([Macro(number, buf)], s[1..])
    else if |buf| + 1 >= Config.SERIAL_BUF_SIZEIN then Out([], s[1..])
    else MacroScan(s[1..], number, buf + [s[0]])
  }

  /** A byte that neither ends the phrase nor fills the buffer is stored and the scan goes on. */
  lemma MacroScanStep(d: byte, t: seq<byte>, number: byte, buf: seq<byte>)
    requires |buf| + 1 < Config.SERIAL_BUF_SIZEIN && !(IsEol(d) && |buf| > 0)
    ensures MacroScan([d] + t, number, buf) == MacroScan(t, number, buf + [d])
  {
    assert ([d] + t)[0] == d && ([d] + t)[1..] == t;
  }

  /** `command_set_macro` */
  function MacroCmd(s: seq<byte>): (o: Out)
    ensures |o.rest| <= |s|
  {
    var (number, s1) := Hex8(s);
    MacroScan(s1, number, [])
  }

  /** A phrase of 1 to 159 bytes with no line end in it, ended by a newline, sets that phrase. */
  lemma {:induction false} MacroScanPhrase(number: byte, buf: seq<byte>, p: seq<byte>, rest: seq<byte>)
    requires |buf| + |p| < Config.SERIAL_BUF_SIZEIN && |buf| + |p| > 0
    requires forall i :: 0 <= i < |p| ==> !IsEol(p[i])
    ensures MacroScan(p + [NL] + rest, number, buf) == Out([Macro(number, buf + p)], rest)
    decreases |p|
  {
    if p == [] {
      assert ([NL] + rest)[1..] == rest;
      assert buf + p == buf;
    } else {
      assert (p + [NL] + rest)[1..] == p[1..] + [NL] + rest;
      assert buf + p == (buf + [p[0]]) + p[1..];
      MacroScanPhrase(number, buf + [p[0]], p[1..], rest);
    }
  }

  /** The macro command round trip: number in two digits, the phrase, a newline. */
  lemma MacroRoundTrip(number: byte, upper: bool, p: seq<byte>, rest: seq<byte>)
    requires 0 < |p| < Config.SERIAL_BUF_SIZEIN
    requires forall i :: 0 <= i < |p| ==> !IsEol(p[i])
    ensures MacroCmd(HexByte(number, upper) + (p + [NL] + rest)) == Out([Macro(number, p)], rest)
  {
    ReadHexByte(number, upper, p + [NL] + rest);
    MacroScanPhrase(number, [], p, rest);
    assert [] + p == p;
  }

  /** 159 bytes without a line end fill the buffer: the macro is abandoned and nothing is set. */
  lemma {:induction false} MacroOverflow(number: byte, buf: seq<byte>, p: seq<byte>, rest: seq<byte>)
    requires |buf| < Config.SERIAL_BUF_SIZEIN && |buf| + |p| == Config.SERIAL_BUF_SIZEIN
    requires forall i :: 0 <= i < |p| ==> !IsEol(p[i])
    ensures MacroScan(p + rest, number, buf) == Out([], rest)
    decreases |p|
  {
    assert p != [];
    assert (p + rest)[1..] == p[1..] + rest;
    if |buf| + 1 < Config.SERIAL_BUF_SIZEIN {
      MacroOverflow(number, buf + [p[0]], p[1..], rest);
    }
  }

  /** The command selected by letter c, applied to the input after it. */
  function Select(c: byte, t: seq<byte>, letters: Letters, key2led: (byte, byte) -> byte): (o: Out)
    ensures |o.rest| <= |t|
  {
    if c == letters.flashClear then Out([FlashClear], t)
    else if c == letters.flashLoad then Out([FlashLoad], t)
    else if c == letters.flashSave then Out([FlashSave], t)
    else if c == letters.identify then Out([Identify], t)
    else if c == letters.backcolor then PixelRun(t, BacklightIds())
    else if c == letters.color then PixelRun(t, KeyIds(key2led))
    else if c == letters.dump then DumpCmd(t, letters)
    else if c == letters.display then DisplayCmd(t)
    else if c == letters.intensity then (var (a, t1) := Hex8(t); Out([Intensity(a)], t1))
    else if c == letters.keymap then KeymapCmd(t)
    else if c == letters.light then LightCmd(t)
    else if c == letters.macroClear then Out([MacroClear], t)
    else if c == letters.macroSet then MacroCmd(t)
    else if c == letters.nkro then (var (a, t1) := Hex8(t); Out([Nkro(a % 2)], t1))
    else if c == letters.palette then PaletteCmd(t)
    else if c == letters.rotary then RotaryCmd(t)
    else if c == HELP then Out([Help], t)
    else if IsEol(c) then Out([], t)
    else Out([], AfterLine(t))
  }

  /** `command_process`: commands one after the other until the input is used up. */
  function Interpret(s: seq<byte>, letters: Letters, key2led: (byte, byte) -> byte): seq<Effect>
    decreases |s|
  {
    if s == [] then []
    else
      var o := Select(s[0], s[1..], letters, key2led);
      o.effects + Interpret(o.rest, letters, key2led)
  }

  /** Interpreting a command letter followed by the rest of the input. */
  lemma InterpretStep(e: seq<Effect>, c: byte, t: seq<byte>, letters: Letters, key2led: (byte, byte) -> byte)
    ensures e + Interpret([c] + t, letters, key2led) ==
      (e + Select(c, t, letters, key2led).effects) + Interpret(Select(c, t, letters, key2led).rest, letters, key2led)
  {
    assert ([c] + t)[0] == c && ([c] + t)[1..] == t;
  }

  /** Line ends between commands are dropped. */
  lemma EolIgnored(c: byte, s: seq<byte>, letters: Letters, key2led: (byte, byte) -> byte)
    requires letters.Distinct() && IsEol(c)
    ensures Interpret([c] + s, letters, key2led) == Interpret(s, letters, key2led)
  {
    var labels := letters.Labels();
    var k := if c == NL then 17 else 18;
    assert labels[k] == c;
    var cmds := letters.Commands();
    assert labels[k] == c;
    forall i | 0 <= i < 16
      ensures cmds[i] != c
    {
      assert labels[i] == cmds[i] && labels[i] != labels[k];
    }
    assert c !in cmds;
    assert Select(c, s, letters, key2led) == Out([], s);
    assert ([c] + s)[0] == c && ([c] + s)[1..] == s;
  }

  /** A byte that is no command loses sync: the rest of its line is skipped. */
  lemma Resync(c: byte, p: seq<byte>, rest: seq<byte>, letters: Letters, key2led: (byte, byte) -> byte)
    requires c !in letters.Labels() && NL !in p
    ensures Interpret([c] + (p + [NL] + rest), letters, key2led) == Interpret(rest, letters, key2led)
  {
    assert ([c] + (p + [NL] + rest))[1..] == p + [NL] + rest;
    SkipLineAfterNewline(p, rest);
  }

  /** The volume setter round trip: four digits give the 16-bit volume, high byte first. */
  lemma VolumeRoundTrip(v: u16, upper: bool, rest: seq<byte>)
    ensures DisplayCmd([Light.LIGHT_VOLUME] + HexByte(v / 0x100, upper) + HexByte(v % 0x100, upper) + rest) == Out([Volume(v)], rest)
  {
    var s := [Light.LIGHT_VOLUME] + HexByte(v / 0x100, upper) + HexByte(v % 0x100, upper) + rest;
    assert s[1..] == HexByte(v / 0x100, upper) + (HexByte(v % 0x100, upper) + rest);
    ReadHexByte(v / 0x100, upper, HexByte(v % 0x100, upper) + rest);
    ReadHexByte(v % 0x100, upper, rest);
  }

  /** An event as the protocol sends it: type and three arguments, two digits each. */
  function EventHex(e: Event, upper: bool): (s: seq<byte>)
    ensures |s| == 8
  {
    HexByte(e.kind, upper) + HexByte(e.num1, upper) + HexByte(e.num2, upper) + HexByte(e.num3, upper)
  }

  /** Reading the eight digits of an event gives that event back. */
  lemma EventRoundTrip(e: Event, upper: bool, rest: seq<byte>)
    ensures EventArgs(EventHex(e, upper) + rest) == (e, rest)
  {
    var s := EventHex(e, upper) + rest;
    assert s == HexByte(e.kind, upper) + (HexByte(e.num1, upper) + (HexByte(e.num2, upper) + (HexByte(e.num3, upper) + rest)));
    ReadHexByte(e.kind, upper, HexByte(e.num1, upper) + (HexByte(e.num2, upper) + (HexByte(e.num3, upper) + rest)));
    ReadHexByte(e.num1, upper, HexByte(e.num2, upper) + (HexByte(e.num3, upper) + rest));
    ReadHexByte(e.num2, upper, HexByte(e.num3, upper) + rest);
    ReadHexByte(e.num3, upper, rest);
  }

  /** The keymap setter round trip: layer, row, column and event come back as one keymap write. */
  lemma KeymapRoundTrip(l: byte, r: byte, c: byte, e: Event, upper: bool, rest: seq<byte>)
    ensures KeymapCmd(HexByte(l, upper) + HexByte(r, upper) + HexByte(c, upper) + EventHex(e, upper) + rest) ==
      Out([KeymapCell(l, r, c, e)], rest)
  {
    var s := HexByte(l, upper) + HexByte(r, upper) + HexByte(c, upper) + EventHex(e, upper) + rest;
    assert s == HexByte(l, upper) + (HexByte(r, upper) + (HexByte(c, upper) + (EventHex(e, upper) + rest)));
    ReadHexByte(l, upper, HexByte(r, upper) + (HexByte(c, upper) + (EventHex(e, upper) + rest)));
    ReadHexByte(r, upper, HexByte(c, upper) + (EventHex(e, upper) + rest));
    ReadHexByte(c, upper, EventHex(e, upper) + rest);
    EventRoundTrip(e, upper, rest);
  }

  /** The light setter round trip: layer, row, column and light type come back as one light-map write. */
  lemma LightRoundTrip(l: byte, r: byte, c: byte, v: byte, upper: bool, rest: seq<byte>)
    ensures LightCmd(HexByte(l, upper) + HexByte(r, upper) + HexByte(c, upper) + HexByte(v, upper) + rest) ==
      Out([LightCell(l, r, c, v)], rest)
  {
    var s := HexByte(l, upper) + HexByte(r, upper) + HexByte(c, upper) + HexByte(v, upper) + rest;
    assert s == HexByte(l, upper) + (HexByte(r, upper) + (HexByte(c, upper) + (HexByte(v, upper) + rest)));
    ReadHexByte(l, upper, HexByte(r, upper) + (HexByte(c, upper) + (HexByte(v, upper) + rest)));
    ReadHexByte(r, upper, HexByte(c, upper) + (HexByte(v, upper) + rest));
    ReadHexByte(c, upper, HexByte(v, upper) + rest);
    ReadHexByte(v, upper, rest);
  }

  /** The rotary setter round trip: layer, direction and event come back as one rotary-table write. */
  lemma RotaryRoundTrip(l: byte, d: byte, e: Event, upper: bool, rest: seq<byte>)
    ensures RotaryCmd(HexByte(l, upper) + HexByte(d, upper) + EventHex(e, upper) + rest) == Out([RotaryCell(l, d, e)], rest)
  {
    var s := HexByte(l, upper) + HexByte(d, upper) + EventHex(e, upper) + rest;
    assert s == HexByte(l, upper) + (HexByte(d, upper) + (EventHex(e, upper) + rest));
    ReadHexByte(l, upper, HexByte(d, upper) + (EventHex(e, upper) + rest));
    ReadHexByte(d, upper, EventHex(e, upper) + rest);
    EventRoundTrip(e, upper, rest);
  }

  /** The palette setter round trip: number, the 16-bit hue high byte first, saturation and value. */
  lemma PaletteRoundTrip(n: byte, hsv: Hsv, upper: bool, rest: seq<byte>)
    ensures PaletteCmd(HexByte(n, upper) + HexByte(hsv.h / 0x100, upper) + HexByte(hsv.h % 0x100, upper) +
      HexByte(hsv.s, upper) + HexByte(hsv.v, upper) + rest) == Out([PaletteEntry(n, hsv)], rest)
  {
    var t4 := HexByte(hsv.v, upper) + rest;
    var t3 := HexByte(hsv.s, upper) + t4;
    var t2 := HexByte(hsv.h % 0x100, upper) + t3;
    var t1 := HexByte(hsv.h / 0x100, upper) + t2;
    var s := HexByte(n, upper) + HexByte(hsv.h / 0x100, upper) + HexByte(hsv.h % 0x100, upper) +
      HexByte(hsv.s, upper) + HexByte(hsv.v, upper) + rest;
    assert s == HexByte(n, upper) + t1;
    ReadHexByte(n, upper, t1);
    ReadHexByte(hsv.h / 0x100, upper, t2);
    ReadHexByte(hsv.h % 0x100, upper, t3);
    ReadHexByte(hsv.s, upper, t4);
    ReadHexByte(hsv.v, upper, rest);
  }

  /** The desktop setter round trip: the screen comes first, then the display. */
  lemma DesktopRoundTrip(screen: byte, display: byte, upper: bool, rest: seq<byte>)
    ensures DisplayCmd([Light.LIGHT_DESKTOP] + HexByte(screen, upper) + HexByte(display, upper) + rest) ==
      Out([Desktop(screen, display)], rest)
  {
    var s := [Light.LIGHT_DESKTOP] + HexByte(screen, upper) + HexByte(display, upper) + rest;
    assert s[1..] == HexByte(screen, upper) + (HexByte(display, upper) + rest);
    ReadHexByte(screen, upper, HexByte(display, upper) + rest);
    ReadHexByte(display, upper, rest);
  }

  /** The serial interpreter: the unread input ring and the calls made so far. */
  class Interpreter {
    const letters: Letters
    const key2led: (byte, byte) -> byte
    /** The unread contents of the input ring. */
    var input: seq<byte>
    /** The calls made so far, oldest first. */
    var effects: seq<Effect>

    constructor (l: Letters, k2l: (byte, byte) -> byte, s: seq<byte>)
      ensures letters == l && key2led == k2l && input == s && effects == []
    {
      letters, key2led := l, k2l;
      input, effects := s, [];
    }

    /** `ring_read_ch`: the next byte, or nothing when the ring is empty. */
    method ReadCh() returns (c: Option<byte>)
      modifies this
      ensures effects == old(effects)
      ensures old(input) == [] ==> c == None && input == []
      ensures old(input) != [] ==> c == Some(old(input)[0]) && input == old(input)[1..]
    {
      if input == [] {
        return None;
      }
      c := Some(input[0]);
      input := input[1..];
    }

    /** `read_hex_8` */
    method ReadHex8() returns (b: byte)
      modifies this
      ensures effects == old(effects)
      ensures (b, input) == Hex8(old(input))
    {
      b := 0;
      var c := ReadCh();
      if c.Some? {
        b := HexDigit(c.value) * 16;
        c := ReadCh();
        if c.Some? {
          // the low nibble of b is zero, so the C `|=` adds the digit
          b := b + HexDigit(c.value);
        }
      }
    }

    /** `ring_skip_line` */
    method SkipLine()
      modifies this
      ensures effects == old(effects)
      ensures input == AfterLine(old(input))
    {
      var c := ReadCh();
      while c.Some? && c.value != NL
        invariant effects == old(effects)
        invariant c.None? ==> input == []
        invariant AfterLine(old(input)) == if c.Some? && c.value != NL then AfterLine(input) else input
        decreases |input| + if c.Some? then 1 else 0
      {
        c := ReadCh();
      }
    }

    /** One iteration of the loops of `command_set_color` and `command_set_backcolor`. */
    method SetPixel(n: byte)
      modifies this
      ensures effects == old(effects) + PixelCmd(old(input), n).effects
      ensures input == PixelCmd(old(input), n).rest
    {
      effects := effects + [Override(n)];
      var red := ReadHex8();
      var green := ReadHex8();
      var blue := ReadHex8();
      effects := effects + [Pixel(n, Rgb(red, green, blue))];
    }

    /** `command_set_backcolor`: LEDs 25 to 32, six digits each. */
    method SetBackcolor()
      modifies this
      ensures effects == old(effects) + PixelRun(old(input), BacklightIds()).effects
      ensures input == PixelRun(old(input), BacklightIds()).rest
    {
      ghost var ids := BacklightIds();
      var n: byte := Config.RGB_BACKLIGHT_OFFSET;
      while n < Config.RGB_ALL_NUM
        invariant Config.RGB_BACKLIGHT_OFFSET <= n <= Config.RGB_ALL_NUM
        invariant effects + PixelRun(input, ids[n - 25..]).effects == old(effects) + PixelRun(old(input), ids).effects
        invariant PixelRun(input, ids[n - 25..]).rest == PixelRun(old(input), ids).rest
      {
        PixelRunAdvance(effects, input, ids, n - 25);
        assert ids[n - 25] == n;
        SetPixel(n);
        n := n + 1;
      }
    }

    /** `command_set_color`: the LEDs of the keys, row by row, six digits each. */
    method SetColor()
      modifies this
      ensures effects == old(effects) + PixelRun(old(input), KeyIds(key2led)).effects
      ensures input == PixelRun(old(input), KeyIds(key2led)).rest
    {
      ghost var ids := KeyIds(key2led);
      var r: byte := 0;
      while r < Config.ROWS_NUM
        invariant r <= Config.ROWS_NUM
        invariant effects + PixelRun(input, ids[5 * r..]).effects == old(effects) + PixelRun(old(input), ids).effects
        invariant PixelRun(input, ids[5 * r..]).rest == PixelRun(old(input), ids).rest
      {
        SetColorRow(r);
        r := r + 1;
      }
    }

    /** One iteration of the outer loop of `command_set_color`: the keys of row r. */
    method SetColorRow(r: byte)
      requires r < Config.ROWS_NUM
      modifies this
      ensures effects + PixelRun(input, KeyIds(key2led)[5 * r + 5..]).effects ==
        old(effects) + PixelRun(old(input), KeyIds(key2led)[5 * r..]).effects
      ensures PixelRun(input, KeyIds(key2led)[5 * r + 5..]).rest == PixelRun(old(input), KeyIds(key2led)[5 * r..]).rest
    {
      ghost var ids := KeyIds(key2led);
      var c: byte := 0;
      while c < Config.COLS_NUM
        invariant c <= Config.COLS_NUM
        invariant effects + PixelRun(input, ids[5 * r + c..]).effects == old(effects) + PixelRun(old(input), ids[5 * r..]).effects
        invariant PixelRun(input, ids[5 * r + c..]).rest == PixelRun(old(input), ids[5 * r..]).rest
      {
        var n := key2led(r, c);
        KeyIdAt(key2led, r, c);
        PixelRunAdvance(effects, input, ids, 5 * r + c);
        SetPixel(n);
        c := c + 1;
      }
    }

    /** The dump command. */
    method Dump()
      modifies this
      ensures effects == old(effects) + DumpCmd(old(input), letters).effects
      ensures input == DumpCmd(old(input), letters).rest
    {
      var c := ReadCh();
      if c.Some? {
        var d := c.value;
        if d == letters.dumpKeymap || d == letters.dumpLight || d == letters.dumpRotary || d == letters.dumpPalette {
          effects := effects + [Effect.Dump(d)];
        }
      }
    }

    /** `command_set_light_volume` */
    method SetLightVolume()
      modifies this
      ensures effects == old(effects) + VolumeCmd(old(input)).effects
      ensures input == VolumeCmd(old(input)).rest
    {
      var hi := ReadHex8();
      var lo := ReadHex8();
      effects := effects + [Volume(hi as int * 0x100 + lo)];
    }

    /** The display command and its four setters. */
    method SetDisplay()
      modifies this
      ensures effects == old(effects) + DisplayCmd(old(input)).effects
      ensures input == DisplayCmd(old(input)).rest
    {
      var c := ReadCh();
      if c.Some? {
        var d := c.value;
        if d == Light.LIGHT_DESKTOP {
          var ascreen := ReadHex8();
          var adisplay := ReadHex8();
          effects := effects + [Desktop(ascreen, adisplay)];
        } else if d == Light.LIGHT_MIC_MUTE {
          var astate := ReadHex8();
          effects := effects + [MicMute(astate)];
        } else if d == Light.LIGHT_MUTE {
          var astate := ReadHex8();
          effects := effects + [Mute(astate)];
        } else if d == Light.LIGHT_VOLUME {
          SetLightVolume();
        }
      }
    }

    /** Type and three arguments of an event. */
    method ReadEvent() returns (event: Event)
      modifies this
      ensures effects == old(effects)
      ensures (event, input) == EventArgs(old(input))
    {
      var kind := ReadHex8();
      var num1 := ReadHex8();
      var num2 := ReadHex8();
      var num3 := ReadHex8();
      event := Event(kind, num1, num2, num3);
    }

    /** `command_set_keymap` */
    method SetKeymap()
      modifies this
      ensures effects == old(effects) + KeymapCmd(old(input)).effects
      ensures input == KeymapCmd(old(input)).rest
    {
      var alayer := ReadHex8();
      var arow := ReadHex8();
      var acolumn := ReadHex8();
      var event := ReadEvent();
      effects := effects + [KeymapCell(alayer, arow, acolumn, event)];
    }

    /** `command_set_light` */
    method SetLight()
      modifies this
      ensures effects == old(effects) + LightCmd(old(input)).effects
      ensures input == LightCmd(old(input)).rest
    {
      var alayer := ReadHex8();
      var arow := ReadHex8();
      var acolumn := ReadHex8();
      var avalue := ReadHex8();
      effects := effects + [LightCell(alayer, arow, acolumn, avalue)];
    }

    /** `command_set_rotary` */
    method SetRotary()
      modifies this
      ensures effects == old(effects) + RotaryCmd(old(input)).effects
      ensures input == RotaryCmd(old(input)).rest
    {
      var alayer := ReadHex8();
      var adirection := ReadHex8();
      var event := ReadEvent();
      effects := effects + [RotaryCell(alayer, adirection, event)];
    }

    /** `command_set_palette` */
    method SetPalette()
      modifies this
      ensures effects == old(effects) + PaletteCmd(old(input)).effects
      ensures input == PaletteCmd(old(input)).rest
    {
      var anumber := ReadHex8();
      var hi := ReadHex8();
      var lo := ReadHex8();
      var sat := ReadHex8();
      var val := ReadHex8();
      effects := effects + [PaletteEntry(anumber, Hsv(hi as int * 0x100 + lo, sat, val))];
    }

    /** `command_set_macro`: the phrase is collected in a buffer of `SERIAL_BUF_SIZEIN` bytes. */
    method SetMacro()
      modifies this
      ensures effects == old(effects) + MacroCmd(old(input)).effects
      ensures input == MacroCmd(old(input)).rest
    {
      var number := ReadHex8();
      ghost var start := input;
      var buffer := new byte[Config.SERIAL_BUF_SIZEIN];
      var len := 0;
      while true
        invariant len < Config.SERIAL_BUF_SIZEIN && effects == old(effects)
        invariant MacroScan(start, number, []) == MacroScan(input, number, buffer[..len])
        decreases |input|
      {
        ghost var t := input;
        var c := ReadCh();
        if c.None? {
          return;
        }
        var d := c.value;
        ghost var buf := buffer[..len];
        assert t == [d] + input;
        if IsEol(d) && len > 0 {
          assert t[0] == d && t[1..] == input;
          effects := effects + [Macro(number, buffer[..len])];
          return;
        }
        buffer[len] := d;
        len := len + 1;
        assert buffer[..len] == buf + [d];
        if len >= Config.SERIAL_BUF_SIZEIN {
          assert t[0] == d && t[1..] == input;
          return;
        }
        MacroScanStep(d, input, number, buf);
      }
    }

    /** `command_set_nkro` */
    method SetNkro()
      modifies this
      ensures effects == old(effects) + [Nkro(Hex8(old(input)).0 % 2)]
      ensures input == Hex8(old(input)).1
    {
      var aenable := ReadHex8();
      // `aenable & 1` on an unsigned byte is its remainder modulo 2
      effects := effects + [Nkro(aenable % 2)];
    }

    /** One case of the switch in `command_process`, after letter c was read. */
    method Dispatch(c: byte)
      modifies this
      ensures effects == old(effects) + Select(c, old(input), letters, key2led).effects
      ensures input == Select(c, old(input), letters, key2led).rest
    {
      if c == letters.flashClear {
        effects := effects + [FlashClear];
      } else if c == letters.flashLoad {
        effects := effects + [FlashLoad];
      } else if c == letters.flashSave {
        effects := effects + [FlashSave];
      } else if c == letters.identify {
        effects := effects + [Identify];
      } else if c == letters.backcolor {
        SetBackcolor();
      } else if c == letters.color {
        SetColor();
      } else if c == letters.dump {
        Dump();
      } else if c == letters.display {
        SetDisplay();
      } else if c == letters.intensity {
        var a := ReadHex8();
        effects := effects + [Intensity(a)];
      } else if c == letters.keymap {
        SetKeymap();
      } else if c == letters.light {
        SetLight();
      } else if c == letters.macroClear {
        effects := effects + [MacroClear];
      } else if c == letters.macroSet {
        SetMacro();
      } else if c == letters.nkro {
        SetNkro();
      } else if c == letters.palette {
        SetPalette();
      } else if c == letters.rotary {
        SetRotary();
      } else if c == HELP {
        effects := effects + [Help];
      } else if IsEol(c) {
      } else {
        SkipLine();
      }
    }

    /** `command_process`: commands are read and run until the ring is empty. */
    method Process()
      modifies this
      ensures input == []
      ensures effects == old(effects) + Interpret(old(input), letters, key2led)
    {
      var c := ReadCh();
      while c.Some?
        invariant c.None? ==> input == []
        invariant old(effects) + Interpret(old(input), letters, key2led) ==
          effects + Interpret((if c.Some? then [c.value] else []) + input, letters, key2led)
        decreases |input| + if c.Some? then 1 else 0
      {
        var d := c.value;
        InterpretStep(effects, d, input, letters, key2led);
        ghost var rest := Select(d, input, letters, key2led).rest;
        Dispatch(d);
        c := ReadCh();
        assert (if c.Some? then [c.value] else []) + input == rest;
      }
    }
  }
}
