/**
 * The one-wire LED line code shared by rgbpixel.c and sk6812.c.
 *
 * Every data bit of a colour byte goes out as three SPI bits `1 d 0`, so
 * one colour byte needs three SPI bytes (a Word). The framing bits are
 * preset once; rendering stores only the eight data bits, one bit at a
 * time (the bit-band stores), so the framing survives every render.
 * Within an LED the bytes are sent green, red, blue, most significant bit
 * first.
 */
module SpiEncoding {
  import opened Types

  /** The three SPI bytes carrying one colour byte. */
  datatype Word = Word(b0: bv8, b1: bv8, b2: bv8)

  /** The framing bits of byte k of a word: the `1` and `0` of every symbol. */
  function Preset(k: nat): bv8
    requires k < 3
  {
    if k == 0 then 0x92 else if k == 1 then 0x49 else 0x24
  }

  /** The bits of byte k of a word that carry data. */
  function DataMask(k: nat): bv8
    requires k < 3
  {
    if k == 0 then 0x49 else if k == 1 then 0x24 else 0x92
  }

  /** The byte with only bit k set. */
  function BitMask(k: nat): bv8
    requires k < 8
  {
    if k == 0 then 0x01 else if k == 1 then 0x02 else if k == 2 then 0x04 else if k == 3 then 0x08
    else if k == 4 then 0x10 else if k == 5 then 0x20 else if k == 6 then 0x40 else 0x80
  }

  function TestBit(x: bv8, k: nat): bool
    requires k < 8
  {
    x & BitMask(k) != 0
  }

  /** One bit-band store: bit k of b becomes d. */
  function SetBit(b: bv8, k: nat, d: bool): bv8
    requires k < 8
  {
    if d then b | BitMask(k) else b & !BitMask(k)
  }

  /**
   * The bit stores that land in byte k of a word when colour byte x is
   * rendered: byte 2 receives bits 0, 1, 2 of x at bits 1, 4, 7; byte 1
   * receives bits 3, 4 at bits 2, 5; byte 0 receives bits 5, 6, 7 at bits
   * 0, 3, 6.
   */
  function StoreByte(b: bv8, x: bv8, k: nat): bv8
    requires k < 3
  {
    if k == 0 then SetBit(SetBit(SetBit(b, 0, TestBit(x, 5)), 3, TestBit(x, 6)), 6, TestBit(x, 7))
    else if k == 1 then SetBit(SetBit(b, 2, TestBit(x, 3)), 5, TestBit(x, 4))
    else SetBit(SetBit(SetBit(b, 1, TestBit(x, 0)), 4, TestBit(x, 1)), 7, TestBit(x, 2))
  }

  function Store(w: Word, x: bv8): Word
  {
    Word(StoreByte(w.b0, x, 0), StoreByte(w.b1, x, 1), StoreByte(w.b2, x, 2))
  }

  /** Byte k of a word holds the preset framing bits. */
  predicate FramedByte(b: bv8, k: nat)
    requires k < 3
  {
    b & !DataMask(k) == Preset(k)
  }

  /** A word whose framing bits hold the preset pattern. */
  predicate Framed(w: Word)
  {
    FramedByte(w.b0, 0) && FramedByte(w.b1, 1) && FramedByte(w.b2, 2)
  }

  /** Reading the middle bit of every symbol back into a byte. */
  function Decode(w: Word): bv8
  {
    (((w.b0 >> 6) & 1) << 7) | (((w.b0 >> 3) & 1) << 6) | ((w.b0 & 1) << 5) |
    (((w.b1 >> 5) & 1) << 4) | (((w.b1 >> 2) & 1) << 3) |
    (((w.b2 >> 7) & 1) << 2) | (((w.b2 >> 4) & 1) << 1) | ((w.b2 >> 1) & 1)
  }

  /** The 24 line bits a word produces: its bytes in order, each most significant bit first. */
  function Stream(w: Word): seq<bool>
  {
    [TestBit(w.b0, 7), TestBit(w.b0, 6), TestBit(w.b0, 5), TestBit(w.b0, 4),
     TestBit(w.b0, 3), TestBit(w.b0, 2), TestBit(w.b0, 1), TestBit(w.b0, 0),
     TestBit(w.b1, 7), TestBit(w.b1, 6), TestBit(w.b1, 5), TestBit(w.b1, 4),
     TestBit(w.b1, 3), TestBit(w.b1, 2), TestBit(w.b1, 1), TestBit(w.b1, 0),
     TestBit(w.b2, 7), TestBit(w.b2, 6), TestBit(w.b2, 5), TestBit(w.b2, 4),
     TestBit(w.b2, 3), TestBit(w.b2, 2), TestBit(w.b2, 1), TestBit(w.b2, 0)]
  }

  /**
   * The waveform the LED expects for colour byte x: for each bit d, most
   * significant first, the symbol high, d, low.
   */
  function Symbols(x: bv8): seq<bool>
  {
    [true, TestBit(x, 7), false, true, TestBit(x, 6), false, true, TestBit(x, 5), false,
     true, TestBit(x, 4), false, true, TestBit(x, 3), false, true, TestBit(x, 2), false,
     true, TestBit(x, 1), false, true, TestBit(x, 0), false]
  }

  // ---------------------------------------------------------------------
  // Properties of the stores

  /**
   * The eight stores put bits 7, 6, 5 of x at bits 6, 3, 0 of byte 0,
   * bits 4, 3 at bits 5, 2 of byte 1 and bits 2, 1, 0 at bits 7, 4, 1 of
   * byte 2, and leave every other bit as it was.
   */
  function PlacedByte(b: bv8, x: bv8, k: nat): bv8
    requires k < 3
  {
    if k == 0 then (b & !0x49) | (((x >> 7) & 1) << 6) | (((x >> 6) & 1) << 3) | ((x >> 5) & 1)
    else if k == 1 then (b & !0x24) | (((x >> 4) & 1) << 5) | (((x >> 3) & 1) << 2)
    else (b & !0x92) | (((x >> 2) & 1) << 7) | (((x >> 1) & 1) << 4) | ((x & 1) << 1)
  }

  /** The bit-by-bit stores and the masked placement agree. */
  lemma StoreByteForm(b: bv8, x: bv8, k: nat)
    requires k < 3
    ensures StoreByte(b, x, k) == PlacedByte(b, x, k)
  {
    if k == 0 {
      assert StoreByte(b, x, 0) == PlacedByte(b, x, 0);
    } else if k == 1 {
      assert StoreByte(b, x, 1) == PlacedByte(b, x, 1);
    } else {
      assert StoreByte(b, x, 2) == PlacedByte(b, x, 2);
    }
  }

  /** Byte k of a word keeps its framing bits through a store. */
  lemma StoreByteKeepsFraming(b: bv8, x: bv8, k: nat)
    requires k < 3
    ensures StoreByte(b, x, k) & !DataMask(k) == b & !DataMask(k)
    ensures FramedByte(b, k) ==> FramedByte(StoreByte(b, x, k), k)
  {
    StoreByteForm(b, x, k);
    assert StoreByte(b, x, k) & !DataMask(k) == b & !DataMask(k);
  }

  /** Storing a colour byte changes only the data bits of each SPI byte. */
  lemma StoreKeepsFraming(w: Word, x: bv8)
    ensures Store(w, x).b0 & !DataMask(0) == w.b0 & !DataMask(0)
    ensures Store(w, x).b1 & !DataMask(1) == w.b1 & !DataMask(1)
    ensures Store(w, x).b2 & !DataMask(2) == w.b2 & !DataMask(2)
    ensures Framed(w) ==> Framed(Store(w, x))
  {
    StoreByteKeepsFraming(w.b0, x, 0);
    StoreByteKeepsFraming(w.b1, x, 1);
    StoreByteKeepsFraming(w.b2, x, 2);
  }

  /** The data bits after a store are determined by x alone: decoding gives x back. */
  lemma DecodeStore(w: Word, x: bv8)
    ensures Decode(Store(w, x)) == x
  {
    StoreByteForm(w.b0, x, 0);
    StoreByteForm(w.b1, x, 1);
    StoreByteForm(w.b2, x, 2);
  }

  /** Decoding reads only data bits, so two words that agree on them decode alike. */
  lemma DecodeReadsData(w: Word, w': Word)
    requires w.b0 & DataMask(0) == w'.b0 & DataMask(0)
    requires w.b1 & DataMask(1) == w'.b1 & DataMask(1)
    requires w.b2 & DataMask(2) == w'.b2 & DataMask(2)
    ensures Decode(w) == Decode(w')
  {
  }

  /** On a framed word, the line carries `1 d 0` for every bit d of x, most significant first. */
  lemma Waveform(w: Word, x: bv8)
    requires Framed(w)
    ensures Stream(Store(w, x)) == Symbols(x)
  {
    WaveformByte(w.b0, x, 0);
    WaveformByte(w.b1, x, 1);
    WaveformByte(w.b2, x, 2);
  }

  /** The eight line bits of byte k of a framed word after a store, most significant first. */
  lemma WaveformByte(b: bv8, x: bv8, k: nat)
    requires k < 3 && FramedByte(b, k)
    ensures var s := StoreByte(b, x, k);
      k == 0 ==> (TestBit(s, 7) && TestBit(s, 6) == TestBit(x, 7) && !TestBit(s, 5) && TestBit(s, 4) &&
                  TestBit(s, 3) == TestBit(x, 6) && !TestBit(s, 2) && TestBit(s, 1) && TestBit(s, 0) == TestBit(x, 5))
    ensures var s := StoreByte(b, x, k);
      k == 1 ==> (!TestBit(s, 7) && TestBit(s, 6) && TestBit(s, 5) == TestBit(x, 4) && !TestBit(s, 4) &&
                  TestBit(s, 3) && TestBit(s, 2) == TestBit(x, 3) && !TestBit(s, 1) && TestBit(s, 0))
    ensures var s := StoreByte(b, x, k);
      k == 2 ==> (TestBit(s, 7) == TestBit(x, 2) && !TestBit(s, 6) && TestBit(s, 5) && TestBit(s, 4) == TestBit(x, 1) &&
                  !TestBit(s, 3) && TestBit(s, 2) && TestBit(s, 1) == TestBit(x, 0) && !TestBit(s, 0))
  {
    StoreByteForm(b, x, k);
  }

  // ---------------------------------------------------------------------
  // SPI buffers: 3 bytes per colour byte, 9 per LED, channel order green, red, blue

  /** Colour byte c (0 green, 1 red, 2 blue) of a pixel, in memory order. */
  function Channel(p: Rgb, c: nat): bv8
    requires c < 3
  {
    Bits(if c == 0 then p.g else if c == 1 then p.r else p.b)
  }

  /** The word at byte offset o of a buffer. */
  function WordAt(buf: seq<bv8>, o: nat): Word
    requires o + 3 <= |buf|
  {
    Word(buf[o], buf[o + 1], buf[o + 2])
  }

  /** Every byte of a buffer carries the framing bits of its position. */
  predicate FramedBuffer(buf: seq<bv8>)
  {
    forall j :: 0 <= j < |buf| ==> FramedByte(buf[j], j % 3)
  }

  /** A freshly preset buffer of n LEDs. */
  function PresetBuffer(n: nat): (buf: seq<bv8>)
    ensures |buf| == 9 * n
  {
    seq(9 * n, j => Preset(j % 3))
  }

  /** What rendering a frame stores into a buffer that held `before`. */
  function RenderBuffer(frame: seq<Rgb>, before: seq<bv8>): (buf: seq<bv8>)
    requires |before| == 9 * |frame|
    ensures |buf| == |before|
  {
    seq(|before|, j requires 0 <= j < |before| => RenderedByte(frame, before, j))
  }

  /** Byte j of a rendered buffer: the store of its LED's colour byte into the byte it held. */
  function RenderedByte(frame: seq<Rgb>, before: seq<bv8>, j: nat): bv8
    requires |before| == 9 * |frame| && j < |before|
  {
    StoreByte(before[j], Channel(frame[j / 9], (j % 9) / 3), j % 3)
  }

  /** Byte k of the word of LED i, channel c, in a rendered buffer. */
  lemma RenderedByteAt(frame: seq<Rgb>, before: seq<bv8>, i: nat, c: nat, k: nat)
    requires |before| == 9 * |frame|
    requires i < |frame| && c < 3 && k < 3
    ensures 9 * i + 3 * c + k < |before|
    ensures var j := 9 * i + 3 * c + k;
      RenderedByte(frame, before, j) == StoreByte(before[j], Channel(frame[i], c), k)
  {
    assert 9 * i + 9 <= 9 * |frame|;
    WordOffsets(i, c, k);
  }

  /** RenderedByteAt for the three bytes of a word at once. */
  lemma RenderedWordAt(frame: seq<Rgb>, before: seq<bv8>, i: nat, c: nat)
    requires |before| == 9 * |frame|
    requires i < |frame| && c < 3
    ensures 9 * i + 3 * c + 3 <= |before|
    ensures forall j :: 9 * i + 3 * c <= j < 9 * i + 3 * c + 3 ==>
      RenderedByte(frame, before, j) == StoreByte(before[j], Channel(frame[i], c), j - (9 * i + 3 * c))
  {
    RenderedByteAt(frame, before, i, c, 0);
    RenderedByteAt(frame, before, i, c, 1);
    RenderedByteAt(frame, before, i, c, 2);
  }

  /** Two preset buffers side by side are one preset buffer. */
  lemma PresetBufferConcat(n: nat)
    ensures PresetBuffer(n) + PresetBuffer(n) == PresetBuffer(2 * n)
  {
    var both := PresetBuffer(n) + PresetBuffer(n);
    forall j | 0 <= j < 18 * n
      ensures both[j] == PresetBuffer(2 * n)[j]
    {
      if j >= 9 * n {
        assert (j - 9 * n) % 3 == j % 3;
      }
    }
  }

  /** A double buffer whose two halves are preset buffers is framed. */
  lemma PresetHalvesFramed(area: seq<bv8>, n: nat)
    requires |area| == 18 * n && area[..9 * n] == PresetBuffer(n) && area[9 * n..] == PresetBuffer(n)
    ensures FramedBuffer(area)
  {
    assert area == PresetBuffer(n) + PresetBuffer(n);
    PresetBufferConcat(n);
    PresetBufferFramed(2 * n);
  }

  lemma PresetBufferFramed(n: nat)
    ensures FramedBuffer(PresetBuffer(n))
  {
  }

  /** Rendering into a framed buffer keeps it framed. */
  lemma RenderBufferFramed(frame: seq<Rgb>, before: seq<bv8>)
    requires |before| == 9 * |frame|
    requires FramedBuffer(before)
    ensures FramedBuffer(RenderBuffer(frame, before))
  {
    var after := RenderBuffer(frame, before);
    forall j | 0 <= j < |after|
      ensures FramedByte(after[j], j % 3)
    {
      assert after[j] == RenderedByte(frame, before, j);
      StoreByteKeepsFraming(before[j], Channel(frame[j / 9], (j % 9) / 3), j % 3);
    }
  }

  /** Byte o + k of a buffer belongs to LED i, channel c, when o is the offset of that word. */
  lemma WordOffsets(i: nat, c: nat, k: nat)
    requires c < 3 && k < 3
    ensures var j := 9 * i + 3 * c + k;
      j / 9 == i && (j % 9) / 3 == c && j % 3 == k
  {
  }

  /** The word of LED i, channel c after rendering is the store of that colour byte into the old word. */
  lemma RenderBufferWord(frame: seq<Rgb>, before: seq<bv8>, i: nat, c: nat)
    requires |before| == 9 * |frame|
    requires i < |frame| && c < 3
    ensures 9 * i + 3 * c + 3 <= |before|
    ensures var o := 9 * i + 3 * c;
      WordAt(RenderBuffer(frame, before), o) == Store(WordAt(before, o), Channel(frame[i], c))
  {
    var after := RenderBuffer(frame, before);
    var o := 9 * i + 3 * c;
    var x := Channel(frame[i], c);
    RenderedByteAt(frame, before, i, c, 0);
    RenderedByteAt(frame, before, i, c, 1);
    RenderedByteAt(frame, before, i, c, 2);
    assert after[o] == StoreByte(before[o], x, 0);
    assert after[o + 1] == StoreByte(before[o + 1], x, 1);
    assert after[o + 2] == StoreByte(before[o + 2], x, 2);
  }

  /** Every word of a framed buffer is framed. */
  lemma FramedWordAt(buf: seq<bv8>, i: nat, c: nat)
    requires FramedBuffer(buf)
    requires c < 3 && 9 * i + 3 * c + 3 <= |buf|
    ensures Framed(WordAt(buf, 9 * i + 3 * c))
  {
    var o := 9 * i + 3 * c;
    WordOffsets(i, c, 0);
    WordOffsets(i, c, 1);
    WordOffsets(i, c, 2);
    assert FramedByte(buf[o], 0);
    assert FramedByte(buf[o + 1], 1);
    assert FramedByte(buf[o + 2], 2);
  }

  /**
   * In a rendered framed buffer every word decodes to its colour byte and
   * goes out as that byte's symbols.
   */
  lemma {:induction false} RenderBufferDecodes(frame: seq<Rgb>, before: seq<bv8>, i: nat, c: nat)
    requires |before| == 9 * |frame|
    requires FramedBuffer(before)
    requires i < |frame| && c < 3
    ensures 9 * i + 3 * c + 3 <= |before|
    ensures var w := WordAt(RenderBuffer(frame, before), 9 * i + 3 * c);
      Decode(w) == Channel(frame[i], c) && Stream(w) == Symbols(Channel(frame[i], c))
  {
    RenderBufferWord(frame, before, i, c);
    FramedWordAt(before, i, c);
    FramedStore(WordAt(before, 9 * i + 3 * c), Channel(frame[i], c));
  }

  /** A store into a framed word both decodes to the stored byte and goes out as its symbols. */
  lemma FramedStore(w: Word, x: bv8)
    requires Framed(w)
    ensures Decode(Store(w, x)) == x && Stream(Store(w, x)) == Symbols(x)
  {
    DecodeStore(w, x);
    Waveform(w, x);
  }

  /** LED i of a buffer, read back from the data bits of its three words. */
  function DecodePixel(buf: seq<bv8>, i: nat): Rgb
    requires 9 * i + 9 <= |buf|
  {
    Rgb(Decode(WordAt(buf, 9 * i + 3)) as int, Decode(WordAt(buf, 9 * i)) as int, Decode(WordAt(buf, 9 * i + 6)) as int)
  }

  /** The frame a buffer shows. */
  function DecodeBuffer(buf: seq<bv8>): (frame: seq<Rgb>)
    ensures |frame| == |buf| / 9
  {
    seq(|buf| / 9, i requires 0 <= i < |buf| / 9 => DecodePixel(buf, i))
  }

  /** Decoding a rendered buffer gives back the frame exactly, whatever the buffer held before. */
  lemma {:induction false} RenderRoundTrip(frame: seq<Rgb>, before: seq<bv8>)
    requires |before| == 9 * |frame|
    ensures DecodeBuffer(RenderBuffer(frame, before)) == frame
  {
    var after := RenderBuffer(frame, before);
    forall i | 0 <= i < |frame|
      ensures DecodeBuffer(after)[i] == frame[i]
    {
      DecodeRenderedPixel(frame, before, i);
    }
  }

  lemma DecodeRenderedPixel(frame: seq<Rgb>, before: seq<bv8>, i: nat)
    requires |before| == 9 * |frame| && i < |frame|
    ensures 9 * i + 9 <= |before|
    ensures DecodePixel(RenderBuffer(frame, before), i) == frame[i]
  {
    var after := RenderBuffer(frame, before);
    var p := frame[i];
    RenderBufferWord(frame, before, i, 0);
    RenderBufferWord(frame, before, i, 1);
    RenderBufferWord(frame, before, i, 2);
    DecodeStoreByte(WordAt(before, 9 * i), p.g);
    DecodeStoreByte(WordAt(before, 9 * i + 3), p.r);
    DecodeStoreByte(WordAt(before, 9 * i + 6), p.b);
  }

  /** DecodeStore for a colour byte held as a number. */
  lemma DecodeStoreByte(w: Word, x: byte)
    ensures Decode(Store(w, Bits(x))) as int == x
  {
    DecodeStore(w, Bits(x));
  }

  /** A rendered byte keeps the framing bits its position calls for. */
  lemma RenderedByteFramed(frame: seq<Rgb>, before: seq<bv8>, i: nat)
    requires |before| == 9 * |frame| && i < |before|
    requires FramedByte(before[i], i % 3)
    ensures FramedByte(RenderedByte(frame, before, i), i % 3)
  {
    StoreByteKeepsFraming(before[i], Channel(frame[i / 9], (i % 9) / 3), i % 3);
  }

  /** The buffer of LED n starts on a word boundary. */
  lemma LedAligned(n: nat)
    ensures (9 * n) % 3 == 0
  {
  }

  /** Moving by a multiple of 3 bytes keeps the position within a word. */
  lemma WordAligned(i: nat, off: nat)
    requires off % 3 == 0
    ensures (off + i) % 3 == i % 3
  {
  }

  // ---------------------------------------------------------------------
  // The render and reset loops shared by both drivers

  /** The eight bit-band stores that render one colour byte x into the word at offset o. */
  method StoreColour(spi: array<bv8>, o: nat, x: bv8)
    requires o + 3 <= spi.Length
    modifies spi
    ensures forall j :: o <= j < o + 3 ==> spi[j] == StoreByte(old(spi[j]), x, j - o)
    ensures forall j :: 0 <= j < spi.Length && !(o <= j < o + 3) ==> spi[j] == old(spi[j])
  {
    ghost var b0, b1, b2 := spi[o], spi[o + 1], spi[o + 2];
    spi[o + 2] := SetBit(spi[o + 2], 1, TestBit(x, 0));
    spi[o + 2] := SetBit(spi[o + 2], 4, TestBit(x, 1));
    spi[o + 2] := SetBit(spi[o + 2], 7, TestBit(x, 2));
    assert spi[o + 2] == StoreByte(b2, x, 2);
    spi[o + 1] := SetBit(spi[o + 1], 2, TestBit(x, 3));
    spi[o + 1] := SetBit(spi[o + 1], 5, TestBit(x, 4));
    assert spi[o + 1] == StoreByte(b1, x, 1);
    spi[o] := SetBit(spi[o], 0, TestBit(x, 5));
    spi[o] := SetBit(spi[o], 3, TestBit(x, 6));
    spi[o] := SetBit(spi[o], 6, TestBit(x, 7));
    assert spi[o] == StoreByte(b0, x, 0);
  }

  /**
   * Render every LED of `frame` into the buffer that starts at byte `off`
   * of `spi`; bytes outside that buffer and the frame are untouched.
   */
  method RenderInto(frame: array<Rgb>, spi: array<bv8>, off: nat)
    requires off + 9 * frame.Length <= spi.Length
    modifies spi
    ensures spi[off..off + 9 * frame.Length] == RenderBuffer(frame[..], old(spi[off..off + 9 * frame.Length]))
    ensures forall j :: 0 <= j < spi.Length && !(off <= j < off + 9 * frame.Length) ==> spi[j] == old(spi[j])
    ensures off % 3 == 0 && FramedBuffer(old(spi[..])) ==> FramedBuffer(spi[..])
  {
    ghost var fr := frame[..];
    ghost var area := spi[..];
    ghost var before := spi[off..off + 9 * frame.Length];
    var i := 0;
    while i < frame.Length
      invariant 0 <= i <= frame.Length
      invariant forall j :: off <= j < off + 9 * i ==> spi[j] == RenderedByte(fr, before, j - off)
      invariant forall j :: 0 <= j < spi.Length && !(off <= j < off + 9 * i) ==> spi[j] == old(spi[j])
    {
      RenderPixel(frame, spi, off, i, before);
      i := i + 1;
    }
    forall j | 0 <= j < 9 * frame.Length
      ensures spi[off..off + 9 * frame.Length][j] == RenderBuffer(fr, before)[j]
    {
      assert spi[off + j] == RenderedByte(fr, before, j);
    }
    if off % 3 == 0 && FramedBuffer(area) {
      RenderedAreaFramed(spi, area, before, off, fr);
    }
  }

  /**
   * Rendering a frame into the buffer at byte `off` of a framed SPI area
   * (a word boundary) leaves the whole area framed.
   */
  lemma RenderedAreaFramed(spi: array<bv8>, area: seq<bv8>, before: seq<bv8>, off: nat, fr: seq<Rgb>)
    requires |area| == spi.Length && FramedBuffer(area)
    requires off % 3 == 0 && off + 9 * |fr| <= |area| && before == area[off..off + 9 * |fr|]
    requires forall j :: off <= j < off + 9 * |fr| ==> spi[j] == RenderedByte(fr, before, j - off)
    requires forall j :: 0 <= j < spi.Length && !(off <= j < off + 9 * |fr|) ==> spi[j] == area[j]
    ensures FramedBuffer(spi[..])
  {
    forall j | 0 <= j < spi.Length
      ensures FramedByte(spi[j], j % 3)
    {
      if off <= j < off + 9 * |fr| {
        assert before[j - off] == area[j];
        WordAligned(j - off, off);
        RenderedByteFramed(fr, before, j - off);
      }
    }
  }

  /** The inner loop of the render: the three colour bytes of LED i, green, red, blue. */
  method RenderPixel(frame: array<Rgb>, spi: array<bv8>, off: nat, i: nat, ghost before: seq<bv8>)
    requires i < frame.Length && off + 9 * frame.Length <= spi.Length
    requires |before| == 9 * frame.Length
    requires forall j :: off + 9 * i <= j < off + 9 * i + 9 ==> spi[j] == before[j - off]
    modifies spi
    ensures forall j :: off + 9 * i <= j < off + 9 * i + 9 ==> spi[j] == RenderedByte(frame[..], before, j - off)
    ensures forall j :: 0 <= j < spi.Length && !(off + 9 * i <= j < off + 9 * i + 9) ==> spi[j] == old(spi[j])
  {
    ghost var fr := frame[..];
    assert 9 * i + 9 <= |before|;
    var c := 0;
    while c < 3
      invariant 0 <= c <= 3
      invariant forall j :: off + 9 * i <= j < off + 9 * i + 3 * c ==> spi[j] == RenderedByte(fr, before, j - off)
      invariant forall j :: 0 <= j < spi.Length && !(off + 9 * i <= j < off + 9 * i + 3 * c) ==> spi[j] == old(spi[j])
    {
      var o := 9 * i + 3 * c;
      RenderedWordAt(fr, before, i, c);
      StoreColour(spi, off + o, Channel(frame[i], c));
      c := c + 1;
    }
  }

  /** The framing bytes of one LED: g[0], r[0], b[0], then g[1], r[1], b[1], then g[2], r[2], b[2]. */
  method PresetLed(spi: array<bv8>, o: nat)
    requires o + 9 <= spi.Length
    modifies spi
    ensures forall j :: o <= j < o + 9 ==> spi[j] == Preset((j - o) % 3)
    ensures forall j :: 0 <= j < spi.Length && !(o <= j < o + 9) ==> spi[j] == old(spi[j])
  {
    spi[o] := 0x92;
    spi[o + 3] := 0x92;
    spi[o + 6] := 0x92;
    spi[o + 1] := 0x49;
    spi[o + 4] := 0x49;
    spi[o + 7] := 0x49;
    spi[o + 2] := 0x24;
    spi[o + 5] := 0x24;
    spi[o + 8] := 0x24;
  }

  /** Preset the framing of `n` LEDs of the buffer at byte `off`; the data bits become 0. */
  method PresetInto(spi: array<bv8>, off: nat, n: nat)
    requires off + 9 * n <= spi.Length
    modifies spi
    ensures spi[off..off + 9 * n] == PresetBuffer(n)
    ensures forall j :: 0 <= j < spi.Length && !(off <= j < off + 9 * n) ==> spi[j] == old(spi[j])
  {
    var i := 0;
    while i < n
      invariant 0 <= i <= n
      invariant forall j :: off <= j < off + 9 * i ==> spi[j] == Preset((j - off) % 3)
      invariant forall j :: 0 <= j < spi.Length && !(off <= j < off + 9 * i) ==> spi[j] == old(spi[j])
    {
      var o := off + 9 * i;
      PresetLed(spi, o);
      LedAligned(i);
      forall j | o <= j < o + 9
        ensures spi[j] == Preset((j - off) % 3)
      {
        WordAligned(j - o, 9 * i);
      }
      i := i + 1;
    }
    assert spi[off..off + 9 * n] == PresetBuffer(n);
  }
}
