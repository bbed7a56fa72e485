/**
 * The colour palette (palette.c): a table of `PALETTE_NUM` colours that
 * wraps around on reading and is bounds-checked on writing.
 */
module Palette {
  import opened Types
  import Arith

  /** Named palette slots (palette.h). */
  const COLOR_OFF: byte := 0
  const COLOR_ON: byte := 1
  const COLOR_FORWARD: byte := 2
  const COLOR_BACKWARD: byte := 3
  const COLOR_BACKGROUND: byte := 4
  /** The first desktop colour. */
  const COLOR_1: byte := 5
  /** The first layer colour. */
  const COLOR_6: byte := 10
  /** The macro colour. */
  const COLOR_10: byte := 14

  /**
   * The initial palette entries as arguments of the `HSV()` macro: hue in
   * degrees (the names of palette.h, 15 degrees apart), saturation, value. In order: black,
   * white, lime, vermilion, amber, chartreuse, yellow, rose, violet,
   * azure, magenta, volta, cyan, spring, crimson.
   */
  const INITIAL: seq<(nat, byte, byte)> := [
    (0, 0, 0), (0, 0, 0xff),
    (75, 0xff, 0xff), (15, 0xff, 0xff),
    (45, 0xff, 0xff),
    (90, 0xff, 0xff), (60, 0xff, 0xff), (330, 0xff, 0xff), (270, 0xff, 0xff), (210, 0xff, 0xff),
    (300, 0xff, 0xff), (255, 0xff, 0xff), (180, 0xff, 0xff), (150, 0xff, 0xff), (345, 0xff, 0xff)
  ]

  /** `palette_get` on the palette contents: the slot of the colour number modulo the palette size. */
  function Lookup(slots: seq<Hsv>, c: byte): (h: Hsv)
    requires |slots| > 0
    ensures h in slots
    ensures c < |slots| ==> h == slots[c]
  {
    slots[c % |slots|]
  }

  /** Reading wraps around: colour numbers one palette size apart read the same slot. */
  lemma LookupPeriodic(slots: seq<Hsv>, c: byte, d: byte)
    requires |slots| > 0 && d == c + |slots|
    ensures Lookup(slots, c) == Lookup(slots, d)
  {
    Arith.ModShift(c, |slots|);
  }

  /**
   * After slot c is written with x, reading c gives x, and reading any
   * colour number that maps to another slot gives what it gave before.
   */
  lemma LookupAfterStore(slots: seq<Hsv>, c: byte, x: Hsv, d: byte)
    requires c < |slots|
    ensures Lookup(slots[c := x], c) == x
    ensures d % |slots| != c ==> Lookup(slots[c := x], d) == Lookup(slots, d)
  {
  }

  /** `palette[PALETTE_NUM]`. */
  class Table {
    /** `PALETTE_NUM`, whose value is not part of this model; the initializer needs at least 15 slots. */
    const size: nat
    const slots: array<Hsv>

    ghost predicate Valid()
      reads this
    {
      size >= |INITIAL| && slots.Length == size
    }

    /**
     * The initialised table: the listed colours through the `HSV()` macro
     * (passed in), and zeroed slots after them.
     */
    constructor (n: nat, hsv: (nat, byte, byte) -> Hsv)
      requires n >= |INITIAL|
      ensures Valid() && size == n && fresh(slots)
      ensures slots[..] == seq(n, i requires 0 <= i < n => if i < |INITIAL| then hsv(INITIAL[i].0, INITIAL[i].1, INITIAL[i].2) else Hsv(0, 0, 0))
    {
      size := n;
      slots := new Hsv[n](i requires 0 <= i < n => if i < |INITIAL| then hsv(INITIAL[i].0, INITIAL[i].1, INITIAL[i].2) else Hsv(0, 0, 0));
    }

    /** `palette_get`. */
    function Get(c: byte): (h: Hsv)
      requires Valid()
      reads this, slots
      ensures h in slots[..]
      ensures c < slots.Length ==> h == slots[c]
    {
      Lookup(slots[..], c)
    }

    /** `palette_set`: a colour number past the end is rejected and nothing changes. */
    method Set(c: byte, hsv: Hsv)
      requires Valid()
      modifies slots
      ensures Valid()
      ensures c >= size ==> slots[..] == old(slots[..])
      ensures c < size ==> slots[..] == old(slots[..])[c := hsv]
      ensures c < size ==> Get(c) == hsv
    {
      if c >= size {
        return;
      }
      slots[c] := hsv;
    }
  }
}
