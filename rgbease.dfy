/**
 * Light adjustments over time (rgbease.c): one record per LED with a
 * target colour, an easing mode, a step counter and a phase; every tick
 * advances each record and converts the colour it shows into the frame,
 * then the frame is rendered once.
 */
module RgbEase {
  import opened Types
  import Config
  import RgbPixel
  import SpiEncoding
  import RgbMap

  /** `LAST_STEP`, the step at which a mode finishes a round (rgbease.h calls it `STEP_LAST`). */
  const LAST_STEP: byte := 0xff

  /** Ticks after which a rotating LED moves its hue on. */
  const ROTATE_TICKS: byte := 60

  /** `(LAST_STEP / RGB_BACKLIGHT_NUM) * 2`: the hue gap between neighbouring rotating LEDs, and each LED's hue increment. */
  const ROTATE_PHASE: byte := (LAST_STEP / Config.RGB_BACKLIGHT_NUM) * 2

  /** The hue gap between neighbouring LEDs of `ease_rainbow`, `HUE_MAX / RGB_ALL_NUM` (see RainbowGap). */
  const RAINBOW_GAP: nat := 46

  /** `scale8`: i * scale / 256, which never exceeds i. */
  function Scale8(i: byte, scale: byte): (r: byte)
    ensures r <= i
    ensures scale == 0 ==> r == 0
  {
    RgbMap.MulMono(i, scale, 0x100);
    (i * scale) / 0x100
  }

  /** Scaling by 0xff loses exactly one step of a nonzero value. */
  lemma Scale8Full(i: byte)
    requires i >= 1
    ensures Scale8(i, 0xff) == i - 1
  {
    assert i * 0xff == 0x100 * (i - 1) + (0x100 - i);
  }

  /** Scaling keeps the order of the scale factors. */
  lemma Scale8Mono(i: byte, s: byte, t: byte)
    requires s <= t
    ensures Scale8(i, s) <= Scale8(i, t)
  {
    RgbMap.MulMono(i, s, t);
    RgbMap.DivMono(i * s, i * t);
  }

  /**
   * `ease8_inoutquad`: the square of the distance to the nearer end,
   * doubled; the upper half is the lower half mirrored.
   */
  function Ease8InOutQuad(i: byte): (o: byte)
    ensures o < 0x80 <==> i < 0x80
  {
    var j := if i >= 0x80 then 0xff - i else i;
    RgbMap.MulBound(j, j, 127, 127);
    RgbMap.DivMono(j * j, 127 * 127);
    var jj2 := Wrap8(2 * Scale8(j, j));
    if i >= 0x80 then 0xff - jj2 else jj2
  }

  /** The lower half of the curve: doubling the square of j < 128 never wraps and gives at most 126. */
  lemma LowerHalf(j: byte)
    requires j < 0x80
    ensures Ease8InOutQuad(j) == 2 * Scale8(j, j) <= 126
  {
    RgbMap.MulBound(j, j, 127, 127);
    RgbMap.DivMono(j * j, 127 * 127);
  }

  /** The curve starts at 0 and ends at 0xff. */
  lemma Ease8Endpoints()
    ensures Ease8InOutQuad(0) == 0 && Ease8InOutQuad(0xff) == 0xff
  {
  }

  /** The curve is point-symmetric about its middle. */
  lemma Ease8Symmetric(i: byte)
    ensures Ease8InOutQuad(0xff - i) == 0xff - Ease8InOutQuad(i)
  {
    if i < 0x80 {
      LowerHalf(i);
    } else {
      LowerHalf(0xff - i);
    }
  }

  /** The curve never decreases. */
  lemma Ease8Monotone(i: byte, k: byte)
    requires i <= k
    ensures Ease8InOutQuad(i) <= Ease8InOutQuad(k)
  {
    if k < 0x80 {
      LowerHalf(i);
      LowerHalf(k);
      RgbMap.MulBound(i, i, k, k);
      RgbMap.DivMono(i * i, k * k);
    } else if i >= 0x80 {
      LowerHalf(0xff - i);
      LowerHalf(0xff - k);
      RgbMap.MulBound(0xff - k, 0xff - k, 0xff - i, 0xff - i);
      RgbMap.DivMono((0xff - k) * (0xff - k), (0xff - i) * (0xff - i));
    } else {
      LowerHalf(i);
      LowerHalf(0xff - k);
    }
  }

  // ---------------------------------------------------------------------
  // One LED

  /**
   * The easing modes: the seven codes of rgbease.h and the four further
   * modes rgbease.c handles.
   */
  datatype Mode =
    | Nop | ColorFlash | ColorHold | Brighten | Dim | Rainbow | Backlight
    | EaseQuadIn | EaseQuadOut | Blip | RotateForward

  /** `rgbease`: the state of one LED. */
  datatype Led = Led(target: Hsv, f: Mode, step: byte, phase: byte)

  /** The zeroed record of `ease_init`. */
  const Off: Led := Led(Hsv(0, 0, 0), Nop, 0, 0)

  /** The record of one LED after a tick of `ease_advance`. */
  function NextLed(led: Led): Led
  {
    var next := Wrap8(led.step + 1);
    var last := next == LAST_STEP;
    match led.f
    case Nop => led
    case EaseQuadIn => led.(step := next, f := if last then EaseQuadOut else EaseQuadIn)
    case EaseQuadOut => led.(step := next, f := if last then EaseQuadIn else EaseQuadOut)
    case Dim => led.(step := next, f := if last then Nop else Dim)
    case Brighten => led.(step := next, f := if last then Nop else Brighten)
    case Rainbow =>
      var phase := if last then Wrap8(led.phase - 1) else led.phase;
      Led(RgbMap.RainbowStep(led.target), if last && phase == 0 then Dim else Rainbow, next, phase)
    case Blip =>
      var raised := Wrap8(led.step + 3);
      var phase := if raised == LAST_STEP then Wrap8(led.phase + 1) else led.phase;
      led.(step := if raised == LAST_STEP then 0 else raised, phase := phase, f := if phase == 2 then Nop else Blip)
    case RotateForward =>
      if next == ROTATE_TICKS then led.(step := 0, target := RotateStep(led.target, led.phase))
      else led.(step := next)
    case ColorFlash => led
    case ColorHold => led
    case Backlight => led
  }

  /**
   * What a tick can do to a record: a finished LED stays as it is; only
   * rainbow and rotating LEDs change their colour; only dimming,
   * brightening and blipping LEDs finish, and only a dimming LED or a
   * rainbow whose rounds are used up starts to dim.
   */
  lemma NextLedKinds(led: Led)
    ensures led.f == Nop ==> NextLed(led) == led
    ensures led.f != Rainbow && led.f != RotateForward ==> NextLed(led).target == led.target
    ensures NextLed(led).f == Nop ==> led.f == Nop || led.f == Dim || led.f == Brighten || led.f == Blip
    ensures NextLed(led).f == Dim ==> led.f == Dim || led.f == Rainbow
  {
  }

  /**
   * The colour one LED shows on a tick of `ease_advance`, or None for a
   * finished LED, whose frame entry the tick leaves alone. Modes without a
   * case show their target. No LED ever shows a value above its target's,
   * and only rainbow and rotating LEDs show another hue.
   */
  function ShowLed(led: Led): (c: Option<Hsv>)
    ensures c.None? <==> led.f == Nop
    ensures c.Some? ==> c.value.v <= led.target.v
    ensures c.Some? && led.f != Rainbow && led.f != RotateForward ==> c.value.h == led.target.h
  {
    var c := led.target;
    var next := Wrap8(led.step + 1);
    match led.f
    case Nop => None
    case EaseQuadIn => Some(c.(s := Scale8(c.s, Ease8InOutQuad(next))))
    case EaseQuadOut => Some(c.(s := Scale8(c.s, 0xff - Ease8InOutQuad(next))))
    case Dim => Some(c.(v := if next == LAST_STEP then 0 else Scale8(c.v, LAST_STEP - Ease8InOutQuad(next))))
    case Brighten => Some(c.(v := Scale8(c.v, Ease8InOutQuad(next))))
    case Rainbow => Some(RgbMap.RainbowStep(c))
    case Blip =>
      var raised := Wrap8(led.step + 3);
      var up := Ease8InOutQuad(raised);
      var phase := if raised == LAST_STEP then Wrap8(led.phase + 1) else led.phase;
      if phase == 0 then Some(c.(v := Scale8(c.v, up)))
      else if phase == 1 then Some(c.(v := Scale8(c.v, LAST_STEP - up)))
      else if phase == 2 then Some(c.(v := 0))
      else Some(c)
    case RotateForward => Some(if next == ROTATE_TICKS then RotateStep(c, led.phase) else c)
    case ColorFlash => Some(c)
    case ColorHold => Some(c)
    case Backlight => Some(c)
  }

  /** The frame entry a tick leaves for an LED: the colour it shows, converted, or the old entry for a finished LED. */
  function FrameEntry(led: Led, before: Rgb): Rgb
  {
    match ShowLed(led)
    case Some(c) => RgbMap.Hsv2Rgb(c)
    case None => before
  }

  /** `color.h += phase; color.h %= HUE_MAX` on a 16-bit hue. */
  function RotateStep(c: Hsv, phase: byte): (d: Hsv)
    ensures d.h < RgbMap.HUE_MAX && d.s == c.s && d.v == c.v
  {
    c.(h := ((c.h + phase) % 0x10000) % RgbMap.HUE_MAX)
  }

  /** The record after n ticks. */
  function Run(led: Led, n: nat): Led
  {
    if n == 0 then led else NextLed(Run(led, n - 1))
  }

  /** The colour shown on tick n (counting from 1). */
  function ShownAt(led: Led, n: nat): Option<Hsv>
    requires n >= 1
  {
    ShowLed(Run(led, n - 1))
  }

  /** A finished LED stays finished and never rewrites its frame entry. */
  lemma {:induction false} NopStays(led: Led, n: nat)
    requires led.f == Nop
    ensures Run(led, n) == led
    ensures n >= 1 ==> ShownAt(led, n) == None
  {
    if n > 0 {
      NopStays(led, n - 1);
    }
  }

  /** Modes without a case in `ease_advance` keep their record and show their target. */
  lemma Holds(led: Led)
    requires led.f == ColorFlash || led.f == ColorHold || led.f == Backlight
    ensures NextLed(led) == led && ShowLed(led) == Some(led.target)
  {
  }

  /** During a dim or brighten from step 0, tick k leaves the step at k and the mode unchanged. */
  lemma {:induction false} FadeRun(led: Led, k: nat)
    requires led.f == Dim || led.f == Brighten
    requires led.step == 0 && k < 0xff
    ensures Run(led, k) == led.(step := k)
  {
    if k > 0 {
      FadeRun(led, k - 1);
    }
  }

  /**
   * A dim from step 0 lasts exactly 255 ticks: the value never exceeds the
   * target's, the last tick shows value 0, and the LED is then finished.
   */
  lemma DimFinishes(led: Led)
    requires led.f == Dim && led.step == 0
    ensures forall k :: 0 <= k < 0xff ==> Run(led, k).f == Dim
    ensures Run(led, 0xff) == led.(step := 0xff, f := Nop)
    ensures ShownAt(led, 0xff) == Some(led.target.(v := 0))
    ensures forall k :: 1 <= k <= 0xff ==> ShownAt(led, k).Some? && ShownAt(led, k).value.v <= led.target.v
  {
    forall k | 0 <= k < 0xff
      ensures Run(led, k).f == Dim
    {
      FadeRun(led, k);
    }
    forall k | 1 <= k <= 0xff
      ensures ShownAt(led, k).Some? && ShownAt(led, k).value.v <= led.target.v
    {
      FadeRun(led, k - 1);
    }
    FadeRun(led, 0xfe);
  }

  /**
   * A brighten from step 0 lasts exactly 255 ticks; its last tick shows
   * `scale8(v, 0xff)`, one step below the target's nonzero value.
   */
  lemma BrightenFinishes(led: Led)
    requires led.f == Brighten && led.step == 0
    ensures forall k :: 0 <= k < 0xff ==> Run(led, k).f == Brighten
    ensures Run(led, 0xff) == led.(step := 0xff, f := Nop)
    ensures led.target.v >= 1 ==> ShownAt(led, 0xff) == Some(led.target.(v := led.target.v - 1))
  {
    forall k | 0 <= k < 0xff
      ensures Run(led, k).f == Brighten
    {
      FadeRun(led, k);
    }
    FadeRun(led, 0xfe);
    Ease8Endpoints();
    if led.target.v >= 1 {
      Scale8Full(led.target.v);
    }
  }

  /** A blip tick below the top of the curve moves the step on by 3 and shows the value on the curve (falling in phase 1). */
  lemma BlipStep(led: Led)
    requires led.f == Blip && led.step + 3 < 0xff && led.phase < 2
    ensures NextLed(led) == led.(step := led.step + 3)
  {
    assert Wrap8(led.step + 3) == led.step + 3;
  }

  /** The colour of that tick: the value on the curve, rising in phase 0 and falling in phase 1. */
  lemma BlipShow(led: Led)
    requires led.f == Blip && led.step + 3 < 0xff && led.phase < 2
    ensures var level := Ease8InOutQuad(led.step + 3);
      ShowLed(led) == Some(led.target.(v := Scale8(led.target.v, if led.phase == 0 then level else 0xff - level)))
  {
    var raised := led.step + 3;
    assert Wrap8(led.step + 3) == raised != LAST_STEP;
    var level := Ease8InOutQuad(raised);
    if led.phase == 0 {
      assert ShowLed(led) == Some(led.target.(v := Scale8(led.target.v, level)));
    } else {
      assert ShowLed(led) == Some(led.target.(v := Scale8(led.target.v, 0xff - level)));
    }
  }

  /** The blip tick that reaches the top of the curve starts the next phase from step 0 and shows value 0. */
  lemma BlipTurn(led: Led)
    requires led.f == Blip && led.step == 0xfc && led.phase < 2
    ensures NextLed(led) == led.(step := 0, phase := led.phase + 1, f := if led.phase == 1 then Nop else Blip)
    ensures ShowLed(led) == Some(led.target.(v := 0))
  {
    Ease8Endpoints();
  }

  /** During a blip from step 0, tick k <= 84 of a half leaves the step at 3k in that half's phase. */
  lemma {:induction false} BlipHalf(led: Led, p: byte, k: nat)
    requires led.f == Blip && led.step == 0 && p < 2
    requires k < 85
    ensures Run(led.(phase := p), k) == led.(phase := p, step := 3 * k)
  {
    if k > 0 {
      BlipHalf(led, p, k - 1);
      BlipStep(led.(phase := p, step := 3 * (k - 1)));
    }
  }

  /** Ticks beyond the first n continue from the state after n. */
  lemma {:induction false} RunSplit(led: Led, n: nat, m: nat)
    ensures Run(led, n + m) == Run(Run(led, n), m)
  {
    if m > 0 {
      var k := m - 1;
      RunSplit(led, n, k);
      assert n + m == (n + k) + 1;
      assert Run(led, n + m) == NextLed(Run(led, n + k));
    }
  }

  /** A blip from step 0 and phase 0 rises along the easing curve for its first 84 ticks. */
  lemma BlipRises(led: Led, k: nat)
    requires led.f == Blip && led.step == 0 && led.phase == 0
    requires 1 <= k < 85
    ensures ShownAt(led, k) == Some(led.target.(v := Scale8(led.target.v, Ease8InOutQuad(3 * k))))
  {
    BlipHalf(led, 0, k - 1);
    assert led.(phase := 0) == led;
    BlipShow(led.(step := 3 * (k - 1)));
  }

  /** Tick 85 of a blip shows value 0 and starts the falling half. */
  lemma BlipTurns(led: Led)
    requires led.f == Blip && led.step == 0 && led.phase == 0
    ensures Run(led, 85) == led.(phase := 1)
    ensures ShownAt(led, 85) == Some(led.target.(v := 0))
  {
    BlipHalf(led, 0, 84);
    assert led.(phase := 0) == led;
    BlipTurn(led.(step := 0xfc));
  }

  /** The falling half of a blip: its step counts up from 0 again in phase 1. */
  lemma BlipFalls(led: Led, k: nat)
    requires led.f == Blip && led.step == 0 && led.phase == 0
    requires 1 <= k <= 85
    ensures Run(led, 85 + k - 1) == led.(phase := 1, step := 3 * (k - 1))
  {
    BlipTurns(led);
    RunSplit(led, 85, k - 1);
    BlipHalf(led, 1, k - 1);
  }

  /** The colours of the falling half. */
  lemma BlipFallShown(led: Led, k: nat)
    requires led.f == Blip && led.step == 0 && led.phase == 0
    requires 1 <= k < 85
    ensures ShownAt(led, 85 + k) == Some(led.target.(v := Scale8(led.target.v, 0xff - Ease8InOutQuad(3 * k))))
  {
    BlipFalls(led, k);
    BlipShow(led.(phase := 1, step := 3 * (k - 1)));
  }

  /**
   * A blip from step 0 and phase 0 lasts exactly 170 ticks: the last one
   * shows value 0 and finishes the LED in phase 2.
   */
  lemma BlipFinishes(led: Led)
    requires led.f == Blip && led.step == 0 && led.phase == 0
    ensures forall k :: 0 <= k < 170 ==> Run(led, k).f == Blip
    ensures Run(led, 170) == led.(phase := 2, f := Nop)
    ensures ShownAt(led, 170) == Some(led.target.(v := 0))
  {
    forall k | 0 <= k < 170
      ensures Run(led, k).f == Blip
    {
      if k < 85 {
        BlipHalf(led, 0, k);
        assert led.(phase := 0) == led;
      } else {
        BlipFalls(led, k - 84);
      }
    }
    BlipFalls(led, 85);
    BlipTurn(led.(phase := 1, step := 0xfc));
  }

  /** A blip from step 0 and phase 0 never takes its phase past 2. */
  lemma BlipPhaseBounded(led: Led, n: nat)
    requires led.f == Blip && led.step == 0 && led.phase == 0
    ensures Run(led, n).phase <= 2
  {
    if n < 85 {
      BlipHalf(led, 0, n);
      assert led.(phase := 0) == led;
    } else if n < 170 {
      BlipFalls(led, n - 84);
    } else {
      BlipFinishes(led);
      RunSplit(led, 170, n - 170);
      NopStays(led.(phase := 2, f := Nop), n - 170);
    }
  }

  /**
   * A rainbow tick moves the target hue on by 3 below HUE_MAX and shows it;
   * reaching the last step takes one from the phase, and reaching phase 0
   * that way turns the LED into a dim.
   */
  lemma RainbowTickHue(led: Led)
    requires led.f == Rainbow && led.target.h < RgbMap.HUE_MAX
    ensures var t := NextLed(led);
      t.target == led.target.(h := (led.target.h + 3) % RgbMap.HUE_MAX) &&
      ShowLed(led) == Some(t.target) &&
      t.target.h < RgbMap.HUE_MAX &&
      t.step == Wrap8(led.step + 1) &&
      t.phase == (if t.step == LAST_STEP then Wrap8(led.phase - 1) else led.phase) &&
      (t.f == Dim <==> t.step == LAST_STEP && led.phase == 1) &&
      (t.f != Dim ==> t.f == Rainbow)
  {
  }

  /** A rainbow tick before the last step of a round moves the step and the hue on. */
  lemma RainbowMid(led: Led)
    requires led.f == Rainbow && led.target.h < RgbMap.HUE_MAX && led.step < 0xfe
    ensures NextLed(led) == led.(step := led.step + 1, target := led.target.(h := (led.target.h + 3) % RgbMap.HUE_MAX))
  {
  }

  /** Within one round of a rainbow that does not yet reach the last step, the hue moves on by 3 per tick. */
  lemma {:induction false} RainbowRound(led: Led, k: nat)
    requires led.f == Rainbow && led.target.h < RgbMap.HUE_MAX
    requires led.step + k < 0xff
    ensures Run(led, k) == led.(step := led.step + k, target := led.target.(h := (led.target.h + 3 * k) % RgbMap.HUE_MAX))
  {
    if k > 0 {
      RainbowRound(led, k - 1);
      RainbowMid(Run(led, k - 1));
      AddMod(led.target.h + 3 * (k - 1), 3);
    }
  }

  /** Adding to a hue reduced modulo HUE_MAX is adding before the reduction. */
  lemma AddMod(a: nat, b: nat)
    ensures (a % RgbMap.HUE_MAX + b) % RgbMap.HUE_MAX == (a + b) % RgbMap.HUE_MAX
  {
  }

  /**
   * The last step of a round uses up one round of the phase (dimming when
   * none is left), and the tick after it starts the next round at step 0.
   */
  lemma RainbowTurn(led: Led)
    requires led.f == Rainbow && led.step == 0xfe && led.phase >= 1
    ensures NextLed(led).step == 0xff && NextLed(led).phase == led.phase - 1
    ensures NextLed(led).f == (if led.phase == 1 then Dim else Rainbow)
    ensures led.phase > 1 ==>
      NextLed(NextLed(led)) == led.(step := 0, phase := led.phase - 1, target := NextLed(NextLed(led)).target) &&
      NextLed(NextLed(led)).target.h < RgbMap.HUE_MAX
  {
  }

  /** Tick k of `ease_rainbow(t)`, before the last round has ended, finds the LED still in rainbow mode. */
  lemma {:induction false} RainbowCycling(led: Led, t: nat, k: nat)
    requires led.f == Rainbow && led.step == 0 && led.target.h < RgbMap.HUE_MAX
    requires 1 <= t == led.phase && k < 0xff + 0x100 * (t - 1)
    ensures Run(led, k).f == Rainbow
    decreases t
  {
    if k <= 0xfe {
      RainbowRound(led, k);
    } else {
      RainbowRound(led, 0xfe);
      RainbowTurn(Run(led, 0xfe));
      assert Run(led, 0xff) == NextLed(Run(led, 0xfe));
      if k >= 0x100 {
        var next := Run(led, 0x100);
        assert next == NextLed(Run(led, 0xff));
        var j := k - 0x100;
        RainbowCycling(next, t - 1, j);
        RunSplit(led, 0x100, j);
        assert 0x100 + j == k;
      }
    }
  }

  /**
   * `ease_rainbow(t)` with t >= 1 keeps an LED cycling for 255 + 256 (t - 1)
   * ticks: it is in rainbow mode at every earlier tick, and at that tick its
   * phase is used up and it starts to dim.
   */
  lemma {:induction false} RainbowRounds(led: Led, t: nat)
    requires led.f == Rainbow && led.step == 0 && led.target.h < RgbMap.HUE_MAX
    requires 1 <= t == led.phase
    ensures Run(led, 0xff + 0x100 * (t - 1)).f == Dim
    ensures forall k: nat :: k < 0xff + 0x100 * (t - 1) ==> Run(led, k).f == Rainbow
    decreases t
  {
    RainbowRound(led, 0xfe);
    RainbowTurn(Run(led, 0xfe));
    if t > 1 {
      assert Run(led, 0x100) == NextLed(NextLed(Run(led, 0xfe)));
      RainbowRounds(Run(led, 0x100), t - 1);
      var m := 0xff + 0x100 * (t - 2);
      RunSplit(led, 0x100, m);
      assert 0x100 + m == 0xff + 0x100 * (t - 1);
    }
    forall k: nat | k < 0xff + 0x100 * (t - 1)
      ensures Run(led, k).f == Rainbow
    {
      RainbowCycling(led, t, k);
    }
  }

  /**
   * A rotating LED moves its target hue on by its phase every 60 ticks and
   * shows its target on every tick.
   */
  lemma RotateTickHue(led: Led)
    requires led.f == RotateForward && led.step < ROTATE_TICKS - 1
    ensures NextLed(led) == led.(step := led.step + 1) && ShowLed(led) == Some(led.target)
    ensures var last := led.(step := ROTATE_TICKS - 1);
      NextLed(last).step == 0 && ShowLed(last) == Some(NextLed(last).target) &&
      NextLed(last).target == led.target.(h := ((led.target.h + led.phase) % 0x10000) % RgbMap.HUE_MAX)
  {
  }

  /**
   * The hue `ease_rotate` gives backlight LED i when the first one starts at
   * hue `start`: each one a rotation phase below the previous, clamped at 0.
   */
  function RotateHue(start: u16, i: nat): (h: u16)
    ensures h <= start
    ensures ROTATE_PHASE * i <= start ==> start - h == ROTATE_PHASE * i
    ensures ROTATE_PHASE * i > start ==> h == 0
  {
    if ROTATE_PHASE * i <= start then start - ROTATE_PHASE * i else 0
  }

  /**
   * The loop of `ease_rotate` computes these hues: the next hue is the
   * previous one less the phase, or 0 when the previous one is below the
   * phase. Hues strictly fall until they reach 0, and then stay there.
   */
  lemma RotateHueStep(start: u16, i: nat)
    ensures RotateHue(start, i + 1) == if RotateHue(start, i) < ROTATE_PHASE then 0 else RotateHue(start, i) - ROTATE_PHASE
    ensures RotateHue(start, i) > 0 ==> RotateHue(start, i + 1) < RotateHue(start, i)
    ensures RotateHue(start, i) == 0 ==> RotateHue(start, i + 1) == 0
  {
    assert ROTATE_PHASE * (i + 1) == ROTATE_PHASE * i + ROTATE_PHASE;
  }

  /** The LED record `ease_rotate` gives backlight LED i: the start colour with LED i's hue, rotating forward. */
  function RotateLed(start: Hsv, i: nat): (led: Led)
    ensures led.target.s == start.s && led.target.v == start.v && led.target.h == RotateHue(start.h, i)
    ensures led.f == RotateForward && led.step == 0 && led.phase == ROTATE_PHASE
  {
    Led(start.(h := RotateHue(start.h, i)), RotateForward, 0, ROTATE_PHASE)
  }

  /** The gap is the hue circle shared out evenly over all LEDs. */
  lemma RainbowGap()
    ensures RAINBOW_GAP == RgbMap.HUE_MAX / Config.RGB_ALL_NUM
    ensures RAINBOW_GAP * (Config.RGB_ALL_NUM - 1) < RgbMap.HUE_MAX
  {
  }

  /**
   * The LED record `ease_rainbow(times)` gives LED i when LED 0 starts at
   * colour `first`: the hue i gaps further on, in 16-bit arithmetic. From
   * hue 0, the hues are i * (HUE_MAX / RGB_ALL_NUM), all below HUE_MAX.
   */
  function RainbowLed(first: Hsv, i: nat, times: byte): (led: Led)
    requires i < Config.RGB_ALL_NUM
    ensures led.f == Rainbow && led.step == 0 && led.phase == times
    ensures led.target.s == first.s && led.target.v == first.v
    ensures first.h == 0 ==> led.target.h == RAINBOW_GAP * i < RgbMap.HUE_MAX
  {
    Led(first.(h := (first.h + RAINBOW_GAP * i) % 0x10000), Rainbow, 0, times)
  }

  /** Each LED of a rainbow is one gap further on than the one before it, in 16-bit arithmetic. */
  lemma RainbowLedStep(first: Hsv, i: nat, times: byte)
    requires i + 1 < Config.RGB_ALL_NUM
    ensures RainbowLed(first, i + 1, times).target == RainbowLed(first, i, times).target.(h := (RainbowLed(first, i, times).target.h + RAINBOW_GAP) % 0x10000)
  {
    assert RAINBOW_GAP * (i + 1) == RAINBOW_GAP * i + RAINBOW_GAP;
  }

  // ---------------------------------------------------------------------
  // All LEDs

  /** `leds[RGB_ALL_NUM]` beside the LED driver whose frame it fills. */
  class Ease {
    const leds: array<Led>
    const pixels: RgbPixel.PixelDriver

    ghost predicate Valid()
      reads this, pixels, pixels.spi
    {
      leds.Length == Config.RGB_ALL_NUM && pixels.Valid()
    }

    /** The zeroed static array. */
    constructor (driver: RgbPixel.PixelDriver)
      requires driver.Valid()
      ensures Valid() && pixels == driver && fresh(leds)
      ensures leds[..] == seq(Config.RGB_ALL_NUM, _ => Off)
    {
      leds := new Led[Config.RGB_ALL_NUM](_ => Off);
      pixels := driver;
    }

    /** `ease_init`: every LED back to the zeroed record. */
    method Init()
      requires Valid()
      modifies leds
      ensures Valid()
      ensures leds[..] == seq(Config.RGB_ALL_NUM, _ => Off)
    {
      forall i | 0 <= i < leds.Length {
        leds[i] := Off;
      }
    }

    /** `ease_set_direct`: overwrite one LED's record. The C code has no bounds check, so id must name an LED. */
    method SetDirect(id: byte, target: Hsv, f: Mode, step: byte, phase: byte)
      requires Valid() && id < Config.RGB_ALL_NUM
      modifies leds
      ensures Valid()
      ensures leds[..] == old(leds[..])[id := Led(target, f, step, phase)]
    {
      leds[id] := Led(target, f, step, phase);
    }

    /** `ease_set`: the LED behind a key (`key2led`, not part of this model, passed in) starts mode f at step and phase 0. */
    method Set(row: byte, column: byte, target: Hsv, f: Mode, key2led: (byte, byte) -> byte)
      requires Valid() && key2led(row, column) < Config.RGB_ALL_NUM
      modifies leds
      ensures Valid()
      ensures leds[..] == old(leds[..])[key2led(row, column) := Led(target, f, 0, 0)]
    {
      var id := key2led(row, column);
      SetDirect(id, target, f, 0, 0);
    }

    /**
     * `ease_rainbow`: every LED cycles through the hues, each a fixed gap
     * further on, for `times` rounds. The first colour, `HSV(0, 0xff, 0xff)`
     * in the firmware, is passed in: the `HSV()` conversion is not part of
     * this model.
     */
    method Rainbow(times: byte, first: Hsv)
      requires Valid()
      modifies leds
      ensures Valid()
      ensures forall i :: 0 <= i < Config.RGB_ALL_NUM ==> leds[i] == RainbowLed(first, i, times)
    {
      var color := first;
      var i: byte := 0;
      while i < Config.RGB_ALL_NUM
        invariant i <= Config.RGB_ALL_NUM && Valid()
        invariant i < Config.RGB_ALL_NUM ==> color == RainbowLed(first, i, times).target
        invariant forall j :: 0 <= j < i ==> leds[j] == RainbowLed(first, j, times)
      {
        SetDirect(i, color, Mode.Rainbow, 0, times);
        if i + 1 < Config.RGB_ALL_NUM {
          RainbowLedStep(first, i as nat, times);
        }
        color := color.(h := (color.h + RAINBOW_GAP) % 0x10000);
        i := i + 1;
      }
    }

    /** `ease_dim_all`: every LED starts to dim from its current target. */
    method DimAll()
      requires Valid()
      modifies leds
      ensures Valid()
      ensures forall i :: 0 <= i < Config.RGB_ALL_NUM ==> leds[i] == Led(old(leds[i]).target, Dim, 0, 0)
    {
      var i: byte := 0;
      while i < Config.RGB_ALL_NUM
        invariant i <= Config.RGB_ALL_NUM && Valid()
        invariant forall j :: 0 <= j < i ==> leds[j] == Led(old(leds[j]).target, Dim, 0, 0)
        invariant forall j :: i <= j < Config.RGB_ALL_NUM ==> leds[j] == old(leds[j])
      {
        SetDirect(i, leds[i].target, Dim, 0, 0);
        i := i + 1;
      }
    }

    /**
     * `ease_rotate`: the backlight LEDs start rotating, with hues stepping
     * down from the start colour's by the rotation phase and clamped at 0.
     * The start colour, `HSV(0xff, 0x80, 0x80)` in the firmware, is passed
     * in: the `HSV()` conversion is not part of this model. The direction is
     * not used. The key LEDs keep their records.
     */
    method Rotate(direction: byte, start: Hsv)
      requires Valid()
      modifies leds
      ensures Valid()
      ensures forall i :: 0 <= i < Config.RGB_BACKLIGHT_NUM ==> leds[Config.RGB_BACKLIGHT_OFFSET + i] == RotateLed(start, i)
      ensures forall i :: 0 <= i < Config.RGB_BACKLIGHT_OFFSET ==> leds[i] == old(leds[i])
    {
      var color := start;
      var phase := ROTATE_PHASE;
      var i: byte := 0;
      while i < Config.RGB_BACKLIGHT_NUM
        invariant i <= Config.RGB_BACKLIGHT_NUM && Valid()
        invariant color == start.(h := RotateHue(start.h, i as nat))
        invariant forall j :: 0 <= j < i ==> leds[Config.RGB_BACKLIGHT_OFFSET + j] == RotateLed(start, j)
        invariant forall j :: 0 <= j < Config.RGB_BACKLIGHT_OFFSET ==> leds[j] == old(leds[j])
      {
        SetDirect(Config.RGB_BACKLIGHT_OFFSET + i, color, RotateForward, 0, phase);
        RotateHueStep(start.h, i as nat);
        if color.h < phase {
          color := color.(h := 0);
        } else {
          color := color.(h := color.h - phase);
        }
        i := i + 1;
      }
    }

    /**
     * `ease_advance`: every LED takes one tick; the frame shows each
     * colour, except that finished LEDs leave their entry alone; then the
     * frame is rendered, once.
     */
    method Advance()
      requires Valid()
      modifies leds, pixels, pixels.frame, pixels.spi
      ensures Valid()
      ensures forall i :: 0 <= i < Config.RGB_ALL_NUM ==> leds[i] == NextLed(old(leds[i]))
      ensures forall i :: 0 <= i < Config.RGB_ALL_NUM ==>
        pixels.frame[i] == FrameEntry(old(leds[i]), old(pixels.frame[i]))
      ensures pixels.active == 1 - old(pixels.active)
      ensures SpiEncoding.DecodeBuffer(pixels.Buffer(pixels.active)) == pixels.frame[..]
    {
      Step();
      pixels.Render();
    }

    /** The loop of `ease_advance`, before the render. */
    method Step()
      requires Valid()
      modifies leds, pixels.frame
      ensures Valid()
      ensures forall i :: 0 <= i < Config.RGB_ALL_NUM ==> leds[i] == NextLed(old(leds[i]))
      ensures forall i :: 0 <= i < Config.RGB_ALL_NUM ==>
        pixels.frame[i] == FrameEntry(old(leds[i]), old(pixels.frame[i]))
    {
      var i := 0;
      while i < Config.RGB_ALL_NUM
        invariant i <= Config.RGB_ALL_NUM
        invariant forall j :: 0 <= j < i ==> leds[j] == NextLed(old(leds[j]))
        invariant forall j :: i <= j < Config.RGB_ALL_NUM ==> leds[j] == old(leds[j])
        invariant forall j :: 0 <= j < i ==>
          pixels.frame[j] == FrameEntry(old(leds[j]), old(pixels.frame[j]))
        invariant forall j :: i <= j < Config.RGB_ALL_NUM ==> pixels.frame[j] == old(pixels.frame[j])
      {
        Tick(i);
        i := i + 1;
      }
    }

    /** The body of the loop of `ease_advance` for LED i: its record takes one tick and its frame entry shows it. */
    method Tick(i: nat)
      requires Valid() && i < Config.RGB_ALL_NUM
      modifies leds, pixels.frame
      ensures Valid()
      ensures leds[i] == NextLed(old(leds[i])) && pixels.frame[i] == FrameEntry(old(leds[i]), old(pixels.frame[i]))
      ensures forall j :: 0 <= j < Config.RGB_ALL_NUM && j != i ==> leds[j] == old(leds[j]) && pixels.frame[j] == old(pixels.frame[j])
    {
      var shown := ShowLed(leds[i]);
      leds[i] := NextLed(leds[i]);
      if shown.Some? {
        pixels.frame[i] := RgbMap.Hsv2Rgb(shown.value);
      }
    }

    /** `ease_process`: advance when the ease timer has passed (the timer is an input here). */
    method Process(timerPassed: bool)
      requires Valid()
      modifies leds, pixels, pixels.frame, pixels.spi
      ensures Valid()
      ensures !timerPassed ==> leds[..] == old(leds[..]) && pixels.frame[..] == old(pixels.frame[..]) && pixels.active == old(pixels.active)
      ensures !timerPassed ==> pixels.spi[..] == old(pixels.spi[..]) && pixels.status == old(pixels.status)
      ensures timerPassed ==> forall i :: 0 <= i < Config.RGB_ALL_NUM ==> leds[i] == NextLed(old(leds[i]))
      ensures timerPassed ==> forall i :: 0 <= i < Config.RGB_ALL_NUM ==>
        pixels.frame[i] == FrameEntry(old(leds[i]), old(pixels.frame[i]))
      ensures timerPassed ==> pixels.active == 1 - old(pixels.active)
      ensures timerPassed ==> SpiEncoding.DecodeBuffer(pixels.Buffer(pixels.active)) == pixels.frame[..]
    {
      if timerPassed {
        Advance();
      }
    }
  }
}
