/**
 * Status lights (light.c): a per-layer map from key positions to light
 * types, the desktop, mute and volume state, and the pass that turns that
 * state into colour requests for the LEDs of the matching keys.
 */
module Light {
  import opened Types
  import Config
  import Arith
  import Palette
  import RgbEase

  /** Light types (light.h), stored as the character codes the serial protocol uses. */
  const LIGHT_AUTOMOUSE: byte := 0x41 // 'A'
  const LIGHT_BACKLIGHT: byte := 0x42 // 'B'
  const LIGHT_DESKTOP: byte := 0x44 // 'D'
  const LIGHT_LAYER: byte := 0x4c // 'L'
  const LIGHT_MACRO: byte := 0x6d // 'm'
  const LIGHT_MIC_MUTE: byte := 0x52 // 'R'
  const LIGHT_MUTE: byte := 0x4d // 'M'
  const LIGHT_NKRO: byte := 0x4e // 'N'
  const LIGHT_VOLUME: byte := 0x56 // 'V'

  /**
   * Definitions light.c relies on whose values are not part of this model:
   * `SCREENS_NUM`, `key2led`, `STEP_FAST`, `LIGHT_VOLUME_TO_HUE` and the
   * named colours `hsv_red`, `hsv_magenta`, `hsv_yellow`, `hsv_green`.
   */
  datatype Env = Env(
    screens: nat,
    key2led: (byte, byte) -> byte,
    stepFast: byte,
    volumeToHue: u16 -> u16,
    red: Hsv, magenta: Hsv, yellow: Hsv, green: Hsv)

  /** A call `rgbease_set(id, color, f, step, round)`; its effect on the LED records is `RgbEase.Ease.SetDirect`. */
  datatype EaseCall = EaseCall(id: byte, color: Hsv, f: RgbEase.Mode, step: byte, phase: byte)

  /** `lightstate_t` as a value. */
  datatype State = State(desktop: seq<byte>, micMute: byte, mute: byte, volume: u16)

  /** The map of every layer in the initial `lightmap`, row by row. */
  const INITIAL_MAP: seq<byte> := [
    LIGHT_DESKTOP, LIGHT_DESKTOP, LIGHT_DESKTOP, LIGHT_DESKTOP, LIGHT_MUTE,
    LIGHT_DESKTOP, LIGHT_DESKTOP, LIGHT_DESKTOP, LIGHT_DESKTOP, LIGHT_DESKTOP,
    LIGHT_VOLUME,  LIGHT_VOLUME,  LIGHT_VOLUME,  LIGHT_VOLUME,  LIGHT_VOLUME,
    LIGHT_MACRO,   LIGHT_MACRO,   LIGHT_MACRO,   LIGHT_MACRO,   LIGHT_MACRO,
    LIGHT_LAYER,   LIGHT_LAYER,   LIGHT_DESKTOP, LIGHT_DESKTOP, LIGHT_BACKLIGHT
  ]

  /** Whether `light_apply_state(only)` considers a cell of type typ: 0 selects every cell. */
  predicate Selected(typ: byte, only: byte)
  {
    only == 0 || typ == only
  }

  /** The colour of a mute light: red for both muted, magenta for the microphone, yellow for the output, green for neither. */
  function MuteColour(st: State, env: Env): Hsv
  {
    if st.micMute != 0 then (if st.mute != 0 then env.red else env.magenta)
    else (if st.mute != 0 then env.yellow else env.green)
  }

  /**
   * The request a selected cell of type typ makes for LED id, given the
   * running screen counter: desktop and layer lights hold a palette
   * colour, mute and volume lights hold their colour with the fast step,
   * and every other type makes no request.
   */
  function CellCall(typ: byte, id: byte, screen: nat, layer: byte, st: State, env: Env, pal: seq<Hsv>): (call: Option<EaseCall>)
    requires screen < |st.desktop| && |pal| > 0
    ensures call.None? <==> typ !in {LIGHT_DESKTOP, LIGHT_LAYER, LIGHT_MUTE, LIGHT_VOLUME}
    ensures call.Some? ==> call.value.id == id && call.value.f == RgbEase.ColorHold && call.value.phase == 0
    ensures call.Some? ==> call.value.step == if typ in {LIGHT_MUTE, LIGHT_VOLUME} then env.stepFast else 0
    ensures typ in {LIGHT_DESKTOP, LIGHT_LAYER} ==> call.value.color in pal
  {
    if typ == LIGHT_DESKTOP then
      Some(EaseCall(id, Palette.Lookup(pal, Wrap8(Palette.COLOR_1 + st.desktop[screen])), RgbEase.ColorHold, 0, 0))
    else if typ == LIGHT_LAYER then
      Some(EaseCall(id, Palette.Lookup(pal, Wrap8(Palette.COLOR_6 + layer)), RgbEase.ColorHold, 0, 0))
    else if typ == LIGHT_MUTE then
      Some(EaseCall(id, MuteColour(st, env), RgbEase.ColorHold, env.stepFast, 0))
    else if typ == LIGHT_VOLUME then
      Some(EaseCall(id, env.yellow.(h := env.volumeToHue(st.volume)), RgbEase.ColorHold, env.stepFast, 0))
    else None
  }

  /** Whether cell k of a grid is a selected desktop light, which moves the screen counter on. */
  predicate CountsScreen(grid: seq<byte>, only: byte, k: nat)
    requires k < |grid|
  {
    Selected(grid[k], only) && grid[k] == LIGHT_DESKTOP
  }

  /** The screen counter after the first k cells, row by row. */
  function ScreenAfter(grid: seq<byte>, only: byte, k: nat, screens: nat): (s: nat)
    requires k <= |grid| && screens > 0
    ensures s < screens
  {
    if k == 0 then 0
    else if CountsScreen(grid, only, k - 1) then (ScreenAfter(grid, only, k - 1, screens) + 1) % screens
    else ScreenAfter(grid, only, k - 1, screens)
  }

  /** The number of selected desktop lights among the first k cells. */
  function DesktopsBefore(grid: seq<byte>, only: byte, k: nat): nat
    requires k <= |grid|
  {
    if k == 0 then 0
    else DesktopsBefore(grid, only, k - 1) + if CountsScreen(grid, only, k - 1) then 1 else 0
  }

  /** The requests `light_apply_state(only)` makes for the first k cells of a layer's map. */
  function CallsUpTo(grid: seq<byte>, only: byte, k: nat, layer: byte, st: State, env: Env, pal: seq<Hsv>): (calls: seq<EaseCall>)
    requires |grid| == Config.RGB_KEYS_NUM && k <= |grid|
    requires env.screens > 0 && |st.desktop| == env.screens && |pal| > 0
    ensures |calls| <= k
    ensures forall call :: call in calls ==> call.f == RgbEase.ColorHold
  {
    if k == 0 then []
    else
      var calls := CallsUpTo(grid, only, k - 1, layer, st, env, pal);
      var typ := grid[k - 1];
      if !Selected(typ, only) then calls
      else
        match CellCall(typ, env.key2led((k - 1) / 5, (k - 1) % 5), ScreenAfter(grid, only, k - 1, env.screens), layer, st, env, pal)
        case None => calls
        case Some(call) => calls + [call]
  }

  /** The screen counter runs round-robin over the desktop slots: the n-th desktop light uses slot n modulo SCREENS_NUM. */
  lemma {:induction false} ScreenRoundRobin(grid: seq<byte>, only: byte, k: nat, screens: nat)
    requires k <= |grid| && screens > 0
    ensures ScreenAfter(grid, only, k, screens) == DesktopsBefore(grid, only, k) % screens
  {
    if k > 0 {
      ScreenRoundRobin(grid, only, k - 1, screens);
      if CountsScreen(grid, only, k - 1) {
        Arith.ModSucc(DesktopsBefore(grid, only, k - 1), screens);
      }
    }
  }

  /**
   * With a type given, every request comes from a cell of that type, for
   * the LED behind that cell's key.
   */
  lemma {:induction false} OnlyTypeTouched(grid: seq<byte>, only: byte, k: nat, layer: byte, st: State, env: Env, pal: seq<Hsv>)
    requires |grid| == Config.RGB_KEYS_NUM && k <= |grid|
    requires env.screens > 0 && |st.desktop| == env.screens && |pal| > 0
    requires only != 0
    ensures forall call :: call in CallsUpTo(grid, only, k, layer, st, env, pal) ==>
      exists j :: 0 <= j < k && grid[j] == only && call.id == env.key2led(j / 5, j % 5)
  {
    if k > 0 {
      OnlyTypeTouched(grid, only, k - 1, layer, st, env, pal);
    }
  }

  /** A cell that is not selected, or whose type has no case, adds no request. */
  lemma SilentCells(grid: seq<byte>, only: byte, k: nat, layer: byte, st: State, env: Env, pal: seq<Hsv>)
    requires |grid| == Config.RGB_KEYS_NUM && 0 < k <= |grid|
    requires env.screens > 0 && |st.desktop| == env.screens && |pal| > 0
    requires !Selected(grid[k - 1], only) || grid[k - 1] !in {LIGHT_DESKTOP, LIGHT_LAYER, LIGHT_MUTE, LIGHT_VOLUME}
    ensures CallsUpTo(grid, only, k, layer, st, env, pal) == CallsUpTo(grid, only, k - 1, layer, st, env, pal)
  {
  }

  /** Slot `light_set_desktop` writes, as written: `ascreen % SCREENS_NUM - 1`. */
  function DesktopSlotAsWritten(ascreen: byte, screens: nat): int
    requires screens > 0
  {
    ascreen % screens - 1
  }

  /** A nonzero screen number that is a multiple of SCREENS_NUM makes the written slot -1, before the array. */
  lemma DesktopSlotUnderflow(screens: nat)
    requires 0 < screens < 0x100
    ensures DesktopSlotAsWritten(screens, screens) == -1
  {
  }

  /**
   * The slot a nonzero screen number selects, counting screens from 1 and
   * wrapping round as the modulo in the code intends: always a valid slot,
   * screens 1..SCREENS_NUM select slots 0..SCREENS_NUM-1, and wherever the
   * written formula gives a valid slot this is the same one.
   */
  function DesktopSlot(ascreen: byte, screens: nat): (s: nat)
    requires ascreen != 0 && screens > 0
    ensures s < screens
    ensures ascreen <= screens ==> s == ascreen - 1
    ensures ascreen % screens != 0 ==> s == DesktopSlotAsWritten(ascreen, screens)
  {
    Arith.ModPred(ascreen, screens);
    Arith.ModPredSmall(ascreen, screens);
    (ascreen - 1) % screens
  }

  /** `lightmap` and `light_state`. */
  class Lights {
    const env: Env
    /** `lightmap.data[LAYERS_NUM][ROWS_NUM][COLS_NUM]`: the light type of each key position. */
    const lightmap: array3<byte>
    /** `light_state.desktop[SCREENS_NUM]` */
    const desktop: array<byte>
    var micMute: byte
    var mute: byte
    var volume: u16

    ghost predicate Valid()
      reads this
    {
      env.screens > 0 && desktop.Length == env.screens &&
      lightmap.Length0 == Config.LAYERS_NUM && lightmap.Length1 == Config.ROWS_NUM && lightmap.Length2 == Config.COLS_NUM
    }

    /** The map of one layer, row by row. */
    function Grid(layer: byte): (grid: seq<byte>)
      requires Valid() && layer < Config.LAYERS_NUM
      reads this, lightmap
      ensures |grid| == Config.RGB_KEYS_NUM
    {
      seq(Config.RGB_KEYS_NUM, k requires 0 <= k < Config.RGB_KEYS_NUM reads lightmap => lightmap[layer, k / 5, k % 5])
    }

    /** `light_state` as a value. */
    function Current(): State
      reads this, desktop
    {
      State(desktop[..], micMute, mute, volume)
    }

    /** The static storage: the initial map on every layer and a zeroed state. */
    constructor (e: Env)
      requires e.screens > 0
      ensures Valid() && env == e && fresh(lightmap) && fresh(desktop)
      ensures forall l :: 0 <= l < Config.LAYERS_NUM ==> Grid(l) == INITIAL_MAP
      ensures Current() == State(seq(e.screens, _ => 0), 0, 0, 0)
    {
      env := e;
      lightmap := new byte[Config.LAYERS_NUM, Config.ROWS_NUM, Config.COLS_NUM]((l, r, c) requires 0 <= r < 5 && 0 <= c < 5 => INITIAL_MAP[5 * r + c]);
      desktop := new byte[e.screens](_ => 0);
      micMute, mute, volume := 0, 0, 0;
      new;
      forall l | 0 <= l < Config.LAYERS_NUM
        ensures Grid(l) == INITIAL_MAP
      {
        assert forall k :: 0 <= k < Config.RGB_KEYS_NUM ==> 5 * (k / 5) + k % 5 == k;
      }
    }

    /** `light_init`: the state back to zero; the map is kept. */
    method Init()
      requires Valid()
      modifies this, desktop
      ensures Valid()
      ensures Current() == State(seq(env.screens, _ => 0), 0, 0, 0)
    {
      forall s | 0 <= s < desktop.Length {
        desktop[s] := 0;
      }
      micMute, mute, volume := 0, 0, 0;
    }

    /** `light_set`: an out-of-range layer, row or column is rejected; otherwise one cell of the map changes. */
    method Set(l: byte, r: byte, c: byte, v: byte)
      requires Valid()
      modifies lightmap
      ensures Valid()
      ensures l >= Config.LAYERS_NUM || r >= Config.ROWS_NUM || c >= Config.COLS_NUM ==>
        forall i, j, k :: 0 <= i < Config.LAYERS_NUM && 0 <= j < Config.ROWS_NUM && 0 <= k < Config.COLS_NUM ==>
          lightmap[i, j, k] == old(lightmap[i, j, k])
      ensures l < Config.LAYERS_NUM && r < Config.ROWS_NUM && c < Config.COLS_NUM ==>
        forall i, j, k :: 0 <= i < Config.LAYERS_NUM && 0 <= j < Config.ROWS_NUM && 0 <= k < Config.COLS_NUM ==>
          lightmap[i, j, k] == if (i, j, k) == (l as int, r as int, c as int) then v else old(lightmap[i, j, k])
    {
      if l >= Config.LAYERS_NUM || r >= Config.ROWS_NUM || c >= Config.COLS_NUM {
        return;
      }
      lightmap[l, r, c] := v;
    }

    /**
     * `light_apply_state`: walk the keys of the current layer row by row
     * and request a colour for each selected cell whose type has a case.
     */
    method ApplyState(only: byte, layer: byte, pal: Palette.Table) returns (calls: seq<EaseCall>)
      requires Valid() && layer < Config.LAYERS_NUM && pal.Valid()
      ensures calls == CallsUpTo(Grid(layer), only, Config.RGB_KEYS_NUM, layer, Current(), env, pal.slots[..])
    {
      var screen := 0;
      calls := [];
      var r: byte := 0;
      while r < Config.ROWS_NUM
        invariant r <= Config.ROWS_NUM
        invariant screen == ScreenAfter(Grid(layer), only, 5 * r, env.screens)
        invariant calls == CallsUpTo(Grid(layer), only, 5 * r, layer, Current(), env, pal.slots[..])
      {
        calls, screen := ApplyRow(r, only, layer, pal, screen, calls);
        r := r + 1;
      }
    }

    /** One iteration of the outer loop of `light_apply_state`: the columns of row r. */
    method ApplyRow(r: byte, only: byte, layer: byte, pal: Palette.Table, screen: nat, calls: seq<EaseCall>)
      returns (calls': seq<EaseCall>, screen': nat)
      requires Valid() && layer < Config.LAYERS_NUM && pal.Valid() && r < Config.ROWS_NUM
      requires screen == ScreenAfter(Grid(layer), only, 5 * r, env.screens)
      requires calls == CallsUpTo(Grid(layer), only, 5 * r, layer, Current(), env, pal.slots[..])
      ensures screen' == ScreenAfter(Grid(layer), only, 5 * r + 5, env.screens)
      ensures calls' == CallsUpTo(Grid(layer), only, 5 * r + 5, layer, Current(), env, pal.slots[..])
    {
      calls', screen' := calls, screen;
      var c: byte := 0;
      while c < Config.COLS_NUM
        invariant c <= Config.COLS_NUM
        invariant screen' == ScreenAfter(Grid(layer), only, 5 * r + c, env.screens)
        invariant calls' == CallsUpTo(Grid(layer), only, 5 * r + c, layer, Current(), env, pal.slots[..])
      {
        calls', screen' := ApplyCell(r, c, only, layer, pal, screen', calls');
        c := c + 1;
      }
    }

    /** One iteration of the inner loop of `light_apply_state`. */
    method ApplyCell(r: byte, c: byte, only: byte, layer: byte, pal: Palette.Table, screen: nat, calls: seq<EaseCall>)
      returns (calls': seq<EaseCall>, screen': nat)
      requires Valid() && layer < Config.LAYERS_NUM && pal.Valid()
      requires r < Config.ROWS_NUM && c < Config.COLS_NUM
      requires screen == ScreenAfter(Grid(layer), only, 5 * r + c, env.screens)
      requires calls == CallsUpTo(Grid(layer), only, 5 * r + c, layer, Current(), env, pal.slots[..])
      ensures screen' == ScreenAfter(Grid(layer), only, 5 * r + c + 1, env.screens)
      ensures calls' == CallsUpTo(Grid(layer), only, 5 * r + c + 1, layer, Current(), env, pal.slots[..])
    {
      var typ := lightmap[layer, r, c];
      assert (5 * r + c) / 5 == r && (5 * r + c) % 5 == c;
      assert typ == Grid(layer)[5 * r + c];
      calls', screen' := calls, screen;
      if only != 0 && typ != only {
        return;
      }
      var id := env.key2led(r, c);
      if typ == LIGHT_DESKTOP {
        var color := pal.Get(Wrap8(Palette.COLOR_1 + desktop[screen]));
        calls' := calls + [EaseCall(id, color, RgbEase.ColorHold, 0, 0)];
        screen' := (screen + 1) % env.screens;
      } else if typ == LIGHT_LAYER {
        var color := pal.Get(Wrap8(Palette.COLOR_6 + layer));
        calls' := calls + [EaseCall(id, color, RgbEase.ColorHold, 0, 0)];
      } else if typ == LIGHT_MUTE {
        var color;
        if micMute != 0 {
          if mute != 0 {
            color := env.red;
          } else {
            color := env.magenta;
          }
        } else {
          if mute != 0 {
            color := env.yellow;
          } else {
            color := env.green;
          }
        }
        calls' := calls + [EaseCall(id, color, RgbEase.ColorHold, env.stepFast, 0)];
      } else if typ == LIGHT_VOLUME {
        var color := env.yellow.(h := env.volumeToHue(volume));
        calls' := calls + [EaseCall(id, color, RgbEase.ColorHold, env.stepFast, 0)];
      }
    }

    /**
     * `light_set_desktop`: screen 0 shows the display on every screen,
     * screen n on screen n's slot; then the desktop lights are re-applied.
     */
    method SetDesktop(ascreen: byte, adisplay: byte, layer: byte, pal: Palette.Table) returns (calls: seq<EaseCall>)
      requires Valid() && layer < Config.LAYERS_NUM && pal.Valid()
      modifies desktop
      ensures Valid()
      ensures ascreen == 0 ==> desktop[..] == seq(env.screens, _ => adisplay)
      ensures ascreen != 0 ==> desktop[..] == old(desktop[..])[DesktopSlot(ascreen, env.screens) := adisplay]
      ensures calls == CallsUpTo(Grid(layer), LIGHT_DESKTOP, Config.RGB_KEYS_NUM, layer, Current(), env, pal.slots[..])
    {
      if ascreen == 0 {
        var s := 0;
        while s < env.screens
          invariant s <= env.screens
          invariant forall j :: 0 <= j < s ==> desktop[j] == adisplay
        {
          desktop[s] := adisplay;
          s := s + 1;
        }
      } else {
        desktop[DesktopSlot(ascreen, env.screens)] := adisplay;
      }
      calls := ApplyState(LIGHT_DESKTOP, layer, pal);
    }

    /** `light_set_layer`: the argument is not used; every light is re-applied for the current layer. */
    method SetLayer(alayer: byte, layer: byte, pal: Palette.Table) returns (calls: seq<EaseCall>)
      requires Valid() && layer < Config.LAYERS_NUM && pal.Valid()
      ensures calls == CallsUpTo(Grid(layer), 0, Config.RGB_KEYS_NUM, layer, Current(), env, pal.slots[..])
    {
      calls := ApplyState(0, layer, pal);
    }

    /** `light_set_mic_mute`: store the state, then re-apply the mute lights. */
    method SetMicMute(astate: byte, layer: byte, pal: Palette.Table) returns (calls: seq<EaseCall>)
      requires Valid() && layer < Config.LAYERS_NUM && pal.Valid()
      modifies this
      ensures Valid() && micMute == astate && mute == old(mute) && volume == old(volume)
      ensures calls == CallsUpTo(Grid(layer), LIGHT_MUTE, Config.RGB_KEYS_NUM, layer, Current(), env, pal.slots[..])
    {
      micMute := astate;
      calls := ApplyState(LIGHT_MUTE, layer, pal);
    }

    /** `light_set_mute`: store the state, then re-apply the mute lights. */
    method SetMute(astate: byte, layer: byte, pal: Palette.Table) returns (calls: seq<EaseCall>)
      requires Valid() && layer < Config.LAYERS_NUM && pal.Valid()
      modifies this
      ensures Valid() && mute == astate && micMute == old(micMute) && volume == old(volume)
      ensures calls == CallsUpTo(Grid(layer), LIGHT_MUTE, Config.RGB_KEYS_NUM, layer, Current(), env, pal.slots[..])
    {
      mute := astate;
      calls := ApplyState(LIGHT_MUTE, layer, pal);
    }

    /** `light_set_volume`: store the volume, then re-apply the volume lights. */
    method SetVolume(avolume: u16, layer: byte, pal: Palette.Table) returns (calls: seq<EaseCall>)
      requires Valid() && layer < Config.LAYERS_NUM && pal.Valid()
      modifies this
      ensures Valid() && volume == avolume && micMute == old(micMute) && mute == old(mute)
      ensures calls == CallsUpTo(Grid(layer), LIGHT_VOLUME, Config.RGB_KEYS_NUM, layer, Current(), env, pal.slots[..])
    {
      volume := avolume;
      calls := ApplyState(LIGHT_VOLUME, layer, pal);
    }
  }
}
