/**
 * The keymap (keymap.c): the event stored for every layer and key
 * position, and the dispatch of a key event to the module that handles
 * its type. The handlers themselves are calls into other modules and are
 * recorded as calls.
 */
module Keymap {
  import opened Types
  import Config

  /** The event type codes `KMT_*`, whose values are not part of this model. */
  datatype Codes = Codes(key: byte, mouse: byte, automouse: byte, wheel: byte, consumer: byte, system: byte, layer: byte, macro: byte)

  /** The modules a key event can be handed to. */
  datatype Handler = Keyboard | Mouse | Automouse | Wheel | Consumer | System | LayerSwitch | Macro

  /** A call keymap.c makes into another module. */
  datatype Call =
    /** `rgbease_event(row, col, pressed)`: the LED reaction to the key. */
    | RgbEvent(row: u16, col: u16, pressed: bool)
    /** The handler's event function, such as `keyboard_event(event, pressed)`. */
    | Handle(handler: Handler, event: Event, pressed: bool)

  /** The `USB` endpoints' idle flags that `send_event_if_idle` reads. */
  datatype Idle = Idle(keyboard: bool, nkro: bool, mouse: bool, extrakey: bool)

  /** The handler the switch of `keymap_event` selects for an event type, in the order of its cases. */
  function HandlerOf(kind: byte, codes: Codes): (h: Option<Handler>)
    ensures h.None? <==> kind !in {codes.key, codes.mouse, codes.automouse, codes.wheel, codes.consumer, codes.system, codes.layer, codes.macro}
    ensures h == Some(Keyboard) <==> kind == codes.key
    ensures h == Some(System) ==> kind == codes.system
  {
    if kind == codes.key then Some(Keyboard)
    else if kind == codes.mouse then Some(Mouse)
    else if kind == codes.automouse then Some(Automouse)
    else if kind == codes.wheel then Some(Wheel)
    else if kind == codes.consumer then Some(Consumer)
    else if kind == codes.system then Some(System)
    else if kind == codes.layer then Some(LayerSwitch)
    else if kind == codes.macro then Some(Macro)
    else None
  }

  /**
   * `keymap_event` for the event the layer module returned for the key:
   * the LED reaction always comes first, then exactly one handler for a
   * listed type and none for any other.
   */
  function KeymapEvent(row: u16, col: u16, pressed: bool, event: Event, codes: Codes): (calls: seq<Call>)
    ensures 1 <= |calls| <= 2 && calls[0] == RgbEvent(row, col, pressed)
    ensures |calls| == 2 <==> HandlerOf(event.kind, codes).Some?
    ensures forall i :: 1 <= i < |calls| ==> calls[i] == Handle(HandlerOf(event.kind, codes).value, event, pressed)
  {
    [RgbEvent(row, col, pressed)] +
      match HandlerOf(event.kind, codes)
      case None => []
      case Some(h) => [Handle(h, event, pressed)]
  }

  /** Whether the endpoints a handler reports through are idle. */
  function EndpointIdle(h: Handler, idle: Idle): bool
  {
    match h
    case Keyboard => idle.keyboard && idle.nkro
    case Mouse => idle.mouse
    case Automouse => idle.mouse
    case Wheel => idle.mouse
    case Consumer => idle.extrakey
    case System => idle.extrakey
    case LayerSwitch => true
    case Macro => true
  }

  /**
   * `send_event_if_idle`: 0 and no call when the handler's endpoint is
   * busy; otherwise 1, with the handler called unless the type is not one
   * of the six reporting types. A system event is always sent as a press.
   */
  function SendEventIfIdle(event: Event, press: byte, idle: Idle, codes: Codes): (r: (byte, seq<Call>))
    ensures r.0 < 2 && |r.1| <= 1
    ensures r.0 == 0 ==> r.1 == []
    ensures r.1 != [] ==> r.0 == 1 && r.1[0].Handle? && Some(r.1[0].handler) == HandlerOf(event.kind, codes) && r.1[0].event == event
  {
    match HandlerOf(event.kind, codes)
    case None => (1, [])
    case Some(h) =>
      if h == LayerSwitch || h == Macro then (1, [])
      else if !EndpointIdle(h, idle) then (0, [])
      else (1, [Handle(h, event, if h == System then true else press != 0)])
  }

  /** A key event is only sent when both the keyboard and the NKRO endpoint are idle. */
  lemma KeyNeedsBothEndpoints(event: Event, press: byte, idle: Idle, codes: Codes)
    requires event.kind == codes.key
    ensures SendEventIfIdle(event, press, idle, codes).0 == 1 <==> idle.keyboard && idle.nkro
    ensures SendEventIfIdle(event, press, idle, codes).0 == 1 ==>
      SendEventIfIdle(event, press, idle, codes).1 == [Handle(Keyboard, event, press != 0)]
  {
  }

  /** Types without a reporting case report success and make no call; system events always go out as presses. */
  lemma SendUnlistedAndSystem(event: Event, press: byte, idle: Idle, codes: Codes)
    ensures HandlerOf(event.kind, codes) in {None, Some(LayerSwitch), Some(Macro)} ==> SendEventIfIdle(event, press, idle, codes) == (1, [])
    ensures HandlerOf(event.kind, codes) == Some(System) && idle.extrakey ==>
      SendEventIfIdle(event, press, idle, codes) == (1, [Handle(System, event, true)])
  {
  }

  /**
   * When the endpoint is idle, sending an event of a reporting type makes
   * the same handler call as `keymap_event` for that key state, except
   * that a system release goes out as a press.
   */
  lemma SendMatchesDispatch(row: u16, col: u16, event: Event, press: byte, idle: Idle, codes: Codes)
    requires HandlerOf(event.kind, codes).Some? && HandlerOf(event.kind, codes).value !in {LayerSwitch, Macro, System}
    requires EndpointIdle(HandlerOf(event.kind, codes).value, idle)
    ensures SendEventIfIdle(event, press, idle, codes).1 == KeymapEvent(row, col, press != 0, event, codes)[1..]
  {
    var calls := KeymapEvent(row, col, press != 0, event, codes);
    assert calls[1..] == [calls[1]];
  }

  /** The flat position `keymap_get` returns, as written: only indices strictly above the bounds are rejected. */
  function GetAsWritten(l: byte, r: byte, c: byte): (offset: Option<nat>)
  {
    if l > Config.LAYERS_NUM || r > Config.ROWS_NUM || c > Config.COLS_NUM then None
    else Some(l * 25 + r * 5 + c)
  }

  /**
   * Indices equal to the bounds pass the check: layer 3 addresses a cell
   * past the 75 of the table, and column 5 of row 0 is the cell of row 1,
   * column 0.
   */
  lemma GetAsWrittenOverruns()
    ensures GetAsWritten(3, 0, 0) == Some(75) && 75 == Config.LAYERS_NUM * Config.RGB_KEYS_NUM
    ensures GetAsWritten(0, 0, 5) == GetAsWritten(0, 1, 0)
  {
  }

  /**
   * `keymap_get` with the bounds check it evidently intends: a position
   * inside the table, or nothing; it agrees with the written check on
   * every position inside the table.
   */
  function Position(l: byte, r: byte, c: byte): (p: Option<(nat, nat, nat)>)
    ensures p.Some? <==> l < Config.LAYERS_NUM && r < Config.ROWS_NUM && c < Config.COLS_NUM
    ensures p.Some? ==> p.value == (l as nat, r as nat, c as nat) && GetAsWritten(l, r, c) == Some(l * 25 + r * 5 + c)
  {
    if l >= Config.LAYERS_NUM || r >= Config.ROWS_NUM || c >= Config.COLS_NUM then None
    else Some((l as nat, r as nat, c as nat))
  }

  /** Distinct positions inside the table have distinct flat offsets, so the corrected check never aliases. */
  lemma PositionsDistinct(l: byte, r: byte, c: byte, l': byte, r': byte, c': byte)
    requires Position(l, r, c).Some? && Position(l', r', c').Some?
    requires (l, r, c) != (l', r', c')
    ensures GetAsWritten(l, r, c) != GetAsWritten(l', r', c')
  {
  }

  /** `keymap[LAYERS_NUM][ROWS_NUM][COLS_NUM]` */
  class Keymap {
    const cells: array3<Event>

    ghost predicate Valid()
      reads this
    {
      cells.Length0 == Config.LAYERS_NUM && cells.Length1 == Config.ROWS_NUM && cells.Length2 == Config.COLS_NUM
    }

    /** The static table; its key codes are not part of this model and are passed in. */
    constructor (initial: (int, int, int) -> Event)
      ensures Valid() && fresh(cells)
      ensures forall l, r, c :: 0 <= l < Config.LAYERS_NUM && 0 <= r < Config.ROWS_NUM && 0 <= c < Config.COLS_NUM ==>
        cells[l, r, c] == initial(l, r, c)
    {
      cells := new Event[Config.LAYERS_NUM, Config.ROWS_NUM, Config.COLS_NUM]((l, r, c) => initial(l, r, c));
    }

    /** `keymap_get`, with the corrected bounds check. */
    function Get(l: byte, r: byte, c: byte): (e: Option<Event>)
      requires Valid()
      reads this, cells
      ensures e.Some? <==> Position(l, r, c).Some?
      ensures e.Some? ==> e.value == cells[l, r, c]
    {
      if Position(l, r, c).None? then None else Some(cells[l, r, c])
    }

    /** `keymap_set`: an index at or past any bound changes nothing; otherwise exactly one cell is copied. */
    method Set(l: byte, r: byte, c: byte, event: Event)
      requires Valid()
      modifies cells
      ensures Valid()
      ensures Position(l, r, c).None? ==>
        forall i, j, k :: 0 <= i < Config.LAYERS_NUM && 0 <= j < Config.ROWS_NUM && 0 <= k < Config.COLS_NUM ==>
          cells[i, j, k] == old(cells[i, j, k])
      ensures Position(l, r, c).Some? ==>
        forall i, j, k :: 0 <= i < Config.LAYERS_NUM && 0 <= j < Config.ROWS_NUM && 0 <= k < Config.COLS_NUM ==>
          cells[i, j, k] == if (i, j, k) == (l as int, r as int, c as int) then event else old(cells[i, j, k])
      ensures Position(l, r, c).Some? ==> Get(l, r, c) == Some(event)
    {
      if l >= Config.LAYERS_NUM || r >= Config.ROWS_NUM || c >= Config.COLS_NUM {
        return;
      }
      cells[l, r, c] := event;
    }
  }
}
