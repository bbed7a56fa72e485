/**
 * The rotary encoder (rotary.c): a turn of the knob becomes the press of
 * the event stored for the current layer and direction, and that press is
 * released on a later call.
 */
module Rotary {
  import opened Types
  import Config
  import Keymap

  /** Directions, in the order of the columns of the rotary table. */
  const BACKWARD: byte := 0
  const FORWARD: byte := 1
  const NONE: byte := 2
  const DIRECTIONS: nat := 2

  /** The direction of a counter change: a plain unsigned comparison of the two readings. */
  function Direction(current: u16, previous: u16): (d: byte)
    ensures d == NONE <==> current == previous
    ensures d == FORWARD <==> current > previous
    ensures d < NONE ==> d < DIRECTIONS
  {
    if current > previous then FORWARD
    else if current < previous then BACKWARD
    else NONE
  }

  /** One step forward across the counter wrap, from 0xffff to 0, reads as a turn backwards. */
  lemma WrapReadsAsReversal()
    ensures Direction(0, 0xffff) == BACKWARD
    ensures Direction(0xffff, 0) == FORWARD
  {
  }

  /** `last_event`, as the table cell it points to, and `rotary_value`. */
  datatype State = State(last: Option<(nat, nat)>, value: u16)

  /** The shape of `rotary[LAYERS_NUM][ROTARY_DIRECTIONS]`. */
  predicate TableShape(table: seq<seq<Event>>)
  {
    |table| == Config.LAYERS_NUM && forall l :: 0 <= l < |table| ==> |table[l]| == DIRECTIONS
  }

  /** A pending press names a cell of the table. */
  predicate PendingValid(st: State)
  {
    st.last.Some? ==> st.last.value.0 < Config.LAYERS_NUM && st.last.value.1 < DIRECTIONS
  }

  /**
   * `rotary_process` for counter reading current on the given layer: the
   * new state and the calls `send_event_if_idle` makes. A pending press is
   * released first, and forgotten only when the release was sent; a turn
   * seen meanwhile is dropped. Otherwise a turn sends the press of its
   * cell, which becomes pending only when it was sent.
   */
  function Step(st: State, current: u16, layer: nat, table: seq<seq<Event>>, idle: Keymap.Idle, codes: Keymap.Codes): (r: (State, seq<Keymap.Call>))
    requires TableShape(table) && layer < Config.LAYERS_NUM && PendingValid(st)
    ensures PendingValid(r.0) && r.0.value == current
  {
    match st.last
    case Some((l, d)) =>
      var (sent, calls) := Keymap.SendEventIfIdle(table[l][d], 0, idle, codes);
      (State(if sent != 0 then None else st.last, current), calls)
    case None =>
      var d := Direction(current, st.value);
      if d == NONE then (State(None, current), [])
      else
        var (sent, calls) := Keymap.SendEventIfIdle(table[layer][d], 1, idle, codes);
        (State(if sent != 0 then Some((layer, d as nat)) else None, current), calls)
  }

  /** While a release is pending, only that release is tried; it is forgotten exactly when it was sent. */
  lemma PendingReleaseFirst(st: State, current: u16, layer: nat, table: seq<seq<Event>>, idle: Keymap.Idle, codes: Keymap.Codes)
    requires TableShape(table) && layer < Config.LAYERS_NUM && PendingValid(st) && st.last.Some?
    ensures var (l, d) := st.last.value;
      var (sent, calls) := Keymap.SendEventIfIdle(table[l][d], 0, idle, codes);
      Step(st, current, layer, table, idle, codes) == (State(if sent == 1 then None else st.last, current), calls)
  {
  }

  /**
   * Without a pending release: no turn, no call; a turn presses the cell
   * of its direction on the current layer, which is remembered exactly
   * when the press was sent.
   */
  lemma TurnPresses(st: State, current: u16, layer: nat, table: seq<seq<Event>>, idle: Keymap.Idle, codes: Keymap.Codes)
    requires TableShape(table) && layer < Config.LAYERS_NUM && PendingValid(st) && st.last.None?
    ensures current == st.value ==> Step(st, current, layer, table, idle, codes) == (State(None, current), [])
    ensures current != st.value ==>
      var d := Direction(current, st.value);
      var (sent, calls) := Keymap.SendEventIfIdle(table[layer][d], 1, idle, codes);
      Step(st, current, layer, table, idle, codes) == (State(if sent == 1 then Some((layer, d as nat)) else None, current), calls)
  {
  }

  /**
   * The handshake: with the endpoint idle, a turn presses the event of its
   * cell, and the next call releases that same event, whatever the knob
   * did in between, leaving nothing pending.
   */
  lemma PressThenRelease(st: State, current: u16, next: u16, layer: nat, table: seq<seq<Event>>, idle: Keymap.Idle, codes: Keymap.Codes)
    requires TableShape(table) && layer < Config.LAYERS_NUM && PendingValid(st) && st.last.None? && current != st.value
    requires var e := table[layer][Direction(current, st.value)];
      Keymap.HandlerOf(e.kind, codes).Some? &&
      Keymap.HandlerOf(e.kind, codes).value !in {Keymap.LayerSwitch, Keymap.Macro, Keymap.System} &&
      Keymap.EndpointIdle(Keymap.HandlerOf(e.kind, codes).value, idle)
    ensures var e := table[layer][Direction(current, st.value)];
      var h := Keymap.HandlerOf(e.kind, codes).value;
      var first := Step(st, current, layer, table, idle, codes);
      var second := Step(first.0, next, layer, table, idle, codes);
      first.1 == [Keymap.Handle(h, e, true)] &&
      second.1 == [Keymap.Handle(h, e, false)] && second.0 == State(None, next)
  {
  }

  /** The bounds check of `rotary_set` as written: the layer is compared with `>`. */
  predicate SetAcceptsAsWritten(l: byte, d: byte)
  {
    !(l > Config.LAYERS_NUM || d >= NONE)
  }

  /** Layer 3, one past the last row of the table, passes the written check. */
  lemma SetAcceptsLayerPastEnd()
    ensures SetAcceptsAsWritten(Config.LAYERS_NUM, BACKWARD) && Config.LAYERS_NUM == 3
  {
  }

  /** The bounds check `rotary_set` evidently intends: exactly the cells of the table, all of which the written check accepts too. */
  function SetAccepts(l: byte, d: byte): (ok: bool)
    ensures ok <==> l < Config.LAYERS_NUM && d < DIRECTIONS
    ensures ok ==> SetAcceptsAsWritten(l, d)
  {
    !(l >= Config.LAYERS_NUM || d >= NONE)
  }

  /** `last_event`, `rotary_value` and the rotary table. */
  class Encoder {
    const table: array2<Event>
    var last: Option<(nat, nat)>
    var value: u16

    ghost predicate Valid()
      reads this
    {
      table.Length0 == Config.LAYERS_NUM && table.Length1 == DIRECTIONS && PendingValid(Current())
    }

    function Current(): State
      reads this
    {
      State(last, value)
    }

    /** The table as rows of cells. */
    function Contents(): (t: seq<seq<Event>>)
      requires Valid()
      reads this, table
      ensures TableShape(t)
      ensures forall l, d :: 0 <= l < Config.LAYERS_NUM && 0 <= d < DIRECTIONS ==> t[l][d] == table[l, d]
    {
      seq(Config.LAYERS_NUM, l requires 0 <= l < Config.LAYERS_NUM reads this, table =>
        seq(DIRECTIONS, d requires 0 <= d < DIRECTIONS reads this, table => table[l, d]))
    }

    /**
     * The static table: layer 0 holds the volume-down and volume-up events
     * (their codes are passed in), every other layer is zero; `rotary_init`
     * then stores the counter's first reading.
     */
    constructor (down: Event, up: Event, counter: u16)
      ensures Valid() && fresh(table) && Current() == State(None, counter)
      ensures Contents() == [[down, up], [ZeroEvent, ZeroEvent], [ZeroEvent, ZeroEvent]]
    {
      table := new Event[Config.LAYERS_NUM, DIRECTIONS]((l, d) =>
        if l == 0 then (if d == 0 then down else up) else ZeroEvent);
      last := None;
      value := counter;
      new;
      ghost var t := Contents();
      assert t[0] == [down, up] && t[1] == [ZeroEvent, ZeroEvent] && t[2] == [ZeroEvent, ZeroEvent];
    }

    /** `rotary_process`, with the counter reading and the layer of layer.c passed in. */
    method Process(current: u16, layer: byte, idle: Keymap.Idle, codes: Keymap.Codes) returns (calls: seq<Keymap.Call>)
      requires Valid() && layer < Config.LAYERS_NUM
      modifies this
      ensures Valid()
      ensures (Current(), calls) == Step(old(Current()), current, layer, Contents(), idle, codes)
    {
      calls := [];
      if last.Some? {
        var (l, d) := last.value;
        var sent;
        var r := Keymap.SendEventIfIdle(table[l, d], 0, idle, codes);
        sent, calls := r.0, r.1;
        if sent != 0 {
          last := None;
        }
      } else {
        var direction := Direction(current, value);
        if direction != NONE {
          var sent;
          var r := Keymap.SendEventIfIdle(table[layer, direction], 1, idle, codes);
          sent, calls := r.0, r.1;
          if sent != 0 {
            last := Some((layer as nat, direction as nat));
          }
        }
      }
      value := current;
    }

    /** `rotary_set`, with the corrected check: a position outside the table changes nothing; otherwise one cell is copied. */
    method Set(l: byte, d: byte, event: Event)
      requires Valid()
      modifies table
      ensures Valid()
      ensures !SetAccepts(l, d) ==> Contents() == old(Contents())
      ensures SetAccepts(l, d) ==> Contents() == old(Contents())[l := old(Contents())[l][d := event]]
    {
      if l >= Config.LAYERS_NUM || d >= NONE {
        return;
      }
      ghost var before := Contents();
      table[l, d] := event;
      ghost var after := Contents();
      forall i | 0 <= i < Config.LAYERS_NUM
        ensures after[i] == before[l := before[l][d := event]][i]
      {
      }
    }
  }
}
