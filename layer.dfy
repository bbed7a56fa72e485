/**
 * Layer switching (layer.c): the active layer, the layer to return to,
 * and the flags of a layer key being held and of a one-shot layer waiting
 * for the next key.
 */
module Layer {
  import opened Types
  import Config

  /** The layer actions `LAYER_*` of a layer event; their numeric codes are not part of this model. */
  datatype Action = Move | Up | Down | NextKey | Hold | Other

  /** `layer`, `layer_previous`, `layer_active` and `layer_nextkey` as a value. */
  datatype State = State(layer: byte, previous: byte, active: bool, nextkey: bool)

  /** The state at reset: layer 0 and no flag set. */
  const Initial: State := State(0, 0, false, false)

  /** Both layer numbers name a layer. */
  predicate Valid(st: State)
  {
    st.layer < Config.LAYERS_NUM && st.previous < Config.LAYERS_NUM
  }

  /** `layer_advance(next)`: the current layer is saved and the next one taken modulo the number of layers. */
  function Advanced(st: State, next: byte): (r: State)
    requires Valid(st)
    ensures Valid(r) && r.previous == st.layer && r.active == st.active && r.nextkey == st.nextkey
    ensures next < Config.LAYERS_NUM ==> r.layer == next
  {
    st.(previous := st.layer, layer := next % Config.LAYERS_NUM)
  }

  /** `layer_return` */
  function Returned(st: State): State
  {
    st.(layer := st.previous)
  }

  /** The press branch of `layer_event`. */
  function Press(st: State, action: Action, number: byte): (r: State)
    requires Valid(st)
    ensures Valid(r)
  {
    var st := st.(active := true);
    match action
    case Move => Advanced(st, number)
    case Up => Advanced(st, Wrap8(st.layer + 1))
    case Down => Advanced(st, Wrap8(st.layer - 1))
    case NextKey => st.(active := false)
    case Hold => Advanced(st, number)
    case Other => st
  }

  /** The release branch of `layer_event`. */
  function Release(st: State, action: Action, number: byte): (r: State)
    requires Valid(st)
    ensures Valid(r)
  {
    match action
    case Move => st.(active := false)
    case Up => st.(active := false)
    case Down => st.(active := false)
    case NextKey => Advanced(st, number).(nextkey := true, active := true)
    case Hold => Returned(st).(active := false)
    case Other => st
  }

  /** `layer_event` as written: while a layer key is active, every layer event, press or release, is ignored. */
  function AfterEventAsWritten(st: State, action: Action, number: byte, pressed: bool): (r: State)
    requires Valid(st)
    ensures Valid(r)
  {
    if st.active then st
    else if pressed then Press(st, action, number)
    else Release(st, action, number)
  }

  /**
   * As written, the release of the key that set the flag is ignored too,
   * so after one press of a MOVE, UP, DOWN or HOLD key no later layer
   * event changes anything: the layer never changes again and a HOLD
   * layer is never left.
   */
  lemma StuckAsWritten(st: State, action: Action, number: byte, later: Action, n: byte, p: bool)
    requires Valid(st) && !st.active && action in {Move, Up, Down, Hold}
    ensures var pressed := AfterEventAsWritten(st, action, number, true);
      pressed.active &&
      AfterEventAsWritten(pressed, action, number, false) == pressed &&
      AfterEventAsWritten(pressed, later, n, p) == pressed
  {
  }

  /**
   * `layer_event` as the release branches evidently intend: while a layer
   * key is active, new presses are ignored, and releases are handled.
   */
  function AfterEvent(st: State, action: Action, number: byte, pressed: bool): (r: State)
    requires Valid(st)
    ensures Valid(r)
    ensures st.active && pressed ==> r == st
    ensures !st.active ==> r == AfterEventAsWritten(st, action, number, pressed)
  {
    if st.active && pressed then st
    else if pressed then Press(st, action, number)
    else Release(st, action, number)
  }

  /** `layer_use_event`: the release of the key after a one-shot layer returns to the previous layer. */
  function AfterUse(st: State, pressed: bool): (r: State)
    ensures pressed || !st.nextkey ==> r == st
    ensures !pressed && st.nextkey ==> r.layer == st.previous && !r.active && !r.nextkey
  {
    if !pressed && st.nextkey then Returned(st).(nextkey := false, active := false) else st
  }

  /** A MOVE press and its release land on the layer asked for, modulo the number of layers, and leave no flag set. */
  lemma MoveAndRelease(st: State, number: byte)
    requires Valid(st) && !st.active
    ensures var r := AfterEvent(AfterEvent(st, Move, number, true), Move, number, false);
      r.layer == number % Config.LAYERS_NUM && r.previous == st.layer && !r.active && r.nextkey == st.nextkey
  {
  }

  /** A HOLD key switches layer while held and returns to the starting layer on release. */
  lemma HoldAndRelease(st: State, number: byte)
    requires Valid(st) && !st.active
    ensures AfterEvent(st, Hold, number, true).layer == number % Config.LAYERS_NUM
    ensures var r := AfterEvent(AfterEvent(st, Hold, number, true), Hold, number, false);
      r.layer == st.layer && !r.active
  {
  }

  /**
   * NEXTKEY: the press changes nothing but the flags, the release moves to
   * the layer and arms the one-shot, and the release of the next key
   * returns to the starting layer with every flag cleared.
   */
  lemma NextKeyOneShot(st: State, number: byte)
    requires Valid(st) && !st.active
    ensures var p := AfterEvent(st, NextKey, number, true);
      p.layer == st.layer && !p.active
    ensures var q := AfterEvent(AfterEvent(st, NextKey, number, true), NextKey, number, false);
      q.layer == number % Config.LAYERS_NUM && q.active && q.nextkey &&
      AfterUse(q, true) == q &&
      AfterUse(q, false) == State(st.layer, st.layer, false, false)
  {
  }

  /** UP wraps from the last layer to layer 0, but DOWN from layer 0 passes 255, and 255 % 3 is 0: layer 0 stays. */
  lemma UpDownEdges(st: State, number: byte)
    requires Valid(st) && !st.active
    ensures st.layer == Config.LAYERS_NUM - 1 ==> AfterEvent(st, Up, number, true).layer == 0
    ensures st.layer == 0 ==> AfterEvent(st, Down, number, true).layer == 0
    ensures st.layer > 0 ==> AfterEvent(st, Down, number, true).layer == st.layer - 1
  {
  }

  /** The layer globals of layer.c. */
  class Layers {
    var layer: byte
    var previous: byte
    var active: bool
    var nextkey: bool

    function Current(): State
      reads this
    {
      State(layer, previous, active, nextkey)
    }

    /** The static initial values. */
    constructor ()
      ensures Current() == Initial && Valid(Current())
    {
      layer, previous, active, nextkey := 0, 0, false, false;
    }

    /** `layer_advance` */
    method Advance(next: byte)
      requires Valid(Current())
      modifies this
      ensures Current() == Advanced(old(Current()), next)
    {
      previous := layer;
      layer := next % Config.LAYERS_NUM;
    }

    /** `layer_return` */
    method Return()
      modifies this
      ensures Current() == Returned(old(Current()))
    {
      layer := previous;
    }

    /** `layer_event`, with the active guard applied to presses only. */
    method Event(action: Action, number: byte, pressed: bool)
      requires Valid(Current())
      modifies this
      ensures Current() == AfterEvent(old(Current()), action, number, pressed)
    {
      if active && pressed {
        return;
      }
      if pressed {
        active := true;
        match action
        case Move => Advance(number);
        case Up => Advance(Wrap8(layer + 1));
        case Down => Advance(Wrap8(layer - 1));
        case NextKey => active := false;
        case Hold => Advance(number);
        case Other =>
      } else {
        match action
        case Move => active := false;
        case Up => active := false;
        case Down => active := false;
        case NextKey =>
          Advance(number);
          nextkey := true;
          active := true;
        case Hold =>
          Return();
          active := false;
        case Other =>
      }
    }

    /** `layer_use_event` */
    method UseEvent(pressed: bool)
      modifies this
      ensures Current() == AfterUse(old(Current()), pressed)
    {
      if !pressed && nextkey {
        nextkey := false;
        active := false;
        Return();
      }
    }
  }
}
