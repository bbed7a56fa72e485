/**
 * Mouse keys (mouse.c): a mouse or wheel key press becomes the
 * `report_mouse_t` sent to the host; releases send nothing.
 */
module Mouse {
  import opened Types

  /**
   * `report_mouse_t`: buttons, movement and wheel. The movement and wheel
   * fields are signed bytes on the wire; they are only copied, so they are
   * kept here as their bit patterns.
   */
  datatype Report = Report(buttons: byte, x: byte, y: byte, h: byte, v: byte)

  /** The static report before any event. */
  const Initial: Report := Report(0, 0, 0, 0, 0)

  /** The arguments of a mouse key (`event->mouse`) and of a wheel key (`event->wheel`). */
  datatype Motion = Motion(button: byte, x: byte, y: byte)
  datatype Scroll = Scroll(button: byte, h: byte, v: byte)

  /** A report moves the pointer or turns the wheel, never both. */
  predicate OneKind(r: Report)
  {
    (r.h == 0 && r.v == 0) || (r.x == 0 && r.y == 0)
  }

  /** The report after `mouse_event`: a press replaces every field, a release keeps the report. */
  function AfterMotion(st: Report, m: Motion, pressed: bool): (r: Report)
    ensures OneKind(st) ==> OneKind(r)
    ensures pressed ==> r.buttons == m.button && r.x == m.x && r.y == m.y && r.h == 0 && r.v == 0
    ensures !pressed ==> r == st
  {
    if pressed then Report(m.button, m.x, m.y, 0, 0) else st
  }

  /** The report after `wheel_event`: a press replaces every field, a release keeps the report. */
  function AfterScroll(st: Report, w: Scroll, pressed: bool): (r: Report)
    ensures OneKind(st) ==> OneKind(r)
    ensures pressed ==> r.buttons == w.button && r.h == w.h && r.v == w.v && r.x == 0 && r.y == 0
    ensures !pressed ==> r == st
  {
    if pressed then Report(w.button, 0, 0, w.h, w.v) else st
  }

  /** A press does not depend on the report before it: the host sees only the last key. */
  lemma PressForgetsPrevious(st: Report, st': Report, m: Motion, w: Scroll)
    ensures AfterMotion(st, m, true) == AfterMotion(st', m, true)
    ensures AfterScroll(st, w, true) == AfterScroll(st', w, true)
  {
  }

  /** The static `state` and the reports `usb_update_mouse` was handed, in order. */
  class Mouse {
    var state: Report
    var sent: seq<Report>

    ghost predicate Valid()
      reads this
    {
      OneKind(state) && forall i :: 0 <= i < |sent| ==> OneKind(sent[i])
    }

    constructor ()
      ensures Valid() && state == Initial && sent == []
    {
      state := Initial;
      sent := [];
    }

    /** `mouse_event`, with the event's button and movement passed in: one report per press, none per release. */
    method MotionEvent(m: Motion, pressed: bool)
      requires Valid()
      modifies this
      ensures Valid()
      ensures state == AfterMotion(old(state), m, pressed)
      ensures sent == old(sent) + if pressed then [state] else []
    {
      if pressed {
        state := state.(buttons := m.button, x := m.x, y := m.y);
        state := state.(h := 0, v := 0);
        sent := sent + [state];
      }
    }

    /** `wheel_event`, with the event's button and wheel movement passed in: one report per press, none per release. */
    method ScrollEvent(w: Scroll, pressed: bool)
      requires Valid()
      modifies this
      ensures Valid()
      ensures state == AfterScroll(old(state), w, pressed)
      ensures sent == old(sent) + if pressed then [state] else []
    {
      if pressed {
        state := state.(buttons := w.button, h := w.h, v := w.v);
        state := state.(x := 0, y := 0);
        sent := sent + [state];
      }
    }
  }
}
