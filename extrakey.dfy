/**
 * Consumer and system keys (extrakey.c): a key event becomes the
 * `report_extrakey_t` sent to the host, a report id and a 16-bit usage
 * code split into its low and high byte.
 */
module Extrakey {
  import opened Types

  /** `report_extrakey_t`: report id, low and high byte of the usage code. */
  datatype Report = Report(id: byte, codel: byte, codeh: byte)

  /** `REPORTID_CONSUMER` and `REPORTID_SYSTEM`, whose values are defined by the USB descriptors and passed in. */
  datatype ReportIds = ReportIds(consumer: byte, system: byte)

  /** The static report before any event. */
  const Initial: Report := Report(0, 0, 0)

  /** The usage code the host reads back from a report, low byte first. */
  function Code(r: Report): (code: u16)
  {
    r.codeh * 0x100 + r.codel
  }

  /** `code & 0xff` and `code >> 8`: the two bytes put together again give the code. */
  function Split(code: u16): (bytes: (byte, byte))
    ensures bytes.1 * 0x100 + bytes.0 == code
    ensures bytes.1 == 0 <==> code < 0x100
  {
    (code % 0x100, code / 0x100)
  }

  /**
   * The report after an event with the given report id: a press carries the
   * event's code, a release the code 0. Every field is written, so the
   * previous report does not matter.
   */
  function After(id: byte, code: u16, pressed: bool): (r: Report)
    ensures r.id == id
    ensures Code(r) == if pressed then code else 0
  {
    if pressed then
      var (low, high) := Split(code);
      Report(id, low, high)
    else
      Report(id, 0, 0)
  }

  /** The fields of a report are fixed by the code it carries: a report is read back exactly. */
  lemma CodeDetermines(r: Report, s: Report)
    requires r.id == s.id && Code(r) == Code(s)
    ensures r == s
  {
    assert r.codeh == Code(r) / 0x100 && s.codeh == Code(s) / 0x100;
  }

  /** A press followed by its release sends the code and then 0, each under the id of the event's kind. */
  lemma PressThenRelease(ids: ReportIds, code: u16)
    ensures Code(After(ids.consumer, code, true)) == code && Code(After(ids.consumer, code, false)) == 0
    ensures After(ids.system, code, false) == Report(ids.system, 0, 0)
  {
  }

  /** The static `state` and the reports `usb_update_extrakey` was handed, in order. */
  class Extrakey {
    const ids: ReportIds
    var state: Report
    var sent: seq<Report>

    constructor (ids: ReportIds)
      ensures this.ids == ids && state == Initial && sent == []
    {
      this.ids := ids;
      state := Initial;
      sent := [];
    }

    /** Writes the report for the event and hands it to the USB layer, once. */
    method Update(id: byte, code: u16, pressed: bool)
      modifies this
      ensures state == After(id, code, pressed) && sent == old(sent) + [state]
    {
      state := state.(id := id);
      if pressed {
        var (low, high) := Split(code);
        state := state.(codel := low, codeh := high);
      } else {
        state := state.(codel := 0, codeh := 0);
      }
      sent := sent + [state];
    }

    /** `extrakey_consumer_event`, with the event's usage code passed in. */
    method ConsumerEvent(code: u16, pressed: bool)
      modifies this
      ensures state == After(ids.consumer, code, pressed) && sent == old(sent) + [state]
    {
      Update(ids.consumer, code, pressed);
    }

    /** `extrakey_system_event`, with the event's usage code passed in. */
    method SystemEvent(code: u16, pressed: bool)
      modifies this
      ensures state == After(ids.system, code, pressed) && sent == old(sent) + [state]
    {
      Update(ids.system, code, pressed);
    }
  }
}
