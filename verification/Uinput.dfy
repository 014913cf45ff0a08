/** The evdev events the uinput devices write, and a device that may stop accepting them. */
module Uinput {
  import opened Common

  /** One input event: a frame end, a key transition or an absolute axis value. */
  datatype Event =
    | Syn
    | Key(code: nat, value: int)
    | Abs(code: nat, value: int)

  const ABS_X: nat := 0x00
  const ABS_Y: nat := 0x01
  const ABS_PRESSURE: nat := 0x18
  const ABS_DISTANCE: nat := 0x19
  const ABS_TILT_X: nat := 0x1a
  const ABS_TILT_Y: nat := 0x1b
  const ABS_MT_SLOT: nat := 0x2f
  const ABS_MT_TOUCH_MAJOR: nat := 0x30
  const ABS_MT_TOUCH_MINOR: nat := 0x31
  const ABS_MT_POSITION_X: nat := 0x35
  const ABS_MT_POSITION_Y: nat := 0x36
  const ABS_MT_TRACKING_ID: nat := 0x39
  const ABS_MT_PRESSURE: nat := 0x3a
  const BTN_TOOL_PEN: nat := 0x140
  const BTN_TOOL_RUBBER: nat := 0x141
  const BTN_TOUCH: nat := 0x14a
  const BTN_STYLUS: nat := 0x14b

  function Flag(b: bool): int {
    if b then 1 else 0
  }

  /** How far a list of events gets when only `writes` more are accepted. */
  function Accepted(events: seq<Event>, writes: nat): (e: seq<Event>)
    ensures |e| <= |events|
    ensures |e| == |events| <==> writes >= |events|
  {
    if writes >= |events| then events else events[..writes]
  }

  /** A uinput file: what it has taken so far, and how many more writes it takes before failing. */
  class Device {
    var log: seq<Event>
    var writes: nat

    constructor ()
      ensures log == [] && writes == 0
    {
      log, writes := [], 0;
    }

    /** Emits events one by one and gives up at the first refused write. */
    method Emit(events: seq<Event>) returns (ok: bool)
      modifies this
      ensures ok == (old(writes) >= |events|)
      ensures log == old(log) + Accepted(events, old(writes))
      ensures writes == if ok then old(writes) - |events| else 0
    {
      var i := 0;
      while i < |events|
        invariant i <= |events| && i <= old(writes)
        invariant log == old(log) + events[..i] && writes == old(writes) - i
      {
        if writes == 0 {
          return false;
        }
        log := log + [events[i]];
        writes := writes - 1;
        i := i + 1;
      }
      assert events[..|events|] == events;
      ok := true;
    }
  }
}
