/**
 * The two translations of a pad snapshot to a DualShock 4: the report of the HID codec with
 * its rolling counter, and the structure handed to the ViGEm bus.
 */
module DualShock4 {
  import opened Common
  import opened Bytes
  import opened Gamepad

  const INPUT_LEN: nat := 64
  const INPUT_ID: byte := 0x01

  // ---------------------------------------------------------------------------
  // The HID codec
  // ---------------------------------------------------------------------------

  function FaceByte(s: Snapshot): byte {
    Hat(s) + Bit(Pressed(s, X), 0x10) + Bit(Pressed(s, A), 0x20) + Bit(Pressed(s, B), 0x40) + Bit(Pressed(s, Y), 0x80)
  }

  function ShoulderByte(s: Snapshot): byte {
    Bit(Pressed(s, LEFT_SHOULDER), 0x01) + Bit(Pressed(s, RIGHT_SHOULDER), 0x02)
    + Bit(s.leftTrigger > 0, 0x04) + Bit(s.rightTrigger > 0, 0x08)
    + Bit(Pressed(s, BACK), 0x10) + Bit(Pressed(s, START), 0x20)
    + Bit(Pressed(s, LEFT_THUMB), 0x40) + Bit(Pressed(s, RIGHT_THUMB), 0x80)
  }

  type Counter = c: nat | c < 0x40

  function HidReport(counter: Counter, s: Snapshot): (r: seq<byte>)
    ensures |r| == INPUT_LEN
  {
    [
      INPUT_ID, StickByte(s.lx), StickByteInverted(s.ly), StickByte(s.rx), StickByteInverted(s.ry),
      FaceByte(s), ShoulderByte(s), 4 * counter + Bit(Pressed(s, GUIDE), 0x01), s.leftTrigger, s.rightTrigger
    ] + Rest()
  }

  /** The report's fixed tail from byte 10 on. */
  function Rest(): (r: seq<byte>)
    ensures |r| == INPUT_LEN - 10
  {
    Zeros(20) + [0x1B] + Zeros(4) + [0x80, 0x80, 0x80, 0x80, 0x80, 0x80, 0x80, 0x80] + Zeros(21)
  }

  class Codec {
    var counter: Counter

    constructor ()
      ensures counter == 0
    {
      counter := 0;
    }

    method WriteRest(out: array<byte>)
      requires out.Length == INPUT_LEN && forall k :: 10 <= k < INPUT_LEN ==> out[k] == 0
      modifies out
      ensures out[..10] == old(out[..10]) && out[10..] == Rest()
    {
      out[30] := 0x1B;
      for i := 35 to 43
        invariant out[..10] == old(out[..10]) && out[30] == 0x1B
        invariant forall k :: 10 <= k < INPUT_LEN && k != 30 ==> out[k] == if 35 <= k < i then 0x80 else 0
      {
        out[i] := 0x80;
      }
    }

    method Encode(state: Snapshot) returns (report: seq<byte>)
      modifies this
      ensures counter == (old(counter) + 1) % 0x40
      ensures report == HidReport(counter, state)
    {
      hide FaceByte, ShoulderByte, StickByte, StickByteInverted, Pressed, Rest;
      var out := new byte[INPUT_LEN](_ => 0);
      counter := (counter + 1) % 0x40;
      WriteFront(out, state);
      WriteRest(out);
      report := out[..];
    }

    method WriteFront(out: array<byte>, state: Snapshot)
      requires out.Length == INPUT_LEN
      modifies out
      ensures out[..10] == HidReport(counter, state)[..10] && out[10..] == old(out[10..])
    {
      var ps := 4 * counter + Bit(Pressed(state, GUIDE), 0x01);
      hide FaceByte, ShoulderByte, StickByte, StickByteInverted, Pressed, Rest, Bit;
      out[0] := INPUT_ID;
      out[1], out[2] := StickByte(state.lx), StickByteInverted(state.ly);
      out[3], out[4] := StickByte(state.rx), StickByteInverted(state.ry);
      out[5], out[6], out[7] := FaceByte(state), ShoulderByte(state), ps;
      out[8], out[9] := state.leftTrigger, state.rightTrigger;
    }
  }

  /** The counter byte of the reports a fresh codec makes, one for every snapshot. */
  function Reports(states: seq<Snapshot>): (r: seq<seq<byte>>)
    ensures |r| == |states| && forall k :: 0 <= k < |r| ==> |r[k]| == INPUT_LEN
    decreases |states|
  {
    if states == [] then [] else Reports(DropLast(states)) + [HidReport(|states| % 0x40, Last(states))]
  }

  /** A fresh codec in front of any run of snapshots makes exactly those reports. */
  method EncodeAll(states: seq<Snapshot>) returns (reports: seq<seq<byte>>)
    ensures reports == Reports(states)
  {
    hide HidReport;
    var codec := new Codec();
    reports := [];
    for i := 0 to |states|
      invariant codec.counter == i % 0x40
      invariant reports == Reports(states[..i])
    {
      assert DropLast(states[..i + 1]) == states[..i];
      var r := codec.Encode(states[i]);
      reports := reports + [r];
    }
    assert states[..|states|] == states;
  }

  /** The n-th report of any run carries n modulo 64 in the upper six bits of byte 7, above the PS button. */
  lemma {:induction false} NthReportCarriesN(states: seq<Snapshot>, n: nat)
    requires 1 <= n <= |states|
    ensures var b := Reports(states)[n - 1][7];
            b / 4 == n % 0x40 && (b % 2 == 1 <==> Pressed(states[n - 1], GUIDE))
    decreases |states|
  {
    hide Pressed, FaceByte, ShoulderByte, StickByte, StickByteInverted;
    if n < |states| {
      NthReportCarriesN(DropLast(states), n);
    } else {
      var r := HidReport(n % 0x40, Last(states));
      assert r[7] == 4 * (n % 0x40) + Bit(Pressed(Last(states), GUIDE), 0x01);
    }
  }

  // ---------------------------------------------------------------------------
  // The ViGEm translation
  // ---------------------------------------------------------------------------

  datatype Ds4Report = Ds4Report(lx: byte, ly: byte, rx: byte, ry: byte, buttons: u16, special: byte, triggerL: byte, triggerR: byte)

  /** The bus client's own hat, over the same four directions. */
  function HatWord(up: bool, right: bool, down: bool, left: bool): (h: u16)
    ensures h <= 8
  {
    match (up, right, down, left)
    case (true, false, false, false) => 0
    case (true, true, false, false) => 1
    case (false, true, false, false) => 2
    case (false, true, true, false) => 3
    case (false, false, true, false) => 4
    case (false, false, true, true) => 5
    case (false, false, false, true) => 6
    case (true, false, false, true) => 7
    case _ => 8
  }

  method XGamepadToDs4(g: Snapshot) returns (r: Ds4Report)
    ensures r == Ds4Of(g)
  {
    hide Pressed, Bit;
    var buttons: nat := HatWord(Pressed(g, DPAD_UP), Pressed(g, DPAD_RIGHT), Pressed(g, DPAD_DOWN), Pressed(g, DPAD_LEFT));
    hide HatWord;
    buttons := buttons + Bit(Pressed(g, X), 0x10);
    buttons := buttons + Bit(Pressed(g, A), 0x20);
    buttons := buttons + Bit(Pressed(g, B), 0x40);
    buttons := buttons + Bit(Pressed(g, Y), 0x80);
    buttons := buttons + Bit(Pressed(g, LEFT_SHOULDER), 0x100);
    buttons := buttons + Bit(Pressed(g, RIGHT_SHOULDER), 0x200);
    buttons := buttons + Bit(g.leftTrigger > 0, 0x400);
    buttons := buttons + Bit(g.rightTrigger > 0, 0x800);
    buttons := buttons + Bit(Pressed(g, BACK), 0x1000);
    buttons := buttons + Bit(Pressed(g, START), 0x2000);
    buttons := buttons + Bit(Pressed(g, LEFT_THUMB), 0x4000);
    buttons := buttons + Bit(Pressed(g, RIGHT_THUMB), 0x8000);
    assert buttons == ButtonWord(g);
    hide ButtonWord, Axis, AxisInverted;
    r := Ds4Report(Axis(g.lx), AxisInverted(g.ly), Axis(g.rx), AxisInverted(g.ry), buttons,
                   SpecialOf(g), g.leftTrigger, g.rightTrigger);
  }

  /** The PS button. */
  function SpecialOf(g: Snapshot): byte {
    if Pressed(g, GUIDE) then 1 else 0
  }

  function Axis(v: i16): byte {
    Clamp((v + 32768) / 0x100, 0, 255)
  }

  function AxisInverted(v: i16): byte {
    Clamp((32768 - v) / 0x100, 0, 255)
  }

  function ButtonWord(g: Snapshot): u16 {
    HatWord(Pressed(g, DPAD_UP), Pressed(g, DPAD_RIGHT), Pressed(g, DPAD_DOWN), Pressed(g, DPAD_LEFT))
    + Bit(Pressed(g, X), 0x10) + Bit(Pressed(g, A), 0x20) + Bit(Pressed(g, B), 0x40) + Bit(Pressed(g, Y), 0x80)
    + Bit(Pressed(g, LEFT_SHOULDER), 0x100) + Bit(Pressed(g, RIGHT_SHOULDER), 0x200)
    + Bit(g.leftTrigger > 0, 0x400) + Bit(g.rightTrigger > 0, 0x800)
    + Bit(Pressed(g, BACK), 0x1000) + Bit(Pressed(g, START), 0x2000)
    + Bit(Pressed(g, LEFT_THUMB), 0x4000) + Bit(Pressed(g, RIGHT_THUMB), 0x8000)
  }

  function Ds4Of(g: Snapshot): Ds4Report {
    Ds4Report(Axis(g.lx), AxisInverted(g.ly), Axis(g.rx), AxisInverted(g.ry), ButtonWord(g),
              SpecialOf(g), g.leftTrigger, g.rightTrigger)
  }

  lemma HatsAgree(s: Snapshot)
    ensures HatWord(Pressed(s, DPAD_UP), Pressed(s, DPAD_RIGHT), Pressed(s, DPAD_DOWN), Pressed(s, DPAD_LEFT)) == Hat(s)
  {
    hide Pressed;
  }

  /** For every snapshot and counter the two translations tell a game the same. */
  lemma TranslationsAgree(counter: Counter, s: Snapshot)
    ensures var r, d := HidReport(counter, s), Ds4Of(s);
            && [r[1], r[2], r[3], r[4]] == [d.lx, d.ly, d.rx, d.ry]
            && Le16At(r, 5) == d.buttons
            && r[7] % 4 == d.special
            && r[8] == d.triggerL && r[9] == d.triggerR
  {
    HatsAgree(s);
    hide Hat, HatWord, Pressed, Clamp;
    var r := HidReport(counter, s);
    assert r[5] == FaceByte(s) && r[6] == ShoulderByte(s);
    assert r[7] == 4 * counter + Bit(Pressed(s, GUIDE), 0x01);
  }

  // ---------------------------------------------------------------------------
  // What a game can tell
  // ---------------------------------------------------------------------------

  lemma FourBits(a: bool, b: bool, c: bool, d: bool)
    ensures var v := Bit(a, 1) + Bit(b, 2) + Bit(c, 4) + Bit(d, 8);
            v < 0x10 && (v % 2 == 1) == a && (v / 2 % 2 == 1) == b && (v / 4 % 2 == 1) == c && (v / 8 == 1) == d
  {
  }

  lemma LowerNibble(low: nat, high: nat)
    requires low < 0x10 && high < 0x10
    ensures var v := low + 0x10 * high;
            && v % 0x10 == low && v % 2 == low % 2 && v / 2 % 2 == low / 2 % 2
            && v / 4 % 2 == low / 4 % 2 && v / 8 % 2 == low / 8
  {
    assert (low + 0x10 * high) / 2 == low / 2 + 8 * high;
    assert (low + 0x10 * high) / 4 == low / 4 + 4 * high;
    assert (low + 0x10 * high) / 8 == low / 8 + 2 * high;
  }

  lemma UpperNibble(low: nat, high: nat)
    requires low < 0x10 && high < 0x10
    ensures var v := low + 0x10 * high;
            v / 0x10 == high && v / 0x20 == high / 2 && v / 0x40 == high / 4 && v / 0x80 == high / 8
  {
  }

  lemma FaceReadsBack(s: Snapshot)
    ensures var b := FaceByte(s);
            && b % 0x10 == Hat(s)
            && (b / 0x10 % 2 == 1) == Pressed(s, X) && (b / 0x20 % 2 == 1) == Pressed(s, A)
            && (b / 0x40 % 2 == 1) == Pressed(s, B) && (b / 0x80 == 1) == Pressed(s, Y)
  {
    hide Pressed, Hat;
    FourBits(Pressed(s, X), Pressed(s, A), Pressed(s, B), Pressed(s, Y));
    LowerNibble(Hat(s), Bit(Pressed(s, X), 1) + Bit(Pressed(s, A), 2) + Bit(Pressed(s, B), 4) + Bit(Pressed(s, Y), 8));
    UpperNibble(Hat(s), Bit(Pressed(s, X), 1) + Bit(Pressed(s, A), 2) + Bit(Pressed(s, B), 4) + Bit(Pressed(s, Y), 8));
  }

  function LowShoulders(s: Snapshot): nat {
    Bit(Pressed(s, LEFT_SHOULDER), 1) + Bit(Pressed(s, RIGHT_SHOULDER), 2) + Bit(s.leftTrigger > 0, 4) + Bit(s.rightTrigger > 0, 8)
  }

  function HighShoulders(s: Snapshot): nat {
    Bit(Pressed(s, BACK), 1) + Bit(Pressed(s, START), 2) + Bit(Pressed(s, LEFT_THUMB), 4) + Bit(Pressed(s, RIGHT_THUMB), 8)
  }

  lemma ShoulderNibbles(s: Snapshot)
    ensures ShoulderByte(s) == LowShoulders(s) + 0x10 * HighShoulders(s)
  {
    hide Pressed;
  }

  lemma LowShouldersReadBack(s: Snapshot)
    ensures var v := LowShoulders(s);
            && v < 0x10 && (v % 2 == 1) == Pressed(s, LEFT_SHOULDER) && (v / 2 % 2 == 1) == Pressed(s, RIGHT_SHOULDER)
            && (v / 4 % 2 == 1) == (s.leftTrigger > 0) && (v / 8 == 1) == (s.rightTrigger > 0)
  {
    hide Pressed, Bit;
    FourBits(Pressed(s, LEFT_SHOULDER), Pressed(s, RIGHT_SHOULDER), s.leftTrigger > 0, s.rightTrigger > 0);
  }

  lemma HighShouldersReadBack(s: Snapshot)
    ensures var v := HighShoulders(s);
            && v < 0x10 && (v % 2 == 1) == Pressed(s, BACK) && (v / 2 % 2 == 1) == Pressed(s, START)
            && (v / 4 % 2 == 1) == Pressed(s, LEFT_THUMB) && (v / 8 == 1) == Pressed(s, RIGHT_THUMB)
  {
    hide Pressed, Bit;
    FourBits(Pressed(s, BACK), Pressed(s, START), Pressed(s, LEFT_THUMB), Pressed(s, RIGHT_THUMB));
  }

  lemma ShouldersReadBack(s: Snapshot)
    ensures var b := ShoulderByte(s);
            && (b % 2 == 1) == Pressed(s, LEFT_SHOULDER) && (b / 2 % 2 == 1) == Pressed(s, RIGHT_SHOULDER)
            && (b / 4 % 2 == 1) == (s.leftTrigger > 0) && (b / 8 % 2 == 1) == (s.rightTrigger > 0)
            && (b / 0x10 % 2 == 1) == Pressed(s, BACK) && (b / 0x20 % 2 == 1) == Pressed(s, START)
            && (b / 0x40 % 2 == 1) == Pressed(s, LEFT_THUMB) && (b / 0x80 == 1) == Pressed(s, RIGHT_THUMB)
  {
    hide Pressed, ShoulderByte, LowShoulders, HighShoulders;
    ShoulderNibbles(s);
    LowShouldersReadBack(s);
    HighShouldersReadBack(s);
    LowerNibble(LowShoulders(s), HighShoulders(s));
    UpperNibble(LowShoulders(s), HighShoulders(s));
  }

  /** The fourteen buttons but for PS and the D-pad's hat, each at its own bit of bytes 5 and 6. */
  predicate ShowsButtons(r: seq<byte>, s: Snapshot)
    requires |r| == 64
  {
    && (Unopposed(DpadOf(s)) ==> Directions(r[5] % 0x10) == DpadOf(s)) && (!Unopposed(DpadOf(s)) ==> r[5] % 0x10 == 8)
    && (r[5] / 0x10 % 2 == 1) == Pressed(s, X) && (r[5] / 0x20 % 2 == 1) == Pressed(s, A)
    && (r[5] / 0x40 % 2 == 1) == Pressed(s, B) && (r[5] / 0x80 == 1) == Pressed(s, Y)
    && (r[6] % 2 == 1) == Pressed(s, LEFT_SHOULDER) && (r[6] / 2 % 2 == 1) == Pressed(s, RIGHT_SHOULDER)
    && (r[6] / 4 % 2 == 1) == (s.leftTrigger > 0) && (r[6] / 8 % 2 == 1) == (s.rightTrigger > 0)
    && (r[6] / 0x10 % 2 == 1) == Pressed(s, BACK) && (r[6] / 0x20 % 2 == 1) == Pressed(s, START)
    && (r[6] / 0x40 % 2 == 1) == Pressed(s, LEFT_THUMB) && (r[6] / 0x80 == 1) == Pressed(s, RIGHT_THUMB)
  }

  /** An upright axis in a byte, whose lowest value shares a byte with the ones above it. */
  predicate ShowsInverted(b: byte, v: i16) {
    b == if v == -32768 then 255 else 128 + (0 - v as int) / 0x100
  }

  /** A report byte by byte: id, sticks, buttons, counter with PS, triggers, and a tail that never changes. */
  lemma ReportReads(c: Counter, s: Snapshot)
    ensures var r := HidReport(c, s);
            && r[0] == 0x01 && ShowsButtons(r, s)
            && r[1] == 128 + s.lx / 0x100 && ShowsInverted(r[2], s.ly)
            && r[3] == 128 + s.rx / 0x100 && ShowsInverted(r[4], s.ry)
            && r[7] == 4 * c + (if Pressed(s, GUIDE) then 1 else 0)
            && r[8] == s.leftTrigger && r[9] == s.rightTrigger
            && forall k :: 10 <= k < 64 ==> r[k] == if k == 30 then 0x1B else if 35 <= k < 43 then 0x80 else 0
  {
    var r := HidReport(c, s);
    ClampActsExactlyAt(s.lx);
    ClampActsExactlyAt(s.ly);
    ClampActsExactlyAt(s.rx);
    ClampActsExactlyAt(s.ry);
    FaceReadsBack(s);
    ShouldersReadBack(s);
    HatReadsBackExactly(s);
    assert r[5] == FaceByte(s) && r[6] == ShoulderByte(s);
    assert forall k :: 10 <= k < 64 ==> r[k] == Rest()[k - 10];
    hide FaceByte, ShoulderByte, Pressed, Hat, Directions, StickByte, StickByteInverted, DpadOf;
  }

  lemma InvertedBytesAreClose(v: i16, w: i16)
    ensures StickByteInverted(v) == StickByteInverted(w) ==> -256 <= v - w <= 256
  {
  }

  /**
   * Two snapshots that report alike press the same eleven buttons beside the D-pad, have
   * the same hat, triggers and upper bytes of their X axes, and lie within 256 of each other
   * on their Y axes. The D-pads are the same too unless one presses opposite directions.
   */
  lemma ReportDeterminesSnapshot(c: Counter, s: Snapshot, t: Snapshot)
    requires HidReport(c, s) == HidReport(c, t)
    ensures SameOtherButtons(s, t) && Hat(s) == Hat(t)
    ensures s.leftTrigger == t.leftTrigger && s.rightTrigger == t.rightTrigger
    ensures s.lx / 0x100 == t.lx / 0x100 && s.rx / 0x100 == t.rx / 0x100
    ensures -256 <= s.ly - t.ly <= 256 && -256 <= s.ry - t.ry <= 256
    ensures Unopposed(DpadOf(s)) && Unopposed(DpadOf(t)) ==> SameButtons(s, t)
  {
    InvertedBytesAreClose(s.ly, t.ly);
    InvertedBytesAreClose(s.ry, t.ry);
    ClampActsExactlyAt(s.lx);
    ClampActsExactlyAt(t.lx);
    ClampActsExactlyAt(s.rx);
    ClampActsExactlyAt(t.rx);
    hide Pressed, SameButtons, SameOtherButtons, FaceByte, ShoulderByte, StickByte, StickByteInverted, Hat, Directions, Rest;
    var r, u := HidReport(c, s), HidReport(c, t);
    assert r[5] == u[5] && r[6] == u[6] && r[7] == u[7];
    assert r[8] == u[8] && r[9] == u[9] && r[1] == u[1] && r[3] == u[3] && r[2] == u[2] && r[4] == u[4];
    GuideReadsBack(c, s);
    GuideReadsBack(c, t);
    hide HidReport, Bit;
    FaceReadsBack(s);
    FaceReadsBack(t);
    ShouldersReadBack(s);
    ShouldersReadBack(t);
    HatReadsBackExactly(s);
    HatReadsBackExactly(t);
    SameOthersWhenPressedAlike(s, t);
  }

  lemma GuideReadsBack(c: Counter, s: Snapshot)
    ensures (HidReport(c, s)[7] % 2 == 1) == Pressed(s, GUIDE)
  {
    hide Pressed, FaceByte, ShoulderByte, StickByte, StickByteInverted, Rest;
    assert HidReport(c, s)[7] == 4 * c + Bit(Pressed(s, GUIDE), 0x01);
  }
}
