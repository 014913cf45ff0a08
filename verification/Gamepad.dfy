/** One pad snapshot, the hat its D-pad makes, and stick bytes, as every pad codec reads them. */
module Gamepad {
  import opened Bytes

  datatype Snapshot = Snapshot(buttons: bv16, leftTrigger: byte, rightTrigger: byte, lx: i16, ly: i16, rx: i16, ry: i16)

  const AT_REST := Snapshot(0, 0, 0, 0, 0, 0, 0)

  const DPAD_UP: bv16 := 0x0001
  const DPAD_DOWN: bv16 := 0x0002
  const DPAD_LEFT: bv16 := 0x0004
  const DPAD_RIGHT: bv16 := 0x0008
  const START: bv16 := 0x0010
  const BACK: bv16 := 0x0020
  const LEFT_THUMB: bv16 := 0x0040
  const RIGHT_THUMB: bv16 := 0x0080
  const LEFT_SHOULDER: bv16 := 0x0100
  const RIGHT_SHOULDER: bv16 := 0x0200
  const GUIDE: bv16 := 0x0400
  const A: bv16 := 0x1000
  const B: bv16 := 0x2000
  const X: bv16 := 0x4000
  const Y: bv16 := 0x8000

  predicate Pressed(s: Snapshot, button: bv16) {
    s.buttons & button != 0
  }

  /** What setting a bit that is still clear adds to a byte or word. */
  function Bit(on: bool, weight: nat): nat {
    if on then weight else 0
  }

  /** Fifteen buttons are pressed alike exactly when the bitsets agree outside the unused bit 11. */
  predicate SameButtons(s: Snapshot, t: Snapshot) {
    s.buttons & 0xF7FF == t.buttons & 0xF7FF
  }

  lemma SameButtonsWhenPressedAlike(s: Snapshot, t: Snapshot)
    requires Pressed(s, DPAD_UP) == Pressed(t, DPAD_UP) && Pressed(s, DPAD_DOWN) == Pressed(t, DPAD_DOWN)
    requires Pressed(s, DPAD_LEFT) == Pressed(t, DPAD_LEFT) && Pressed(s, DPAD_RIGHT) == Pressed(t, DPAD_RIGHT)
    requires Pressed(s, START) == Pressed(t, START) && Pressed(s, BACK) == Pressed(t, BACK)
    requires Pressed(s, LEFT_THUMB) == Pressed(t, LEFT_THUMB) && Pressed(s, RIGHT_THUMB) == Pressed(t, RIGHT_THUMB)
    requires Pressed(s, LEFT_SHOULDER) == Pressed(t, LEFT_SHOULDER)
    requires Pressed(s, RIGHT_SHOULDER) == Pressed(t, RIGHT_SHOULDER)
    requires Pressed(s, GUIDE) == Pressed(t, GUIDE) && Pressed(s, A) == Pressed(t, A)
    requires Pressed(s, B) == Pressed(t, B) && Pressed(s, X) == Pressed(t, X) && Pressed(s, Y) == Pressed(t, Y)
    ensures SameButtons(s, t)
  {
  }

  /** The eleven buttons beside the D-pad. */
  predicate SameOtherButtons(s: Snapshot, t: Snapshot) {
    s.buttons & 0xF7F0 == t.buttons & 0xF7F0
  }

  lemma SameOthersWhenPressedAlike(s: Snapshot, t: Snapshot)
    requires Pressed(s, START) == Pressed(t, START) && Pressed(s, BACK) == Pressed(t, BACK)
    requires Pressed(s, LEFT_THUMB) == Pressed(t, LEFT_THUMB) && Pressed(s, RIGHT_THUMB) == Pressed(t, RIGHT_THUMB)
    requires Pressed(s, LEFT_SHOULDER) == Pressed(t, LEFT_SHOULDER)
    requires Pressed(s, RIGHT_SHOULDER) == Pressed(t, RIGHT_SHOULDER)
    requires Pressed(s, GUIDE) == Pressed(t, GUIDE) && Pressed(s, A) == Pressed(t, A)
    requires Pressed(s, B) == Pressed(t, B) && Pressed(s, X) == Pressed(t, X) && Pressed(s, Y) == Pressed(t, Y)
    ensures SameOtherButtons(s, t)
    ensures DpadOf(s) == DpadOf(t) ==> SameButtons(s, t)
  {
  }

  // ---------------------------------------------------------------------------
  // The hat
  // ---------------------------------------------------------------------------

  /** Which of the four directions are pressed. */
  datatype Dpad = Dpad(up: bool, right: bool, down: bool, left: bool)

  function DpadOf(s: Snapshot): Dpad {
    Dpad(Pressed(s, DPAD_UP), Pressed(s, DPAD_RIGHT), Pressed(s, DPAD_DOWN), Pressed(s, DPAD_LEFT))
  }

  /** North is 0, clockwise to 7; anything else is the neutral 8. */
  function Hat(s: Snapshot): (h: byte)
    ensures h <= 8
  {
    match DpadOf(s)
    case Dpad(true, false, false, false) => 0
    case Dpad(true, true, false, false) => 1
    case Dpad(false, true, false, false) => 2
    case Dpad(false, true, true, false) => 3
    case Dpad(false, false, true, false) => 4
    case Dpad(false, false, true, true) => 5
    case Dpad(false, false, false, true) => 6
    case Dpad(true, false, false, true) => 7
    case _ => 8
  }

  /** How a game reads a hat: by the compass, as directions. */
  function Directions(hat: nat): Dpad {
    Dpad(hat == 0 || hat == 1 || hat == 7, 1 <= hat <= 3, 3 <= hat <= 5, 5 <= hat <= 7)
  }

  predicate Unopposed(d: Dpad) {
    !(d.up && d.down) && !(d.left && d.right)
  }

  /** A game reads the D-pad back from the hat exactly when no two opposite directions are pressed; else it is neutral. */
  lemma HatReadsBackExactly(s: Snapshot)
    ensures Directions(Hat(s)) == DpadOf(s) <==> Unopposed(DpadOf(s))
    ensures !Unopposed(DpadOf(s)) || DpadOf(s) == Dpad(false, false, false, false) ==> Hat(s) == 8
  {
    hide Pressed;
  }

  // ---------------------------------------------------------------------------
  // Sticks as bytes
  // ---------------------------------------------------------------------------

  function Clamp(v: int, lo: int, hi: int): int {
    if v < lo then lo else if v > hi then hi else v
  }

  function StickByte(v: i16): byte {
    Clamp((v + 32768) / 0x100, 0, 255)
  }

  /** Up reads as 0. */
  function StickByteInverted(v: i16): byte {
    Clamp((32768 - v) / 0x100, 0, 255)
  }

  /** The clamp acts on one axis value only, the inverted lowest one; elsewhere the bytes are plain floors. */
  lemma ClampActsExactlyAt(v: i16)
    ensures StickByte(v) == 128 + v / 0x100
    ensures v == -32768 ==> StickByteInverted(v) == 255
    ensures StickByteInverted(v) == 128 + (0 - v as int) / 0x100 <==> v != -32768
  {
  }
}
