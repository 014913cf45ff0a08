/**
 * The Switch Pro Controller over USB: the handshake a host drives with output reports, the
 * replies it reads on the input pipe between full reports, and the calibration it reads
 * from the pad's flash.
 */
module SwitchPro {
  import opened Common
  import opened Bytes
  import opened Gamepad

  const INPUT_LEN: nat := 64
  const FULL_REPORT: byte := 0x30
  const SUBCOMMAND_REPLY: byte := 0x21
  const USB_REPLY: byte := 0x81
  const OUTPUT_SUBCOMMAND: byte := 0x01
  const OUTPUT_RUMBLE: byte := 0x10
  const OUTPUT_USB: byte := 0x80
  const ADDRESS: seq<byte> := [0x02, 0xA1, 0x10, 0x00, 0x00, 0x03]
  const STICK_CENTRE: u16 := 0x800
  const STICK_RANGE: u16 := 0x7FF

  // ---------------------------------------------------------------------------
  // Twelve-bit packing
  // ---------------------------------------------------------------------------

  /** Two values in three bytes, little-endian nibbles. */
  function PackPair(a: u16, b: u16): (p: seq<byte>)
    ensures |p| == 3
  {
    [a % 0x100, a / 0x100 % 0x10 + b % 0x10 * 0x10, b / 0x10 % 0x100]
  }

  function PackStick(values: seq<u16>): (p: seq<byte>)
    requires |values| == 6
    ensures |p| == 9
  {
    PackPair(values[0], values[1]) + PackPair(values[2], values[3]) + PackPair(values[4], values[5])
  }

  function UnpackPair(p: seq<byte>): (v: seq<u16>)
    requires |p| == 3
    ensures |v| == 2 && v[0] < 0x1000 && v[1] < 0x1000
  {
    [p[0] as int + 0x100 * (p[1] as int % 0x10), p[1] as int / 0x10 + 0x10 * p[2] as int]
  }

  function UnpackStick(p: seq<byte>): (v: seq<u16>)
    requires |p| == 9
    ensures |v| == 6 && forall i :: 0 <= i < 6 ==> v[i] < 0x1000
  {
    UnpackPair(p[0..3]) + UnpackPair(p[3..6]) + UnpackPair(p[6..9])
  }

  lemma PairRoundTrip(a: u16, b: u16)
    requires a < 0x1000 && b < 0x1000
    ensures UnpackPair(PackPair(a, b)) == [a, b]
  {
    var low, high := a / 0x100, b % 0x10;
    assert PackPair(a, b) == [a % 0x100, low + 0x10 * high, b / 0x10];
    MiddleByte(low, high);
  }

  lemma MiddleByte(low: nat, high: nat)
    requires low < 0x10 && high < 0x10
    ensures (low + 0x10 * high) % 0x10 == low && (low + 0x10 * high) / 0x10 == high
  {
  }

  lemma NibbleSplit(first: byte, low: nat, high: nat, last: byte)
    requires low < 0x10 && high < 0x10
    ensures PackPair(first as int + 0x100 * low, high + 0x10 * last as int) == [first, low + 0x10 * high, last]
  {
  }

  lemma PairRoundTripBack(p: seq<byte>)
    requires |p| == 3
    ensures PackPair(UnpackPair(p)[0], UnpackPair(p)[1]) == p
  {
    var low, high := p[1] as int % 0x10, p[1] as int / 0x10;
    assert UnpackPair(p) == [p[0] as int + 0x100 * low, high + 0x10 * p[2] as int];
    NibbleSplit(p[0], low, high, p[2]);
  }

  /** Packing is a bijection between six 12-bit values and nine bytes. */
  lemma PackingIsABijection(values: seq<u16>, bytes: seq<byte>)
    requires |values| == 6 && |bytes| == 9
    ensures (forall i :: 0 <= i < 6 ==> values[i] < 0x1000) ==> UnpackStick(PackStick(values)) == values
    ensures PackStick(UnpackStick(bytes)) == bytes
  {
    hide PackPair, UnpackPair;
    if forall i :: 0 <= i < 6 ==> values[i] < 0x1000 {
      PairRoundTrip(values[0], values[1]);
      PairRoundTrip(values[2], values[3]);
      PairRoundTrip(values[4], values[5]);
      var p := PackStick(values);
      assert p[0..3] == PackPair(values[0], values[1]);
      assert p[3..6] == PackPair(values[2], values[3]);
      assert p[6..9] == PackPair(values[4], values[5]);
      assert UnpackStick(p) == [values[0], values[1]] + [values[2], values[3]] + [values[4], values[5]];
    }
    PairRoundTripBack(bytes[0..3]);
    PairRoundTripBack(bytes[3..6]);
    PairRoundTripBack(bytes[6..9]);
    var v := UnpackStick(bytes);
    assert v[0] == UnpackPair(bytes[0..3])[0] && v[1] == UnpackPair(bytes[0..3])[1];
    assert v[2] == UnpackPair(bytes[3..6])[0] && v[3] == UnpackPair(bytes[3..6])[1];
    assert v[4] == UnpackPair(bytes[6..9])[0] && v[5] == UnpackPair(bytes[6..9])[1];
    assert bytes == bytes[0..3] + bytes[3..6] + bytes[6..9];
  }

  method WritePair(out: array<byte>, at: nat, a: u16, b: u16)
    requires at + 3 <= out.Length
    modifies out
    ensures out[..] == old(out[..at]) + PackPair(a, b) + old(out[at + 3..])
  {
    out[at] := a % 0x100;
    out[at + 1] := a / 0x100 % 0x10 + b % 0x10 * 0x10;
    out[at + 2] := b / 0x10 % 0x100;
  }

  method PackNibbles(values: seq<u16>) returns (packed: seq<byte>)
    requires |values| == 6
    ensures packed == PackStick(values)
  {
    hide PackPair;
    var out := new byte[9](_ => 0);
    ghost var done: seq<byte> := [];
    for pair := 0 to 3
      invariant |done| == 3 * pair && out[..3 * pair] == done
      invariant pair >= 1 ==> done[0..3] == PackPair(values[0], values[1])
      invariant pair >= 2 ==> done[3..6] == PackPair(values[2], values[3])
      invariant pair >= 3 ==> done[6..9] == PackPair(values[4], values[5])
    {
      WritePair(out, pair * 3, values[pair * 2], values[pair * 2 + 1]);
      done := done + PackPair(values[pair * 2], values[pair * 2 + 1]);
    }
    packed := out[..];
    assert packed == packed[0..3] + packed[3..6] + packed[6..9];
  }

  // ---------------------------------------------------------------------------
  // Sticks
  // ---------------------------------------------------------------------------

  function Stick12(value: i16): u16 {
    Clamp((value + 32768) / 16, 0, 0xFFF)
  }

  /** The clamp never acts, and a stick sits floor(axis / 16) away from the centre. */
  lemma StickIsCentred(value: i16)
    ensures Stick12(value) < 0x1000
    ensures Stick12(value) - STICK_CENTRE == value / 16
  {
  }

  // ---------------------------------------------------------------------------
  // The block every input report starts with
  // ---------------------------------------------------------------------------

  function RightByte(s: Snapshot): byte {
    Bit(Pressed(s, Y), 0x01) + Bit(Pressed(s, X), 0x02) + Bit(Pressed(s, B), 0x04) + Bit(Pressed(s, A), 0x08)
    + Bit(Pressed(s, RIGHT_SHOULDER), 0x40) + Bit(s.rightTrigger > 0, 0x80)
  }

  function SharedByte(s: Snapshot): byte {
    Bit(Pressed(s, BACK), 0x01) + Bit(Pressed(s, START), 0x02) + Bit(Pressed(s, RIGHT_THUMB), 0x04)
    + Bit(Pressed(s, LEFT_THUMB), 0x08) + Bit(Pressed(s, GUIDE), 0x10)
  }

  function LeftByte(s: Snapshot): byte {
    Bit(Pressed(s, DPAD_DOWN), 0x01) + Bit(Pressed(s, DPAD_UP), 0x02) + Bit(Pressed(s, DPAD_RIGHT), 0x04)
    + Bit(Pressed(s, DPAD_LEFT), 0x08) + Bit(Pressed(s, LEFT_SHOULDER), 0x40) + Bit(s.leftTrigger > 0, 0x80)
  }

  function StateBlock(s: Snapshot): (b: seq<byte>)
    ensures |b| == 11
  {
    [0x90, RightByte(s), SharedByte(s), LeftByte(s)]
    + PackPair(Stick12(s.lx), Stick12(s.ly)) + PackPair(Stick12(s.rx), Stick12(s.ry)) + [0x0C]
  }

  /** How a host reads one bit of a byte. */
  predicate IsSet(b: byte, weight: nat)
    requires weight > 0
  {
    b / weight % 2 == 1
  }

  lemma SixBitsReadBack(s: Snapshot)
    ensures IsSet(RightByte(s), 0x01) == Pressed(s, Y) && IsSet(RightByte(s), 0x02) == Pressed(s, X)
    ensures IsSet(RightByte(s), 0x04) == Pressed(s, B) && IsSet(RightByte(s), 0x08) == Pressed(s, A)
    ensures IsSet(RightByte(s), 0x40) == Pressed(s, RIGHT_SHOULDER) && IsSet(RightByte(s), 0x80) == (s.rightTrigger > 0)
  {
    hide Pressed;
  }

  lemma SharedBitsReadBack(s: Snapshot)
    ensures IsSet(SharedByte(s), 0x01) == Pressed(s, BACK) && IsSet(SharedByte(s), 0x02) == Pressed(s, START)
    ensures IsSet(SharedByte(s), 0x04) == Pressed(s, RIGHT_THUMB) && IsSet(SharedByte(s), 0x08) == Pressed(s, LEFT_THUMB)
    ensures IsSet(SharedByte(s), 0x10) == Pressed(s, GUIDE)
  {
    hide Pressed;
  }

  lemma LeftBitsReadBack(s: Snapshot)
    ensures IsSet(LeftByte(s), 0x01) == Pressed(s, DPAD_DOWN) && IsSet(LeftByte(s), 0x02) == Pressed(s, DPAD_UP)
    ensures IsSet(LeftByte(s), 0x04) == Pressed(s, DPAD_RIGHT) && IsSet(LeftByte(s), 0x08) == Pressed(s, DPAD_LEFT)
    ensures IsSet(LeftByte(s), 0x40) == Pressed(s, LEFT_SHOULDER) && IsSet(LeftByte(s), 0x80) == (s.leftTrigger > 0)
  {
    hide Pressed;
  }

  /** A host can tell all fifteen buttons, both digital triggers and every stick apart to a sixteenth. */
  lemma BlockDeterminesSnapshot(s: Snapshot, t: Snapshot)
    requires StateBlock(s) == StateBlock(t)
    ensures SameButtons(s, t)
    ensures (s.leftTrigger > 0) == (t.leftTrigger > 0) && (s.rightTrigger > 0) == (t.rightTrigger > 0)
    ensures s.lx / 16 == t.lx / 16 && s.ly / 16 == t.ly / 16 && s.rx / 16 == t.rx / 16 && s.ry / 16 == t.ry / 16
  {
    hide Pressed, SameButtons, RightByte, SharedByte, LeftByte, PackPair, UnpackPair, Stick12;
    var b, c := StateBlock(s), StateBlock(t);
    assert b[1] == c[1] && b[2] == c[2] && b[3] == c[3];
    SixBitsReadBack(s);
    SixBitsReadBack(t);
    SharedBitsReadBack(s);
    SharedBitsReadBack(t);
    LeftBitsReadBack(s);
    LeftBitsReadBack(t);
    SameButtonsWhenPressedAlike(s, t);
    SticksReadBack(s);
    SticksReadBack(t);
  }

  /** The fifteen buttons and two digital triggers, each at its own bit of a report's bytes 3 to 5. */
  predicate ShowsButtons(r: seq<byte>, s: Snapshot)
    requires |r| == 64
  {
    && IsSet(r[3], 0x01) == Pressed(s, Y) && IsSet(r[3], 0x02) == Pressed(s, X)
    && IsSet(r[3], 0x04) == Pressed(s, B) && IsSet(r[3], 0x08) == Pressed(s, A)
    && IsSet(r[3], 0x40) == Pressed(s, RIGHT_SHOULDER) && IsSet(r[3], 0x80) == (s.rightTrigger > 0)
    && IsSet(r[4], 0x01) == Pressed(s, BACK) && IsSet(r[4], 0x02) == Pressed(s, START)
    && IsSet(r[4], 0x04) == Pressed(s, RIGHT_THUMB) && IsSet(r[4], 0x08) == Pressed(s, LEFT_THUMB)
    && IsSet(r[4], 0x10) == Pressed(s, GUIDE)
    && IsSet(r[5], 0x01) == Pressed(s, DPAD_DOWN) && IsSet(r[5], 0x02) == Pressed(s, DPAD_UP)
    && IsSet(r[5], 0x04) == Pressed(s, DPAD_RIGHT) && IsSet(r[5], 0x08) == Pressed(s, DPAD_LEFT)
    && IsSet(r[5], 0x40) == Pressed(s, LEFT_SHOULDER) && IsSet(r[5], 0x80) == (s.leftTrigger > 0)
  }

  /** A full report byte by byte: id, timer, charge, buttons, sticks in sixteenths from 0x800, and zeros. */
  lemma FullReportReads(timer: byte, s: Snapshot)
    ensures var r := FullReport(timer, s);
            && r[0] == 0x30 && r[1] == timer && r[2] == 0x90 && ShowsButtons(r, s)
            && UnpackPair(r[6..9]) == [0x800 + s.lx / 16, 0x800 + s.ly / 16]
            && UnpackPair(r[9..12]) == [0x800 + s.rx / 16, 0x800 + s.ry / 16]
            && r[12] == 0x0C && r[13..] == Zeros(51)
  {
    var r, b := FullReport(timer, s), StateBlock(s);
    assert r[3] == RightByte(s) && r[4] == SharedByte(s) && r[5] == LeftByte(s);
    SixBitsReadBack(s);
    SharedBitsReadBack(s);
    LeftBitsReadBack(s);
    SticksReadBack(s);
    hide Pressed, RightByte, SharedByte, LeftByte, IsSet, StateBlock, UnpackPair;
    assert r[6..9] == b[4..7] && r[9..12] == b[7..10];
  }

  /** Unpacking a report's sticks gives each axis back as its distance from the centre, in sixteenths. */
  lemma SticksReadBack(s: Snapshot)
    ensures var b := StateBlock(s);
            && UnpackPair(b[4..7]) == [STICK_CENTRE + s.lx / 16, STICK_CENTRE + s.ly / 16]
            && UnpackPair(b[7..10]) == [STICK_CENTRE + s.rx / 16, STICK_CENTRE + s.ry / 16]
  {
    hide PackPair, UnpackPair, Stick12, RightByte, SharedByte, LeftByte;
    var b := StateBlock(s);
    StickIsCentred(s.lx);
    StickIsCentred(s.ly);
    StickIsCentred(s.rx);
    StickIsCentred(s.ry);
    PairRoundTrip(Stick12(s.lx), Stick12(s.ly));
    PairRoundTrip(Stick12(s.rx), Stick12(s.ry));
    assert b[4..7] == PackPair(Stick12(s.lx), Stick12(s.ly));
    assert b[7..10] == PackPair(Stick12(s.rx), Stick12(s.ry));
  }

  // ---------------------------------------------------------------------------
  // The flash image
  // ---------------------------------------------------------------------------

  const IMU_CALIBRATION: seq<byte> := [
    0x00, 0x00, 0x00, 0x00, 0x00, 0x00, 0x00, 0x40, 0x00, 0x40, 0x00, 0x40, 0x00, 0x00, 0x00,
    0x00, 0x00, 0x00, 0x3B, 0x34, 0x3B, 0x34, 0x3B, 0x34]

  const COLOURS: seq<byte> := [0x32, 0x32, 0x32, 0xFF, 0xFF, 0xFF, 0x46, 0x46, 0x46, 0x28, 0x28, 0x28]

  const STICK_PARAMETERS: seq<byte> := [
    0x50, 0xFD, 0x00, 0x00, 0xC6, 0x0F, 0x0F, 0x30, 0x61, 0xAE, 0x90, 0xD9, 0xD4, 0x14, 0x54,
    0x41, 0x15, 0x54, 0xC7, 0x79, 0x9C, 0x33, 0x36, 0x63]

  const LEFT_STICK: seq<u16> := [STICK_RANGE, STICK_RANGE, STICK_CENTRE, STICK_CENTRE, STICK_RANGE, STICK_RANGE]

  const RIGHT_STICK: seq<u16> := [STICK_CENTRE, STICK_CENTRE, STICK_RANGE, STICK_RANGE, STICK_RANGE, STICK_RANGE]

  /** A table read past its end is erased flash. */
  function ByteOr(table: seq<byte>, offset: nat): byte {
    if offset < |table| then table[offset] else 0xFF
  }

  function FactoryStick(offset: nat): byte {
    if offset <= 8 then PackStick(LEFT_STICK)[offset]
    else if offset <= 17 then PackStick(RIGHT_STICK)[offset - 9]
    else 0xFF
  }

  function SpiByte(at: nat): byte {
    if at == 0x6012 then 0x03
    else if at == 0x6013 then 0x02
    else if 0x6020 <= at <= 0x603A then ByteOr(IMU_CALIBRATION, at - 0x6020)
    else if 0x603D <= at <= 0x604E then FactoryStick(at - 0x603D)
    else if 0x6050 <= at <= 0x605B then ByteOr(COLOURS, at - 0x6050)
    else if 0x6080 <= at <= 0x6097 then ByteOr(STICK_PARAMETERS, at - 0x6080)
    else if 0x6098 <= at <= 0x60A9 then ByteOr(STICK_PARAMETERS, at - 0x6098 + 6)
    else 0xFF
  }

  function SpiImage(address: nat, length: nat): (data: seq<byte>)
    ensures |data| == length
  {
    seq<byte>(length, i requires 0 <= i < length => SpiByte(address + i))
  }

  method SpiRead(address: u32, length: byte) returns (data: seq<byte>)
    ensures data == SpiImage(address, length)
  {
    hide SpiByte;
    var out := new byte[length as int](_ => 0xFF);
    for offset := 0 to length as int
      invariant forall i :: 0 <= i < offset ==> out[i] == SpiByte(address + i)
    {
      out[offset] := SpiByte(address as int + offset);
    }
    data := out[..];
  }

  /** Reads compose: a host gets the same bytes in one read or in two. */
  lemma ReadsCompose(address: nat, first: nat, second: nat)
    ensures SpiImage(address, first + second) == SpiImage(address, first) + SpiImage(address + first, second)
  {
    hide SpiByte;
  }

  /** The factory calibration at 0x603D unpacks to both sticks' range and centre. */
  lemma CalibrationReadsBack()
    ensures UnpackStick(SpiImage(0x603D, 9)) == [0x7FF, 0x7FF, 0x800, 0x800, 0x7FF, 0x7FF]
    ensures UnpackStick(SpiImage(0x6046, 9)) == [0x800, 0x800, 0x7FF, 0x7FF, 0x7FF, 0x7FF]
  {
    hide PackPair, UnpackPair, PackStick, UnpackStick;
    assert SpiImage(0x603D, 9) == PackStick(LEFT_STICK);
    assert SpiImage(0x6046, 9) == PackStick(RIGHT_STICK);
    PackingIsABijection(LEFT_STICK, Zeros(9));
    PackingIsABijection(RIGHT_STICK, Zeros(9));
  }

  /** What a host finds in the flash, region by region; every other byte reads as erased. */
  lemma FlashRegions(at: nat)
    ensures SpiImage(0x6012, 2) == [0x03, 0x02]
    ensures SpiImage(0x6020, 24) == IMU_CALIBRATION && SpiImage(0x6050, 12) == COLOURS
    ensures SpiImage(0x6080, 24) == STICK_PARAMETERS && SpiImage(0x6098, 18) == STICK_PARAMETERS[6..]
    ensures (at < 0x6012 || 0x6014 <= at < 0x6020 || 0x6038 <= at < 0x603D || 0x604F <= at < 0x6050
             || 0x605C <= at < 0x6080 || at >= 0x60AA) ==>
              SpiByte(at) == 0xFF
  {
    hide PackStick;
    assert |IMU_CALIBRATION| == 24 && |COLOURS| == 12 && |STICK_PARAMETERS| == 24;
  }

  /** A stick lies in the calibrated range unless its axis is in the lowest sixteenth step. */
  lemma SticksLieInCalibratedRangeExactly(value: i16)
    ensures STICK_CENTRE - STICK_RANGE <= Stick12(value) <= STICK_CENTRE + STICK_RANGE <==> value >= -32752
  {
  }

  // ---------------------------------------------------------------------------
  // The handshake
  // ---------------------------------------------------------------------------

  datatype Pad = Pad(timer: byte, player: byte, rumbleOn: bool)

  const NEW_PAD := Pad(0, 0, false)

  /** What a game asked for. */
  datatype Output = Rumble(large: byte, small: byte) | PlayerLed(player: byte) | Raw(report: seq<byte>)

  datatype Decoded = Decoded(outputs: seq<Output>, reply: Option<seq<byte>>)

  function Ticked(p: Pad): Pad {
    p.(timer := (p.timer + 1) % 0x100)
  }

  function FullReport(timer: byte, s: Snapshot): (r: seq<byte>)
    ensures |r| == INPUT_LEN
  {
    [FULL_REPORT, timer] + StateBlock(s) + Zeros(51)
  }

  function AckReport(timer: byte, subcommand: byte, ack: byte, payload: seq<byte>): (r: seq<byte>)
    ensures |r| == INPUT_LEN
  {
    var fits := if 15 + |payload| < INPUT_LEN then 15 + |payload| else INPUT_LEN;
    [SUBCOMMAND_REPLY, timer] + StateBlock(AT_REST) + [ack, subcommand] + payload[..fits - 15] + Zeros(INPUT_LEN - fits)
  }

  function Min(a: nat, b: nat): nat {
    if a < b then a else b
  }

  datatype Ack = Ack(code: byte, payload: seq<byte>)

  /** The acknowledgement of a subcommand. */
  function AckOf(subcommand: byte, args: seq<byte>): Ack {
    match subcommand
    case 0x02 => Ack(0x82, [0x04, 0x21, 0x03, 0x02] + ADDRESS + [0x01, 0x02])
    case 0x10 =>
      if |args| < 5 then Ack(0x80, [])
      else Ack(0x90, args[..5] + SpiImage(Le32At(args, 0), Min(args[4], 0x1D)))
    case 0x50 => Ack(0xD0, [0x83, 0x06, 0x00])
    case _ => Ack(0x80, [])
  }

  function FirstOr0(args: seq<byte>): byte {
    if args == [] then 0 else args[0]
  }

  function CountOnes(lamps: byte): byte
    requires lamps < 0x10
  {
    lamps % 2 + lamps / 2 % 2 + lamps / 4 % 2 + lamps / 8
  }

  function PlayerOf(lamps: byte): byte
    requires lamps < 0x10
  {
    match lamps
    case 0x01 => 1
    case 0x03 => 2
    case 0x07 => 3
    case 0x0F => 4
    case 0x00 => 0
    case _ => CountOnes(lamps)
  }

  // ---------------------------------------------------------------------------
  // Rumble amplitudes
  // ---------------------------------------------------------------------------

  /** The high band's amplitude field. */
  function HighBand(block: seq<byte>): nat
    requires |block| == 4
  {
    block[1] - block[1] % 2
  }

  /** The low band's nine-bit amplitude field. */
  function LowBand(block: seq<byte>): nat
    requires |block| == 4
  {
    block[2] as nat / 0x80 * 0x100 + block[3] as nat
  }

  function AboveSilence(low: nat): nat {
    if low < 0x40 then 0 else low - 0x40
  }

  /** A band's product divided by its full field, at most 255. */
  function Scaled(product: nat, full: nat): byte
    requires full > 0
  {
    Clamp(product / full, 0, 255)
  }

  /** The strength of a motor block; the products are taken in sixteen bits and wrap there. */
  function Amplitude(block: seq<byte>): byte
    requires |block| == 4
  {
    var high := Scaled(HighBand(block) * 255 % 0x1_0000, 0xC8);
    var low := Scaled(AboveSilence(LowBand(block)) * 255 % 0x1_0000, 0x32);
    if high > low then high else low
  }

  /** The fields of a motor block, by its bytes: the high band is even, the low band's ninth bit is byte 2's top one. */
  predicate Asks(block: seq<byte>, high: nat, low: nat) {
    && |block| == 4
    && high % 2 == 0 && high <= block[1] <= high + 1
    && low == (if block[2] >= 0x80 then block[3] as int + 256 else block[3])
  }

  /** The stronger band of 0 to 200 and 64 to 114, each stretched to 0 to 255. */
  function Strength(high: nat, low: nat): byte {
    var h: byte := if high >= 200 then 255 else high * 255 / 200;
    var l: byte := if low <= 64 then 0 else if low >= 114 then 255 else (low - 64) * 255 / 50;
    if h > l then h else l
  }

  lemma BandsRead(block: seq<byte>, high: nat, low: nat)
    requires Asks(block, high, low)
    ensures HighBand(block) == high <= 0xFE && LowBand(block) == low < 0x200
  {
  }

  lemma HighIsStretched(high: nat)
    requires high <= 0xFE
    ensures Scaled(high * 255 % 0x1_0000, 0xC8) == if high >= 200 then 255 else high * 255 / 200
  {
    assert high * 255 % 0x1_0000 == high * 255;
  }

  /** A low product that wraps is scaled to less than 255 exactly below 0x174. */
  lemma LowIsStretched(low: nat)
    requires low < 0x200
    ensures low < 0x142 ==>
              Scaled(AboveSilence(low) * 255 % 0x1_0000, 0x32)
              == if low <= 64 then 0 else if low >= 114 then 255 else (low - 64) * 255 / 50
    ensures low >= 0x142 ==> (Scaled(AboveSilence(low) * 255 % 0x1_0000, 0x32) == 255 <==> low >= 0x174)
    ensures 0x142 <= low <= 0x173 ==>
              Scaled(AboveSilence(low) * 255 % 0x1_0000, 0x32) == ((low - 64) * 255 - 65536) / 50
  {
    var product := AboveSilence(low) * 255;
    if low >= 0x142 {
      assert product % 0x1_0000 == product - 0x1_0000;
      assert (product - 0x1_0000) / 0x32 >= 255 <==> product >= 0x1_0000 + 255 * 0x32;
    } else {
      assert product % 0x1_0000 == product;
    }
  }

  /**
   * A block's amplitude is the strength its fields ask for but for the low fields 0x142 to
   * 0x173 beside a high band that is not full: there the sixteen-bit product has wrapped and
   * the motor runs at what is left of it, or at the high band's strength.
   */
  lemma AmplitudeIsStrengthExactly(block: seq<byte>, high: nat, low: nat)
    requires Asks(block, high, low)
    ensures Amplitude(block) == Strength(high, low) <==> !(0x142 <= low <= 0x173 && high < 0xC8)
    ensures 0x142 <= low <= 0x173 && high < 0xC8 ==>
              var left := ((low - 64) * 255 - 65536) / 50;
              Amplitude(block) == if high * 255 / 200 > left then high * 255 / 200 else left
  {
    BandsRead(block, high, low);
    HighIsStretched(high);
    LowIsStretched(low);
    hide HighBand, LowBand, AboveSilence, Scaled, Asks;
  }

  function RumbleOutput(p: Pad, data: seq<byte>): seq<Output> {
    if !p.rumbleOn || |data| < 8 then [] else [Rumble(Amplitude(data[0..4]), Amplitude(data[4..8]))]
  }

  predicate IsSubcommand(report: seq<byte>) {
    |report| >= 11 && report[0] == OUTPUT_SUBCOMMAND
  }

  predicate IsRumble(report: seq<byte>) {
    |report| >= 10 && report[0] == OUTPUT_RUMBLE
  }

  predicate IsUsb(report: seq<byte>) {
    |report| >= 1 && report[0] == OUTPUT_USB
  }

  function AfterSubcommand(p: Pad, subcommand: byte, args: seq<byte>): Pad {
    var q := Ticked(p);
    if subcommand == 0x30 then q.(player := PlayerOf(FirstOr0(args) % 0x10))
    else if subcommand == 0x48 then q.(rumbleOn := args != [] && args[0] == 0x01)
    else q
  }

  /** The motors are driven with the rumble switch as it was before the subcommand moves it. */
  function Subcommand(p: Pad, report: seq<byte>): (Pad, Decoded)
    requires IsSubcommand(report)
  {
    var sub, args := report[10], report[11..];
    var q := AfterSubcommand(p, sub, args);
    var ack := AckOf(sub, args);
    (q, Decoded(RumbleOutput(p, report[2..10]) + (if sub == 0x30 then [PlayerLed(q.player)] else []),
                Some(AckReport(q.timer, sub, ack.code, ack.payload))))
  }

  function UsbReply(report: seq<byte>): (r: seq<byte>)
    ensures |r| == INPUT_LEN
  {
    var command := if |report| > 1 then report[1] else 0;
    if command == 0x01 then
      [USB_REPLY, command, 0x00, 0x03, ADDRESS[5], ADDRESS[4], ADDRESS[3], ADDRESS[2], ADDRESS[1], ADDRESS[0]] + Zeros(54)
    else [USB_REPLY, command] + Zeros(62)
  }

  function Decode(p: Pad, report: seq<byte>): (Pad, Decoded) {
    if IsSubcommand(report) then Subcommand(p, report)
    else if IsRumble(report) then (p, Decoded(RumbleOutput(p, report[2..10]), None))
    else if IsUsb(report) then (p, Decoded([], Some(UsbReply(report))))
    else (p, Decoded([Raw(report)], None))
  }

  /**
   * Every subcommand gets exactly one 64-byte reply that carries its own code, the next
   * timer value and its payload whole; nothing else but a USB command is replied to.
   */
  lemma SubcommandIsAcknowledged(p: Pad, report: seq<byte>)
    ensures var (q, d) := Decode(p, report);
            && (d.reply.Some? <==> IsSubcommand(report) || IsUsb(report))
            && (IsSubcommand(report) ==>
                  && var ack := AckOf(report[10], report[11..]);
                  && var r := d.reply.value;
                  && |r| == INPUT_LEN && r[0] == SUBCOMMAND_REPLY && r[1] == q.timer && q.timer == (p.timer + 1) % 0x100
                  && r[13] == ack.code && r[14] == report[10]
                  && 15 + |ack.payload| <= INPUT_LEN && r[15..15 + |ack.payload|] == ack.payload)
            && (!IsSubcommand(report) ==> q == p)
  {
    hide StateBlock, SpiImage, UsbReply, AfterSubcommand;
    if IsSubcommand(report) {
      PayloadFits(report[10], report[11..]);
      AfterTicks(p, report[10], report[11..]);
      hide AckOf;
    }
  }

  lemma AfterTicks(p: Pad, sub: byte, args: seq<byte>)
    ensures AfterSubcommand(p, sub, args).timer == (p.timer + 1) % 0x100
  {
  }

  lemma PayloadFits(sub: byte, args: seq<byte>)
    ensures |AckOf(sub, args).payload| <= 34
  {
    hide SpiImage;
  }

  /** A flash reply repeats the length the host asked for, and holds that many bytes just when it is at most 29. */
  lemma FlashReplyIsWholeExactly(args: seq<byte>)
    requires |args| >= 5
    ensures var payload := AckOf(0x10, args).payload;
            && payload[..5] == args[..5]
            && (payload[5..] == SpiImage(Le32At(args, 0), args[4]) <==> args[4] <= 0x1D)
  {
    hide SpiByte;
    var n := Min(args[4], 0x1D);
    assert (args[..5] + SpiImage(Le32At(args, 0), n))[5..] == SpiImage(Le32At(args, 0), n);
    assert (args[..5] + SpiImage(Le32At(args, 0), n))[..5] == args[..5];
  }

  /** The state block of a pad at rest: no button, and both sticks at 0x800. */
  lemma RestBlock()
    ensures StateBlock(AT_REST) == [0x90, 0x00, 0x00, 0x00, 0x00, 0x08, 0x80, 0x00, 0x08, 0x80, 0x0C]
  {
    NothingPressed();
    hide Pressed;
    assert Stick12(0) == 0x800;
    hide Stick12;
    assert PackPair(0x800, 0x800) == [0x00, 0x08, 0x80];
    hide PackPair;
    assert RightByte(AT_REST) == 0 && SharedByte(AT_REST) == 0 && LeftByte(AT_REST) == 0;
  }

  lemma NothingPressed()
    ensures forall button: bv16 :: !Pressed(AT_REST, button)
  {
  }

  /** What each subcommand is answered with: device info, flash, charge, or a bare acknowledgement. */
  predicate Answers(subcommand: byte, args: seq<byte>, code: byte, payload: seq<byte>) {
    match subcommand
    case 0x02 => code == 0x82 && payload == [0x04, 0x21, 0x03, 0x02, 0x02, 0xA1, 0x10, 0x00, 0x00, 0x03, 0x01, 0x02]
    case 0x10 =>
      if |args| < 5 then code == 0x80 && payload == []
      else code == 0x90 && payload == args[..5] + SpiImage(Le32At(args, 0), if args[4] < 29 then args[4] else 29)
    case 0x50 => code == 0xD0 && payload == [0x83, 0x06, 0x00]
    case _ => code == 0x80 && payload == []
  }

  lemma AckAnswers(subcommand: byte, args: seq<byte>)
    ensures var ack := AckOf(subcommand, args); Answers(subcommand, args, ack.code, ack.payload)
  {
    hide SpiImage;
  }

  /**
   * Every byte of the reply to a subcommand: its id, the next timer value, the block of a pad
   * at rest, the code, the subcommand, the payload, and zeros.
   */
  lemma SubcommandReplyBytes(p: Pad, report: seq<byte>)
    requires |report| >= 11 && report[0] == 0x01
    ensures var ack := AckOf(report[10], report[11..]);
            && |ack.payload| <= 49 && Answers(report[10], report[11..], ack.code, ack.payload)
            && Decode(p, report).1.reply
               == Some([0x21, (p.timer + 1) % 0x100]
                       + [0x90, 0x00, 0x00, 0x00, 0x00, 0x08, 0x80, 0x00, 0x08, 0x80, 0x0C]
                       + [ack.code, report[10]] + ack.payload + Zeros(49 - |ack.payload|))
  {
    RestBlock();
    AckAnswers(report[10], report[11..]);
    PayloadFits(report[10], report[11..]);
    AfterTicks(p, report[10], report[11..]);
    var payload := AckOf(report[10], report[11..]).payload;
    assert payload[..|payload|] == payload;
    hide AckOf, StateBlock, RumbleOutput, Answers, AfterSubcommand;
  }

  /** A USB command is echoed, and 0x01 answered with the controller type and the address, last byte first. */
  lemma UsbReplyBytes(p: Pad, report: seq<byte>)
    requires |report| >= 1 && report[0] == 0x80
    ensures Decode(p, report)
            == (p, Decoded([], Some(
                     if |report| >= 2 && report[1] == 0x01
                     then [0x81, 0x01, 0x00, 0x03, 0x03, 0x00, 0x00, 0x10, 0xA1, 0x02] + Zeros(54)
                     else [0x81, if |report| == 1 then 0 else report[1]] + Zeros(62))))
  {
  }

  /** A report too short for its kind, or of no known kind, is handed on as it is. */
  lemma OtherReportsAreRaw(p: Pad, report: seq<byte>)
    requires |report| < 11 || report[0] != 0x01
    requires |report| < 10 || report[0] != 0x10
    requires report == [] || report[0] != 0x80
    ensures Decode(p, report) == (p, Decoded([Raw(report)], None))
  {
    hide RumbleOutput, UsbReply, Subcommand;
  }

  /** Device info and the USB status name the same controller: one address, in opposite byte orders. */
  lemma AddressesAgree(p: Pad, info: seq<byte>, usb: seq<byte>)
    requires IsSubcommand(info) && info[10] == 0x02
    requires IsUsb(usb) && |usb| >= 2 && usb[1] == 0x01
    ensures var a, b := Decode(p, info).1.reply.value, Decode(p, usb).1.reply.value;
            && |a| == INPUT_LEN && |b| == INPUT_LEN
            && a[17] == b[3] == 0x03
            && forall i :: 19 <= i < 25 ==> a[i] == b[28 - i]
  {
    var ack := AckOf(0x02, info[11..]);
    var a, b := Decode(p, info).1.reply.value, Decode(p, usb).1.reply.value;
    assert |ack.payload| == 12;
    assert a[15..27] == ack.payload;
    assert ack.payload[4..10] == ADDRESS;
    forall i | 19 <= i < 25
      ensures a[i] == b[28 - i]
    {
      assert a[i] == a[15..27][i - 15] == ADDRESS[i - 19];
      assert b[28 - i] == ADDRESS[i - 19];
    }
    assert a[17] == a[15..27][2];
  }

  function Lit(lamps: byte, weight: nat): nat
    requires weight > 0
  {
    if IsSet(lamps, weight) then 1 else 0
  }

  /** The player lamps answer is the number of lamps lit, whichever arm answers it. */
  lemma PlayerIsLampsLit(lamps: byte)
    requires lamps < 0x10
    ensures PlayerOf(lamps) == Lit(lamps, 1) + Lit(lamps, 2) + Lit(lamps, 4) + Lit(lamps, 8)
  {
    if lamps == 0 || lamps == 1 {
    } else if lamps == 3 {
    } else if lamps == 7 {
    } else if lamps == 15 {
    } else {
    }
  }

  // ---------------------------------------------------------------------------
  // Whole runs
  // ---------------------------------------------------------------------------

  /** A snapshot sent to the host, or an output report the host wrote. */
  datatype Event = Sent(state: Snapshot) | Written(report: seq<byte>)

  /** The pad and everything it put on the input pipe. */
  datatype History = History(pad: Pad, pipe: seq<seq<byte>>)

  function Step(h: History, e: Event): History {
    match e
    case Sent(s) => History(Ticked(h.pad), h.pipe + [FullReport(Ticked(h.pad).timer, s)])
    case Written(report) =>
      var (q, d) := Decode(h.pad, report);
      History(q, if d.reply.Some? then h.pipe + [d.reply.value] else h.pipe)
  }

  function Run(events: seq<Event>): History
    decreases |events|
  {
    if events == [] then History(NEW_PAD, []) else Step(Run(DropLast(events)), Last(events))
  }

  predicate IsCounted(r: seq<byte>) {
    |r| == INPUT_LEN && (r[0] == FULL_REPORT || r[0] == SUBCOMMAND_REPLY)
  }

  /** The reports on the pipe that carry the timer. */
  function Counted(pipe: seq<seq<byte>>): (c: seq<seq<byte>>)
    ensures forall k :: 0 <= k < |c| ==> IsCounted(c[k])
    decreases |pipe|
  {
    if pipe == [] then [] else Counted(DropLast(pipe)) + if IsCounted(Last(pipe)) then [Last(pipe)] else []
  }

  ghost predicate TimerCounts(h: History) {
    var c := Counted(h.pipe);
    && h.pad.timer == |c| % 0x100
    && forall k :: 0 <= k < |c| ==> c[k][1] == (k + 1) % 0x100
  }

  lemma CountedSnoc(pipe: seq<seq<byte>>, r: seq<byte>)
    ensures Counted(pipe + [r]) == Counted(pipe) + if IsCounted(r) then [r] else []
  {
    assert DropLast(pipe + [r]) == pipe;
  }

  lemma CountedReportCounts(h: History, q: Pad, r: seq<byte>)
    requires TimerCounts(h) && IsCounted(r) && r[1] == q.timer && q.timer == (h.pad.timer + 1) % 0x100
    ensures TimerCounts(History(q, h.pipe + [r]))
  {
    CountedSnoc(h.pipe, r);
    hide Counted, IsCounted;
    var n := |Counted(h.pipe)|;
    assert (n % 0x100 + 1) % 0x100 == (n + 1) % 0x100;
  }

  lemma StepCounts(h: History, e: Event)
    requires TimerCounts(h)
    ensures TimerCounts(Step(h, e))
  {
    var next := Step(h, e);
    match e
    case Sent(s) =>
      hide TimerCounts, StateBlock, Decode;
      CountedReportCounts(h, next.pad, Last(next.pipe));
    case Written(report) =>
      hide AckOf, AckReport, FullReport, UsbReply, RumbleOutput, AfterSubcommand;
      SubcommandIsAcknowledged(h.pad, report);
      if IsSubcommand(report) {
        hide TimerCounts;
        CountedReportCounts(h, next.pad, Last(next.pipe));
      } else if IsUsb(report) {
        UsbIsNotCounted(report);
        CountedSnoc(h.pipe, UsbReply(report));
      }
  }

  lemma UsbIsNotCounted(report: seq<byte>)
    ensures !IsCounted(UsbReply(report))
  {
  }

  /** Over every interleaving, the k-th 0x30 or 0x21 report on the pipe carries k modulo 256. */
  lemma {:induction false} KthReportCarriesK(events: seq<Event>)
    ensures TimerCounts(Run(events))
    decreases |events|
  {
    if events != [] {
      hide TimerCounts, Step;
      KthReportCarriesK(DropLast(events));
      StepCounts(Run(DropLast(events)), Last(events));
    }
  }

  predicate IsReply(r: seq<byte>) {
    |r| == INPUT_LEN && r[0] == SUBCOMMAND_REPLY
  }

  /** The subcommand each reply on the pipe echoes. */
  function Echoes(pipe: seq<seq<byte>>): seq<byte>
    decreases |pipe|
  {
    if pipe == [] then [] else Echoes(DropLast(pipe)) + if IsReply(Last(pipe)) then [Last(pipe)[14]] else []
  }

  /** The subcommands the host wrote. */
  function Asked(events: seq<Event>): seq<byte>
    decreases |events|
  {
    if events == [] then []
    else
      var e := Last(events);
      Asked(DropLast(events)) + if e.Written? && IsSubcommand(e.report) then [e.report[10]] else []
  }

  lemma StepEchoes(h: History, e: Event)
    ensures Echoes(Step(h, e).pipe) == Echoes(h.pipe) + if e.Written? && IsSubcommand(e.report) then [e.report[10]] else []
  {
    var next := Step(h, e);
    if e.Written? {
      hide AckOf, AckReport, FullReport, UsbReply, RumbleOutput, AfterSubcommand;
      SubcommandIsAcknowledged(h.pad, e.report);
      UsbIsNotCounted(e.report);
      if next.pipe != h.pipe {
        assert DropLast(next.pipe) == h.pipe;
      }
    } else {
      hide StateBlock, Decode;
      assert DropLast(next.pipe) == h.pipe;
    }
  }

  /** Over every run the replies answer the subcommands one for one, in order. */
  lemma {:induction false} RepliesAnswerInOrder(events: seq<Event>)
    ensures Echoes(Run(events).pipe) == Asked(events)
    decreases |events|
  {
    if events != [] {
      hide Step;
      RepliesAnswerInOrder(DropLast(events));
      StepEchoes(Run(DropLast(events)), Last(events));
    }
  }

  predicate MovesSwitch(e: Event) {
    e.Written? && IsSubcommand(e.report) && e.report[10] == 0x48
  }

  /** Whether the most recent 0x48 turned the rumble on. */
  predicate Enabled(events: seq<Event>)
    decreases |events|
  {
    if events == [] then false
    else if MovesSwitch(Last(events)) then |Last(events).report| > 11 && Last(events).report[11] == 0x01
    else Enabled(DropLast(events))
  }

  lemma {:induction false} SwitchIsMostRecent(events: seq<Event>)
    ensures Run(events).pad.rumbleOn == Enabled(events)
    decreases |events|
  {
    if events != [] {
      hide AckOf, AckReport, FullReport, UsbReply, RumbleOutput;
      SwitchIsMostRecent(DropLast(events));
    }
  }

  /** The lamps the most recent 0x30 lit, none before the first; a 0x30 without an argument puts all out. */
  function LampsAsked(events: seq<Event>): byte
    decreases |events|
  {
    if events == [] then 0
    else
      var e := Last(events);
      if AsksLamps(e) then
        (if |e.report| > 11 then e.report[11] % 0x10 else 0)
      else LampsAsked(DropLast(events))
  }

  /** Over every run the player number is that of the lamps most recently asked for. */
  lemma {:induction false} PlayerIsMostRecent(events: seq<Event>)
    ensures LampsAsked(events) < 0x10 && Run(events).pad.player == PlayerOf(LampsAsked(events))
    decreases |events|
  {
    if events != [] {
      hide Step, PlayerOf;
      PlayerIsMostRecent(DropLast(events));
      PlayerMoves(Run(DropLast(events)), Last(events));
    }
  }

  predicate AsksLamps(e: Event) {
    e.Written? && IsSubcommand(e.report) && e.report[10] == 0x30
  }

  lemma PlayerMoves(h: History, e: Event)
    ensures Step(h, e).pad.player
            == if !AsksLamps(e) then h.pad.player else PlayerOf(if |e.report| > 11 then e.report[11] % 0x10 else 0)
  {
    hide AckOf, AckReport, FullReport, UsbReply, RumbleOutput, PlayerOf;
  }

  /** A 0x30 tells the game its player number, and nothing else does. */
  lemma PlayerIsTold(p: Pad, report: seq<byte>)
    ensures var d := Decode(p, report);
            forall o :: o in d.1.outputs && o.PlayerLed? ==> AsksLamps(Written(report)) && o.player == d.0.player
    ensures AsksLamps(Written(report)) ==> var d := Decode(p, report); PlayerLed(d.0.player) in d.1.outputs
  {
    hide AckOf, AckReport, UsbReply, AfterSubcommand, Amplitude;
  }

  /** The motor strengths a decoded report drives, large motor first. */
  function Motors(outputs: seq<Output>): seq<seq<byte>>
    decreases |outputs|
  {
    if outputs == [] then []
    else Motors(DropLast(outputs)) + if Last(outputs).Rumble? then [[Last(outputs).large, Last(outputs).small]] else []
  }

  /**
   * After any run, a written report drives the motors exactly when it is a subcommand or a
   * rumble report and the most recent earlier 0x48 enabled them, at the strengths of its two
   * motor blocks in bytes 2 to 5 and 6 to 9.
   */
  lemma RumbleExactlyWhenEnabled(events: seq<Event>, report: seq<byte>)
    ensures Motors(Decode(Run(events).pad, report).1.outputs)
            == if (IsSubcommand(report) || IsRumble(report)) && Enabled(events)
               then [[Amplitude(report[2..6]), Amplitude(report[6..10])]] else []
  {
    SwitchIsMostRecent(events);
    hide AckOf, AckReport, Run, AfterSubcommand, UsbReply, Amplitude;
    var p := Run(events).pad;
    if |report| >= 10 {
      MotorsOfSome(p, report);
    }
    hide RumbleOutput;
    if IsSubcommand(report) && report[10] == 0x30 {
      var q := AfterSubcommand(p, report[10], report[11..]);
      var r := RumbleOutput(p, report[2..10]);
      assert DropLast(r + [PlayerLed(q.player)]) == r;
    } else if IsSubcommand(report) {
      assert RumbleOutput(p, report[2..10]) + [] == RumbleOutput(p, report[2..10]);
    } else if !IsRumble(report) && !IsUsb(report) {
      assert DropLast([Raw(report)]) == [];
    }
  }

  /**
   * On the bytes of a report: after any run that enabled them, the motors run at the strengths
   * the report's two blocks ask for, unless the sixteen-bit product of one has wrapped.
   */
  lemma MotorsRunAsAsked(events: seq<Event>, report: seq<byte>, large: (nat, nat), small: (nat, nat))
    requires (|report| >= 11 && report[0] == 0x01) || (|report| >= 10 && report[0] == 0x10)
    requires Asks(report[2..6], large.0, large.1) && Asks(report[6..10], small.0, small.1)
    requires !(0x142 <= large.1 <= 0x173 && large.0 < 0xC8) && !(0x142 <= small.1 <= 0x173 && small.0 < 0xC8)
    ensures Motors(Decode(Run(events).pad, report).1.outputs)
            == if Enabled(events) then [[Strength(large.0, large.1), Strength(small.0, small.1)]] else []
  {
    RumbleExactlyWhenEnabled(events, report);
    AmplitudeIsStrengthExactly(report[2..6], large.0, large.1);
    AmplitudeIsStrengthExactly(report[6..10], small.0, small.1);
    hide Run, Decode, Enabled, Amplitude, Strength, Asks, Motors;
  }

  lemma MotorsOfSome(p: Pad, report: seq<byte>)
    requires |report| >= 10
    ensures Motors(RumbleOutput(p, report[2..10]))
            == if p.rumbleOn then [[Amplitude(report[2..6]), Amplitude(report[6..10])]] else []
  {
    hide Amplitude;
    var data := report[2..10];
    assert data[0..4] == report[2..6] && data[4..8] == report[6..10];
    assert DropLast([Rumble(Amplitude(data[0..4]), Amplitude(data[4..8]))]) == [];
  }

  // ---------------------------------------------------------------------------
  // The codec in place
  // ---------------------------------------------------------------------------

  class Codec {
    var timer: byte
    var player: byte
    var rumbleOn: bool

    ghost function View(): Pad
      reads this
    {
      Pad(timer, player, rumbleOn)
    }

    constructor ()
      ensures View() == NEW_PAD
    {
      timer, player, rumbleOn := 0, 0, false;
    }

    method Tick() returns (t: byte)
      modifies this
      ensures View() == Ticked(old(View())) && t == timer
    {
      timer := (timer as int + 1) % 0x100;
      t := timer;
    }

    method Encode(state: Snapshot) returns (report: seq<byte>)
      modifies this
      ensures View() == Ticked(old(View())) && report == FullReport(timer, state)
    {
      hide StateBlock, RightByte, SharedByte, LeftByte, PackPair;
      var out := new byte[INPUT_LEN](_ => 0);
      var t := Tick();
      out[0], out[1] := FULL_REPORT, t;
      WriteStateBlock(state, out);
      report := out[..];
    }

    method WriteStateBlock(state: Snapshot, into: array<byte>)
      requires into.Length == INPUT_LEN
      modifies into
      ensures into[..2] == old(into[..2]) && into[2..13] == StateBlock(state)
      ensures forall k :: 13 <= k < INPUT_LEN ==> into[k] == old(into[k])
    {
      hide RightByte, SharedByte, LeftByte, Stick12;
      var lx, ly, rx, ry := Stick12(state.lx), Stick12(state.ly), Stick12(state.rx), Stick12(state.ry);
      into[2], into[3], into[4], into[5] := 0x90, RightByte(state), SharedByte(state), LeftByte(state);
      hide PackPair;
      WritePair(into, 6, lx, ly);
      WritePair(into, 9, rx, ry);
      into[12] := 0x0C;
    }

    method CopyPayload(out: array<byte>, payload: seq<byte>)
      requires out.Length >= 15 + |payload|
      modifies out
      ensures out[..15] == old(out[..15]) && out[15..15 + |payload|] == payload
      ensures forall k :: 15 + |payload| <= k < out.Length ==> out[k] == old(out[k])
    {
      forall i | 15 <= i < 15 + |payload| {
        out[i] := payload[i - 15];
      }
    }

    method Acknowledge(subcommand: byte, ack: byte, payload: seq<byte>) returns (reply: seq<byte>)
      modifies this
      ensures View() == Ticked(old(View())) && reply == AckReport(timer, subcommand, ack, payload)
    {
      hide StateBlock;
      var out := new byte[INPUT_LEN](_ => 0);
      var t := Tick();
      out[0], out[1] := SUBCOMMAND_REPLY, t;
      WriteStateBlock(AT_REST, out);
      assert out[..13] == [SUBCOMMAND_REPLY, t] + StateBlock(AT_REST);
      out[13], out[14] := ack, subcommand;
      assert out[..15] == [SUBCOMMAND_REPLY, t] + StateBlock(AT_REST) + [ack, subcommand];
      var end := if 15 + |payload| < INPUT_LEN then 15 + |payload| else INPUT_LEN;
      CopyPayload(out, payload[..end - 15]);
      assert out[end..] == Zeros(INPUT_LEN - end);
      reply := out[..];
    }

    method HandleSubcommand(report: seq<byte>) returns (d: Decoded)
      requires IsSubcommand(report)
      modifies this
      ensures (View(), d) == Subcommand(old(View()), report)
    {
      hide AckReport;
      var sub, args := report[10], report[11..];
      var outputs := RumbleOutput(Pad(timer, player, rumbleOn), report[2..10]);
      var reply;
      match sub {
        case 0x02 =>
          var info := [0x04, 0x21, 0x03, 0x02] + ADDRESS + [0x01, 0x02];
          reply := Acknowledge(sub, 0x82, info);
        case 0x10 =>
          if |args| < 5 {
            reply := Acknowledge(sub, 0x80, []);
          } else {
            var address := Le32At(args, 0);
            var data := SpiRead(address, Min(args[4], 0x1D));
            reply := Acknowledge(sub, 0x90, args[..5] + data);
          }
        case 0x30 =>
          player := PlayerOf(FirstOr0(args) % 0x10);
          outputs := outputs + [PlayerLed(player)];
          reply := Acknowledge(sub, 0x80, []);
        case 0x48 =>
          rumbleOn := args != [] && args[0] == 0x01;
          reply := Acknowledge(sub, 0x80, []);
        case 0x50 =>
          reply := Acknowledge(sub, 0xD0, [0x83, 0x06, 0x00]);
        case _ =>
          reply := Acknowledge(sub, 0x80, []);
      }
      assert outputs + [] == outputs;
      d := Decoded(outputs, Some(reply));
    }

    method WriteAddress(out: array<byte>)
      requires out.Length == INPUT_LEN
      modifies out
      ensures out[..] == old(out[..4]) + [ADDRESS[5], ADDRESS[4], ADDRESS[3], ADDRESS[2], ADDRESS[1], ADDRESS[0]] + old(out[10..])
    {
      for index := 0 to 6
        invariant forall k :: 4 <= k < 4 + index ==> out[k] == ADDRESS[9 - k]
        invariant forall k :: 0 <= k < 4 || 4 + index <= k < INPUT_LEN ==> out[k] == old(out[k])
      {
        out[4 + index] := ADDRESS[5 - index];
      }
    }

    method HandleUsb(report: seq<byte>) returns (reply: seq<byte>)
      requires IsUsb(report)
      ensures reply == UsbReply(report)
    {
      var command := if |report| > 1 then report[1] else 0;
      var out := new byte[INPUT_LEN](_ => 0);
      out[0], out[1] := USB_REPLY, command;
      if command == 0x01 {
        out[2], out[3] := 0x00, 0x03;
        WriteAddress(out);
      }
      reply := out[..];
    }

    method DecodeReport(report: seq<byte>) returns (d: Decoded)
      modifies this
      ensures (View(), d) == Decode(old(View()), report)
    {
      hide Subcommand, UsbReply;
      if IsSubcommand(report) {
        d := HandleSubcommand(report);
      } else if IsRumble(report) {
        d := Decoded(RumbleOutput(Pad(timer, player, rumbleOn), report[2..10]), None);
      } else if IsUsb(report) {
        var reply := HandleUsb(report);
        d := Decoded([], Some(reply));
      } else {
        d := Decoded([Raw(report)], None);
      }
    }
  }
}
