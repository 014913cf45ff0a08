/**
 * The HID keyboard: eight modifier bits and a 128-bit map restated whole after every
 * transition, each port key at one usage of the Keyboard/Keypad page.
 */
module Keyboard {
  import opened Common
  import opened Bytes

  datatype Key =
    | A | B | C | D | E | F | G | H | I | J | K | L | M | N | O | P | Q | R | S | T | U | V | W | X | Y | Z
    | Num0 | Num1 | Num2 | Num3 | Num4 | Num5 | Num6 | Num7 | Num8 | Num9 | F1 | F2 | F3 | F4 | F5 | F6 | F7
    | F8 | F9 | F10 | F11 | F12 | Backspace | Tab | Enter | Pause | CapsLock | Escape | Space | PageUp
    | PageDown | End | Home | Left | Up | Right | Down | Insert | Delete | Minus | Equal | BracketLeft
    | BracketRight | Semicolon | Quote | Backslash | Comma | Period | Slash | Backquote | Numpad0 | Numpad1
    | Numpad2 | Numpad3 | Numpad4 | Numpad5 | Numpad6 | Numpad7 | Numpad8 | Numpad9 | NumpadMultiply
    | NumpadAdd | NumpadEnter | NumpadSubtract | NumpadDecimal | NumpadDivide | ShiftLeft | ShiftRight
    | ControlLeft | ControlRight | AltLeft | AltRight | Meta

  const REPORT_ID: bv8 := 0x0A
  const BITMAP_LEN: nat := 16
  const MODIFIER_BASE: nat := 0xE0

  function Usage(key: Key): byte {
    match key
    case A => 0x04
    case B => 0x05
    case C => 0x06
    case D => 0x07
    case E => 0x08
    case F => 0x09
    case G => 0x0A
    case H => 0x0B
    case I => 0x0C
    case J => 0x0D
    case K => 0x0E
    case L => 0x0F
    case M => 0x10
    case N => 0x11
    case O => 0x12
    case P => 0x13
    case Q => 0x14
    case R => 0x15
    case S => 0x16
    case T => 0x17
    case U => 0x18
    case V => 0x19
    case W => 0x1A
    case X => 0x1B
    case Y => 0x1C
    case Z => 0x1D
    case Num1 => 0x1E
    case Num2 => 0x1F
    case Num3 => 0x20
    case Num4 => 0x21
    case Num5 => 0x22
    case Num6 => 0x23
    case Num7 => 0x24
    case Num8 => 0x25
    case Num9 => 0x26
    case Num0 => 0x27
    case Enter => 0x28
    case Escape => 0x29
    case Backspace => 0x2A
    case Tab => 0x2B
    case Space => 0x2C
    case Minus => 0x2D
    case Equal => 0x2E
    case BracketLeft => 0x2F
    case BracketRight => 0x30
    case Backslash => 0x31
    case Semicolon => 0x33
    case Quote => 0x34
    case Backquote => 0x35
    case Comma => 0x36
    case Period => 0x37
    case Slash => 0x38
    case CapsLock => 0x39
    case F1 => 0x3A
    case F2 => 0x3B
    case F3 => 0x3C
    case F4 => 0x3D
    case F5 => 0x3E
    case F6 => 0x3F
    case F7 => 0x40
    case F8 => 0x41
    case F9 => 0x42
    case F10 => 0x43
    case F11 => 0x44
    case F12 => 0x45
    case Pause => 0x48
    case Insert => 0x49
    case Home => 0x4A
    case PageUp => 0x4B
    case Delete => 0x4C
    case End => 0x4D
    case PageDown => 0x4E
    case Right => 0x4F
    case Left => 0x50
    case Down => 0x51
    case Up => 0x52
    case NumpadDivide => 0x54
    case NumpadMultiply => 0x55
    case NumpadSubtract => 0x56
    case NumpadAdd => 0x57
    case NumpadEnter => 0x58
    case Numpad1 => 0x59
    case Numpad2 => 0x5A
    case Numpad3 => 0x5B
    case Numpad4 => 0x5C
    case Numpad5 => 0x5D
    case Numpad6 => 0x5E
    case Numpad7 => 0x5F
    case Numpad8 => 0x60
    case Numpad9 => 0x61
    case Numpad0 => 0x62
    case NumpadDecimal => 0x63
    case ControlLeft => 0xE0
    case ShiftLeft => 0xE1
    case AltLeft => 0xE2
    case Meta => 0xE3
    case ControlRight => 0xE4
    case ShiftRight => 0xE5
    case AltRight => 0xE6
  }

  function LetterAt(usage: byte): Option<Key> {
    if usage == 0x04 then Some(A)
    else if usage == 0x05 then Some(B)
    else if usage == 0x06 then Some(C)
    else if usage == 0x07 then Some(D)
    else if usage == 0x08 then Some(E)
    else if usage == 0x09 then Some(F)
    else if usage == 0x0A then Some(G)
    else if usage == 0x0B then Some(H)
    else if usage == 0x0C then Some(I)
    else if usage == 0x0D then Some(J)
    else if usage == 0x0E then Some(K)
    else if usage == 0x0F then Some(L)
    else if usage == 0x10 then Some(M)
    else if usage == 0x11 then Some(N)
    else if usage == 0x12 then Some(O)
    else if usage == 0x13 then Some(P)
    else if usage == 0x14 then Some(Q)
    else if usage == 0x15 then Some(R)
    else if usage == 0x16 then Some(S)
    else if usage == 0x17 then Some(T)
    else if usage == 0x18 then Some(U)
    else if usage == 0x19 then Some(V)
    else if usage == 0x1A then Some(W)
    else if usage == 0x1B then Some(X)
    else if usage == 0x1C then Some(Y)
    else if usage == 0x1D then Some(Z)
    else None
  }

  function DigitAt(usage: byte): Option<Key> {
    if usage == 0x1E then Some(Num1)
    else if usage == 0x1F then Some(Num2)
    else if usage == 0x20 then Some(Num3)
    else if usage == 0x21 then Some(Num4)
    else if usage == 0x22 then Some(Num5)
    else if usage == 0x23 then Some(Num6)
    else if usage == 0x24 then Some(Num7)
    else if usage == 0x25 then Some(Num8)
    else if usage == 0x26 then Some(Num9)
    else if usage == 0x27 then Some(Num0)
    else if usage == 0x28 then Some(Enter)
    else if usage == 0x29 then Some(Escape)
    else if usage == 0x2A then Some(Backspace)
    else if usage == 0x2B then Some(Tab)
    else if usage == 0x2C then Some(Space)
    else if usage == 0x2D then Some(Minus)
    else None
  }

  function PunctuationAt(usage: byte): Option<Key> {
    if usage == 0x2E then Some(Equal)
    else if usage == 0x2F then Some(BracketLeft)
    else if usage == 0x30 then Some(BracketRight)
    else if usage == 0x31 then Some(Backslash)
    else if usage == 0x33 then Some(Semicolon)
    else if usage == 0x34 then Some(Quote)
    else if usage == 0x35 then Some(Backquote)
    else if usage == 0x36 then Some(Comma)
    else if usage == 0x37 then Some(Period)
    else if usage == 0x38 then Some(Slash)
    else if usage == 0x39 then Some(CapsLock)
    else None
  }

  function FunctionAt(usage: byte): Option<Key> {
    if usage == 0x3A then Some(F1)
    else if usage == 0x3B then Some(F2)
    else if usage == 0x3C then Some(F3)
    else if usage == 0x3D then Some(F4)
    else if usage == 0x3E then Some(F5)
    else if usage == 0x3F then Some(F6)
    else if usage == 0x40 then Some(F7)
    else if usage == 0x41 then Some(F8)
    else if usage == 0x42 then Some(F9)
    else if usage == 0x43 then Some(F10)
    else if usage == 0x44 then Some(F11)
    else if usage == 0x45 then Some(F12)
    else None
  }

  function NavigationAt(usage: byte): Option<Key> {
    if usage == 0x48 then Some(Pause)
    else if usage == 0x49 then Some(Insert)
    else if usage == 0x4A then Some(Home)
    else if usage == 0x4B then Some(PageUp)
    else if usage == 0x4C then Some(Delete)
    else if usage == 0x4D then Some(End)
    else if usage == 0x4E then Some(PageDown)
    else if usage == 0x4F then Some(Right)
    else if usage == 0x50 then Some(Left)
    else if usage == 0x51 then Some(Down)
    else if usage == 0x52 then Some(Up)
    else None
  }

  function NumpadAt(usage: byte): Option<Key> {
    if usage == 0x54 then Some(NumpadDivide)
    else if usage == 0x55 then Some(NumpadMultiply)
    else if usage == 0x56 then Some(NumpadSubtract)
    else if usage == 0x57 then Some(NumpadAdd)
    else if usage == 0x58 then Some(NumpadEnter)
    else if usage == 0x59 then Some(Numpad1)
    else if usage == 0x5A then Some(Numpad2)
    else if usage == 0x5B then Some(Numpad3)
    else if usage == 0x5C then Some(Numpad4)
    else if usage == 0x5D then Some(Numpad5)
    else if usage == 0x5E then Some(Numpad6)
    else if usage == 0x5F then Some(Numpad7)
    else if usage == 0x60 then Some(Numpad8)
    else if usage == 0x61 then Some(Numpad9)
    else if usage == 0x62 then Some(Numpad0)
    else if usage == 0x63 then Some(NumpadDecimal)
    else None
  }

  function ModifierAt(usage: byte): Option<Key> {
    if usage == 0xE0 then Some(ControlLeft)
    else if usage == 0xE1 then Some(ShiftLeft)
    else if usage == 0xE2 then Some(AltLeft)
    else if usage == 0xE3 then Some(Meta)
    else if usage == 0xE4 then Some(ControlRight)
    else if usage == 0xE5 then Some(ShiftRight)
    else if usage == 0xE6 then Some(AltRight)
    else None
  }

  function KeyAt(usage: byte): Option<Key> {
    if usage < 0x1E then LetterAt(usage)
    else if usage < 0x2E then DigitAt(usage)
    else if usage < 0x3A then PunctuationAt(usage)
    else if usage < 0x46 then FunctionAt(usage)
    else if usage < 0x54 then NavigationAt(usage)
    else if usage < 0x64 then NumpadAt(usage)
    else ModifierAt(usage)
  }

  /** The usages the descriptor declares: a bit each for 0xE0 to 0xE7 and for 0 to 0x7F. */
  predicate Declared(usage: byte) {
    usage < 0x80 || 0xE0 <= usage < 0xE8
  }

  lemma LettersAreInvertible(key: Key)
    requires 0x00 <= Usage(key) < 0x1E
    ensures LetterAt(Usage(key)) == Some(key)
  {
  }

  lemma DigitsAreInvertible(key: Key)
    requires 0x1E <= Usage(key) < 0x2E
    ensures DigitAt(Usage(key)) == Some(key)
  {
  }

  lemma PunctuationsAreInvertible(key: Key)
    requires 0x2E <= Usage(key) < 0x3A
    ensures PunctuationAt(Usage(key)) == Some(key)
  {
  }

  lemma FunctionsAreInvertible(key: Key)
    requires 0x3A <= Usage(key) < 0x46
    ensures FunctionAt(Usage(key)) == Some(key)
  {
  }

  lemma NavigationsAreInvertible(key: Key)
    requires 0x46 <= Usage(key) < 0x54
    ensures NavigationAt(Usage(key)) == Some(key)
  {
  }

  lemma NumpadsAreInvertible(key: Key)
    requires 0x54 <= Usage(key) < 0x64
    ensures NumpadAt(Usage(key)) == Some(key)
  {
  }

  lemma ModifiersAreInvertible(key: Key)
    requires 0x64 <= Usage(key) < 0x100
    ensures ModifierAt(Usage(key)) == Some(key)
  {
  }

  lemma UsageIsDeclared(key: Key)
    ensures Declared(Usage(key))
  {
  }

  /** No two of the 99 keys share a usage. */
  lemma UsageIsInvertible(key: Key)
    ensures KeyAt(Usage(key)) == Some(key)
  {
    hide Usage, LetterAt, DigitAt, PunctuationAt, FunctionAt, NavigationAt, NumpadAt, ModifierAt;
    var u := Usage(key);
    if u < 0x1E {
      LettersAreInvertible(key);
    } else if u < 0x2E {
      DigitsAreInvertible(key);
    } else if u < 0x3A {
      PunctuationsAreInvertible(key);
    } else if u < 0x46 {
      FunctionsAreInvertible(key);
    } else if u < 0x54 {
      NavigationsAreInvertible(key);
    } else if u < 0x64 {
      NumpadsAreInvertible(key);
    } else {
      ModifiersAreInvertible(key);
    }
  }

  lemma UsageIsInjective(a: Key, b: Key)
    requires Usage(a) == Usage(b)
    ensures a == b
  {
    UsageIsInvertible(a);
    UsageIsInvertible(b);
  }

  // ---------------------------------------------------------------------------
  // Bits of a byte
  // ---------------------------------------------------------------------------

  type BitIndex = i: nat | i < 8

  function Mask(i: BitIndex): bv8 {
    1 << i
  }

  predicate Bit(b: bv8, i: BitIndex) {
    b & Mask(i) != 0
  }

  function WithBit(b: bv8, i: BitIndex, on: bool): bv8 {
    if on then b | Mask(i) else b & !Mask(i)
  }

  lemma Masks(i: BitIndex)
    ensures Mask(i) == if i == 0 then 1 else if i == 1 then 2 else if i == 2 then 4 else if i == 3 then 8
                       else if i == 4 then 16 else if i == 5 then 32 else if i == 6 then 64 else 128
  {
  }

  lemma MasksAreDisjoint(i: BitIndex, j: BitIndex)
    requires i != j
    ensures Mask(i) & Mask(j) == 0
  {
    Masks(i);
    Masks(j);
    hide Mask;
  }

  lemma MaskIsNotZero(i: BitIndex)
    ensures Mask(i) != 0
  {
    Masks(i);
  }

  lemma BitAlgebra(b: bv8, m: bv8, n: bv8)
    ensures m & n == 0 ==> (b | m) & n == b & n && (b & !m) & n == b & n
    ensures (b | m) & m == m && (b & !m) & m == 0
  {
  }

  /** Setting or clearing one bit leaves the seven others alone. */
  lemma WithBitAt(b: bv8, i: BitIndex, on: bool, j: BitIndex)
    ensures Bit(WithBit(b, i, on), j) == if j == i then on else Bit(b, j)
  {
    hide Mask;
    BitAlgebra(b, Mask(i), Mask(j));
    MaskIsNotZero(i);
    if i != j {
      MasksAreDisjoint(i, j);
    }
  }

  lemma SameBits(a: bv8, b: bv8)
    requires forall i: BitIndex :: Bit(a, i) == Bit(b, i)
    ensures a == b
  {
    hide Mask;
    assert Bit(a, 0) == Bit(b, 0) && Bit(a, 1) == Bit(b, 1) && Bit(a, 2) == Bit(b, 2) && Bit(a, 3) == Bit(b, 3);
    assert Bit(a, 4) == Bit(b, 4) && Bit(a, 5) == Bit(b, 5) && Bit(a, 6) == Bit(b, 6) && Bit(a, 7) == Bit(b, 7);
    Masks(0);
    Masks(1);
    Masks(2);
    Masks(3);
    Masks(4);
    Masks(5);
    Masks(6);
    Masks(7);
  }

  lemma SomeBit(b: bv8) returns (i: BitIndex)
    requires b != 0
    ensures Bit(b, i)
  {
    if all: BitIndex :| Bit(b, all) {
      i := all;
    } else {
      assert forall k: BitIndex :: !Bit(0, k);
      SameBits(b, 0);
      assert false;
    }
  }

  // ---------------------------------------------------------------------------
  // The keys held down
  // ---------------------------------------------------------------------------

  datatype Keys = Keys(modifiers: bv8, bitmap: seq<bv8>)

  const NO_KEYS := Keys(0, [0, 0, 0, 0, 0, 0, 0, 0, 0, 0, 0, 0, 0, 0, 0, 0])

  predicate Sized(keys: Keys) {
    |keys.bitmap| == BITMAP_LEN
  }

  function Apply(keys: Keys, key: Key, pressed: bool): (next: Keys)
    requires Sized(keys)
    ensures Sized(next)
  {
    UsageIsDeclared(key);
    var usage := Usage(key);
    if usage >= MODIFIER_BASE then keys.(modifiers := WithBit(keys.modifiers, usage - MODIFIER_BASE, pressed))
    else keys.(bitmap := keys.bitmap[usage / 8 := WithBit(keys.bitmap[usage / 8], usage % 8, pressed)])
  }

  function Report(keys: Keys): (report: seq<bv8>)
    requires Sized(keys)
    ensures |report| == 18
  {
    [REPORT_ID, keys.modifiers] + keys.bitmap
  }

  /** How a host reads a usage out of a report: byte 1 is 0xE0 to 0xE7, the sixteen after it 0 to 0x7F. */
  predicate ShownDown(report: seq<bv8>, usage: byte)
    requires |report| == 18 && Declared(usage)
  {
    if usage >= 0xE0 then Bit(report[1], usage - 0xE0) else Bit(report[2 + usage / 8], usage % 8)
  }

  /** One transition moves its own key's bit and no other. */
  lemma ApplyShows(keys: Keys, key: Key, pressed: bool, usage: byte)
    requires Sized(keys) && Declared(usage)
    ensures ShownDown(Report(Apply(keys, key, pressed)), usage)
            == if usage == Usage(key) then pressed else ShownDown(Report(keys), usage)
  {
    hide Usage, Bit, WithBit;
    UsageIsDeclared(key);
    var at := Usage(key);
    if at >= MODIFIER_BASE && usage >= MODIFIER_BASE {
      WithBitAt(keys.modifiers, at - MODIFIER_BASE, pressed, usage - MODIFIER_BASE);
    } else if at < MODIFIER_BASE && usage < MODIFIER_BASE && at / 8 == usage / 8 {
      WithBitAt(keys.bitmap[at / 8], at % 8, pressed, usage % 8);
    }
  }

  // ---------------------------------------------------------------------------
  // Whole runs
  // ---------------------------------------------------------------------------

  datatype Transition = Transition(key: Key, pressed: bool)

  function Run(history: seq<Transition>): (keys: Keys)
    ensures Sized(keys)
    decreases |history|
  {
    if history == [] then NO_KEYS else Apply(Run(DropLast(history)), Last(history).key, Last(history).pressed)
  }

  /** Whether the last transition of a key, if it had any, was a press. */
  predicate Held(history: seq<Transition>, key: Key)
    decreases |history|
  {
    history != [] && if Last(history).key == key then Last(history).pressed else Held(DropLast(history), key)
  }

  lemma NoKeysShowNothing(usage: byte)
    requires Declared(usage)
    ensures !ShownDown(Report(NO_KEYS), usage)
  {
    assert Report(NO_KEYS)[if usage >= 0xE0 then 1 else 2 + usage / 8] == 0;
  }

  lemma {:induction false} KeyShownWhenHeld(history: seq<Transition>, key: Key)
    requires Declared(Usage(key))
    ensures ShownDown(Report(Run(history)), Usage(key)) <==> Held(history, key)
    decreases |history|
  {
    hide Usage, Report, ShownDown, Apply;
    if history == [] {
      NoKeysShowNothing(Usage(key));
    } else {
      var step := Last(history);
      KeyShownWhenHeld(DropLast(history), key);
      ApplyShows(Run(DropLast(history)), step.key, step.pressed, Usage(key));
      if Usage(step.key) == Usage(key) {
        UsageIsInjective(step.key, key);
      }
    }
  }

  lemma {:induction false} StrayUsageIsNeverShown(history: seq<Transition>, usage: byte)
    requires Declared(usage) && forall key :: Usage(key) != usage
    ensures !ShownDown(Report(Run(history)), usage)
    decreases |history|
  {
    hide Usage, Report, ShownDown, Apply;
    if history == [] {
      NoKeysShowNothing(usage);
    } else {
      StrayUsageIsNeverShown(DropLast(history), usage);
      ApplyShows(Run(DropLast(history)), Last(history).key, Last(history).pressed, usage);
    }
  }

  /** After any run the report sets exactly the usages of the keys whose last transition was a press. */
  lemma ReportIsHeldKeys(history: seq<Transition>, usage: byte)
    requires Declared(usage)
    ensures ShownDown(Report(Run(history)), usage) <==> exists key :: Usage(key) == usage && Held(history, key)
  {
    hide Usage, Report, ShownDown, Run, Held;
    if key :| Usage(key) == usage {
      KeyShownWhenHeld(history, key);
      forall other | Usage(other) == usage
        ensures other == key
      {
        UsageIsInjective(other, key);
      }
    } else {
      StrayUsageIsNeverShown(history, usage);
    }
  }

  predicate AnyDown(keys: Keys) {
    keys.modifiers != 0 || exists i :: 0 <= i < |keys.bitmap| && keys.bitmap[i] != 0
  }

  lemma AnyDownIsSomeUsage(keys: Keys)
    requires Sized(keys)
    ensures AnyDown(keys) <==> exists usage: byte :: Declared(usage) && ShownDown(Report(keys), usage)
  {
    forall i: BitIndex
      ensures !Bit(0, i)
    {
    }
    hide Bit;
    if keys.modifiers != 0 {
      var i := SomeBit(keys.modifiers);
      var usage: byte := 0xE0 + i as int;
      assert Declared(usage) && ShownDown(Report(keys), usage);
    } else if j: nat :| j < |keys.bitmap| && keys.bitmap[j] != 0 {
      var i := SomeBit(keys.bitmap[j]);
      var usage: byte := 8 * j + i as int;
      assert usage / 8 == j && usage % 8 == i;
      assert Declared(usage) && ShownDown(Report(keys), usage);
    }
  }

  /** any_down answers whether some key is held. */
  lemma AnyDownExactly(history: seq<Transition>)
    ensures AnyDown(Run(history)) <==> exists key :: Held(history, key)
  {
    hide Usage, Report, ShownDown, Run, Held, AnyDown;
    AnyDownIsSomeUsage(Run(history));
    if usage: byte :| Declared(usage) && ShownDown(Report(Run(history)), usage) {
      ReportIsHeldKeys(history, usage);
    }
    if key :| Held(history, key) {
      UsageIsDeclared(key);
      KeyShownWhenHeld(history, key);
    }
  }

  lemma SameUsages(a: Keys, b: Keys)
    requires Sized(a) && Sized(b)
    requires forall usage: byte | Declared(usage) :: ShownDown(Report(a), usage) == ShownDown(Report(b), usage)
    ensures a == b
  {
    hide Bit;
    forall i: BitIndex
      ensures Bit(a.modifiers, i) == Bit(b.modifiers, i)
    {
      var usage: byte := 0xE0 + i as int;
      assert ShownDown(Report(a), usage) == ShownDown(Report(b), usage);
    }
    SameBits(a.modifiers, b.modifiers);
    forall j | 0 <= j < BITMAP_LEN
      ensures a.bitmap[j] == b.bitmap[j]
    {
      forall i: BitIndex
        ensures Bit(a.bitmap[j], i) == Bit(b.bitmap[j], i)
      {
        var usage: byte := 8 * j + i as int;
        assert usage / 8 == j && usage % 8 == i;
        assert ShownDown(Report(a), usage) == ShownDown(Report(b), usage);
      }
      SameBits(a.bitmap[j], b.bitmap[j]);
    }
  }

  ghost predicate HoldSame(one: seq<Transition>, two: seq<Transition>) {
    forall key :: Held(one, key) == Held(two, key)
  }

  lemma SameHeldSameState(one: seq<Transition>, two: seq<Transition>)
    requires HoldSame(one, two)
    ensures Run(one) == Run(two)
  {
    hide Usage, Run, Held, ShownDown, Report;
    forall usage: byte | Declared(usage)
      ensures ShownDown(Report(Run(one)), usage) == ShownDown(Report(Run(two)), usage)
    {
      ReportIsHeldKeys(one, usage);
      ReportIsHeldKeys(two, usage);
    }
    SameUsages(Run(one), Run(two));
  }

  lemma SameStateSameHeld(one: seq<Transition>, two: seq<Transition>)
    requires Run(one) == Run(two)
    ensures HoldSame(one, two)
  {
    hide Usage, Run, ShownDown, Report;
    forall key
      ensures Held(one, key) == Held(two, key)
    {
      UsageIsDeclared(key);
      KeyShownWhenHeld(one, key);
      KeyShownWhenHeld(two, key);
    }
  }

  /** The codec remembers the held set and nothing else: two runs meet exactly when they hold the same keys. */
  lemma StateIsHeldSet(one: seq<Transition>, two: seq<Transition>)
    ensures Run(one) == Run(two) <==> HoldSame(one, two)
  {
    if Run(one) == Run(two) {
      SameStateSameHeld(one, two);
    }
    if HoldSame(one, two) {
      SameHeldSameState(one, two);
    }
  }

  // ---------------------------------------------------------------------------
  // The codec in place
  // ---------------------------------------------------------------------------

  class Codec {
    var modifiers: bv8
    const bitmap: array<bv8>

    ghost function View(): Keys
      reads this, bitmap
    {
      Keys(modifiers, bitmap[..])
    }

    ghost predicate Valid() {
      bitmap.Length == BITMAP_LEN
    }

    constructor ()
      ensures Valid() && fresh(bitmap) && View() == Run([])
    {
      modifiers := 0;
      bitmap := new bv8[16](_ => 0);
    }

    method CurrentReport() returns (report: seq<bv8>)
      requires Valid()
      ensures report == Report(View())
    {
      report := [REPORT_ID, modifiers] + bitmap[..];
    }

    method ChangeModifier(i: BitIndex, pressed: bool)
      modifies this
      ensures modifiers == WithBit(old(modifiers), i, pressed)
    {
      hide Mask;
      if pressed {
        modifiers := modifiers | Mask(i);
      } else {
        modifiers := modifiers & !Mask(i);
      }
    }

    method ChangeBitmap(at: nat, i: BitIndex, pressed: bool)
      requires Valid() && at < BITMAP_LEN
      modifies bitmap
      ensures bitmap[..] == old(bitmap[..])[at := WithBit(old(bitmap[at]), i, pressed)]
    {
      hide Mask;
      if pressed {
        bitmap[at] := bitmap[at] | Mask(i);
      } else {
        bitmap[at] := bitmap[at] & !Mask(i);
      }
    }

    method KeyTransition(key: Key, pressed: bool) returns (report: seq<bv8>)
      requires Valid()
      modifies this, bitmap
      ensures View() == Apply(old(View()), key, pressed)
      ensures report == Report(View())
    {
      hide Usage, WithBit, Report;
      UsageIsDeclared(key);
      var usage := Usage(key);
      if usage >= MODIFIER_BASE {
        ChangeModifier(usage - MODIFIER_BASE, pressed);
      } else {
        ChangeBitmap(usage / 8, usage % 8, pressed);
      }
      report := CurrentReport();
    }

    method IsAnyDown() returns (down: bool)
      requires Valid()
      ensures down == AnyDown(View())
    {
      down := modifiers != 0;
      for i := 0 to bitmap.Length
        invariant down <==> modifiers != 0 || exists k :: 0 <= k < i && bitmap[k] != 0
      {
        down := down || bitmap[i] != 0;
      }
    }
  }
}
