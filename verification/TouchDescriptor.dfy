/**
 * The touch screen's report descriptor, one finger collection repeated for every contact,
 * the short-item walk that gives a descriptor its meaning, and the input report read back
 * through it.
 */
module TouchDescriptor {
  import opened Common
  import opened Bytes
  import opened TouchState
  import Rescale

  const REPORT_ID: byte := 0x08
  const FEATURE_ID: byte := 0x09
  const CONTACT_LEN: nat := 12
  const INPUT_LEN: nat := 1 + CONTACT_LEN * MAX_CONTACTS + 1

  // ---------------------------------------------------------------------------
  // Walking a descriptor
  // ---------------------------------------------------------------------------

  datatype Kind = Input | Output | Feature

  /** What the walk keeps: global items, open collections, and the bits declared for each report. */
  datatype Walk = Walk(id: byte, size: nat, count: nat, depth: nat, bits: map<(Kind, byte), nat>)

  const START := Walk(0, 0, 0, 0, map[])

  function DataLength(prefix: byte): nat {
    if prefix % 4 == 3 then 4 else prefix % 4
  }

  function Tag(prefix: byte): nat {
    prefix - prefix % 4
  }

  function Number(data: seq<byte>): nat {
    if data == [] then 0 else data[0] as nat + 0x100 * Number(data[1..])
  }

  function BitsOf(w: Walk, kind: Kind, id: byte): nat {
    if (kind, id) in w.bits then w.bits[(kind, id)] else 0
  }

  function Declare(w: Walk, kind: Kind): Walk {
    w.(bits := w.bits[(kind, w.id) := BitsOf(w, kind, w.id) + w.size * w.count])
  }

  /** One item's effect; closing a collection that was never within is refused. */
  function Item(w: Walk, tag: nat, value: nat): Option<Walk> {
    if tag == 0xA0 then Some(w.(depth := w.depth + 1))
    else if tag == 0xC0 then if w.depth == 0 then None else Some(w.(depth := w.depth - 1))
    else if tag == 0x84 then Some(w.(id := value % 0x100))
    else if tag == 0x74 then Some(w.(size := value))
    else if tag == 0x94 then Some(w.(count := value))
    else if tag == 0x80 then Some(Declare(w, Input))
    else if tag == 0x90 then Some(Declare(w, Output))
    else if tag == 0xB0 then Some(Declare(w, Feature))
    else Some(w)
  }

  function WalkFrom(w: Walk, d: seq<byte>): Option<Walk>
    decreases |d|
  {
    if d == [] then Some(w)
    else
      var end := 1 + DataLength(d[0]);
      if d[0] == 0xFE || end > |d| then None
      else
        var next := Item(w, Tag(d[0]), Number(d[1..end]));
        if next.None? then None else WalkFrom(next.value, d[end..])
  }

  /** The size of every report a descriptor declares, the id byte included. */
  type Layout = map<(Kind, byte), nat>

  predicate Aligned(bits: map<(Kind, byte), nat>) {
    forall key :: key in bits ==> bits[key] % 8 == 0
  }

  function Sizes(bits: map<(Kind, byte), nat>): Layout {
    map key | key in bits :: bits[key] / 8 + 1
  }

  function LayoutOf(d: seq<byte>): Option<Layout> {
    var w := WalkFrom(START, d);
    if w.Some? && w.value.depth == 0 && Aligned(w.value.bits) then Some(Sizes(w.value.bits)) else None
  }

  lemma WalkEnds(w: Walk)
    ensures WalkFrom(w, []) == Some(w)
  {
  }

  lemma WalkAt(w: Walk, d: seq<byte>, at: nat)
    requires at < |d|
    ensures var end := at + 1 + DataLength(d[at]);
            WalkFrom(w, d[at..])
            == if d[at] == 0xFE || end > |d| then None
               else
                 var next := Item(w, Tag(d[at]), Number(d[at + 1..end]));
                 if next.None? then None else WalkFrom(next.value, d[end..])
  {
    hide Item, Tag, Number;
    var end := at + 1 + DataLength(d[at]);
    if end <= |d| {
      assert d[at..][1..end - at] == d[at + 1..end];
      assert d[at..][end - at..] == d[end..];
    }
  }

  method Parse(d: seq<byte>) returns (layout: Option<Layout>)
    ensures layout == LayoutOf(d)
  {
    hide WalkFrom, Item, Tag, Number, DataLength, Aligned, Sizes;
    var w := START;
    var at := 0;
    assert d[0..] == d;
    while at < |d|
      invariant at <= |d|
      invariant WalkFrom(w, d[at..]) == WalkFrom(START, d)
    {
      WalkAt(w, d, at);
      var prefix := d[at];
      var size := DataLength(prefix);
      if prefix == 0xFE || at + 1 + size > |d| {
        return None;
      }
      var value := Fold(d[at + 1..at + 1 + size]);
      var next := Item(w, Tag(prefix), value);
      if next.None? {
        return None;
      }
      w := next.value;
      at := at + 1 + size;
    }
    assert d[at..] == [];
    WalkEnds(w);
    if w.depth != 0 || !Aligned(w.bits) {
      return None;
    }
    layout := Some(Sizes(w.bits));
  }

  /** Folds an item's data from its last byte. */
  method Fold(data: seq<byte>) returns (value: nat)
    ensures value == Number(data)
  {
    value := 0;
    var i := |data|;
    while i > 0
      invariant 0 <= i <= |data|
      invariant value == Number(data[i..])
    {
      i := i - 1;
      assert data[i..][1..] == data[i + 1..];
      value := value * 0x100 + data[i] as nat;
    }
    assert data[0..] == data;
  }

  // ---------------------------------------------------------------------------
  // Descriptors as items
  // ---------------------------------------------------------------------------

  /** A short item as it is written down: its prefix and data bytes. */
  datatype Short = Short(prefix: byte, data: seq<byte>)

  predicate WellFormed(items: seq<Short>) {
    forall i :: 0 <= i < |items| ==> items[i].prefix != 0xFE && |items[i].data| == DataLength(items[i].prefix)
  }

  function Flatten(items: seq<Short>): seq<byte> {
    if items == [] then [] else [items[0].prefix] + items[0].data + Flatten(items[1..])
  }

  function Interpret(w: Walk, items: seq<Short>): Option<Walk>
    decreases |items|
  {
    if items == [] then Some(w)
    else
      var next := Item(w, Tag(items[0].prefix), Number(items[0].data));
      if next.None? then None else Interpret(next.value, items[1..])
  }

  /** Walking the bytes of any items finds those items again. */
  lemma {:induction false} WalkFindsItems(w: Walk, items: seq<Short>)
    requires WellFormed(items)
    ensures WalkFrom(w, Flatten(items)) == Interpret(w, items)
    decreases |items|
  {
    if items != [] {
      hide Item, Number, Tag;
      var d, end := Flatten(items), 1 + |items[0].data|;
      assert d[0] == items[0].prefix && d[1..end] == items[0].data && d[end..] == Flatten(items[1..]);
      var next := Item(w, Tag(d[0]), Number(d[1..end]));
      if next.Some? {
        WalkFindsItems(next.value, items[1..]);
      }
    }
  }

  lemma {:induction false} FlattenAppends(a: seq<Short>, b: seq<Short>)
    ensures Flatten(a + b) == Flatten(a) + Flatten(b)
    decreases |a|
  {
    if a == [] {
      assert a + b == b;
    } else {
      FlattenAppends(a[1..], b);
      assert (a + b)[1..] == a[1..] + b;
    }
  }

  lemma {:induction false} InterpretAppends(w: Walk, a: seq<Short>, b: seq<Short>)
    ensures Interpret(w, a + b)
            == if Interpret(w, a).None? then None else Interpret(Interpret(w, a).value, b)
    decreases |a|
  {
    if a == [] {
      assert a + b == b;
    } else {
      hide Item, Tag, Number;
      assert (a + b)[0] == a[0] && (a + b)[1..] == a[1..] + b;
      var next := Item(w, Tag(a[0].prefix), Number(a[0].data));
      if next.Some? {
        InterpretAppends(next.value, a[1..], b);
      }
    }
  }

  /** Usages, limits and units do not change what is declared. */
  predicate Inert(items: seq<Short>) {
    forall i :: 0 <= i < |items| ==> Tag(items[i].prefix) !in {0xA0, 0xC0, 0x84, 0x74, 0x94, 0x80, 0x90, 0xB0}
  }

  lemma {:induction false} InertKeeps(w: Walk, items: seq<Short>)
    requires Inert(items)
    ensures Interpret(w, items) == Some(w)
    decreases |items|
  {
    if items != [] {
      InertKeeps(w, items[1..]);
    }
  }

  lemma OneItem(w: Walk, s: Short)
    ensures Interpret(w, [s]) == Item(w, Tag(s.prefix), Number(s.data))
  {
    hide Item, Tag, Number;
    assert [s][1..] == [];
  }

  function ReportSize(size: byte): Short {
    Short(0x75, [size])
  }

  function ReportCount(count: byte): Short {
    Short(0x95, [count])
  }

  function Main(kind: Kind, flags: byte): Short {
    Short(match kind case Input => 0x81 case Output => 0x91 case Feature => 0xB1, [flags])
  }

  lemma NumberOfByte(b: byte)
    ensures Number([b]) == b
  {
    assert [b][1..] == [];
  }

  /** A counted main item after local items declares size times count more bits. */
  lemma FieldDeclares(w: Walk, locals: seq<Short>, count: byte, kind: Kind, flags: byte)
    requires Inert(locals)
    ensures Interpret(w, locals + [ReportCount(count)] + [Main(kind, flags)]) == Some(Declare(w.(count := count), kind))
  {
    hide Declare;
    InertKeeps(w, locals);
    InterpretAppends(w, locals, [ReportCount(count)]);
    OneItem(w, ReportCount(count));
    NumberOfByte(count);
    InterpretAppends(w, locals + [ReportCount(count)], [Main(kind, flags)]);
    OneItem(w.(count := count), Main(kind, flags));
  }

  lemma SizedFieldDeclares(w: Walk, locals: seq<Short>, size: byte, count: byte, kind: Kind, flags: byte)
    requires Inert(locals)
    ensures Interpret(w, locals + [ReportSize(size)] + [ReportCount(count)] + [Main(kind, flags)])
            == Some(Declare(w.(size := size, count := count), kind))
  {
    hide Declare;
    InertKeeps(w, locals);
    InterpretAppends(w, locals, [ReportSize(size)]);
    OneItem(w, ReportSize(size));
    NumberOfByte(size);
    var sized := locals + [ReportSize(size)];
    var v := w.(size := size);
    FieldDeclares(v, [], count, kind, flags);
    assert [] + [ReportCount(count)] + [Main(kind, flags)] == [ReportCount(count), Main(kind, flags)];
    InterpretAppends(w, sized, [ReportCount(count), Main(kind, flags)]);
    assert sized + [ReportCount(count), Main(kind, flags)] == sized + [ReportCount(count)] + [Main(kind, flags)];
  }

  // ---------------------------------------------------------------------------
  // The touch screen's descriptor
  // ---------------------------------------------------------------------------

  /** The application collection and the input report's id. */
  function Head(): seq<Short> {
    [Short(0x05, [0x0D]), Short(0x09, [0x04]), Short(0xA1, [0x01]), Short(0x85, [0x08])]
  }

  /** Opens a finger's collection. */
  function FingerOpens(): seq<Short> {
    [Short(0x05, [0x0D]), Short(0x09, [0x22]), Short(0xA1, [0x02])]
  }

  function TipSwitch(): seq<Short> {
    [Short(0x09, [0x42]), Short(0x15, [0x00]), Short(0x25, [0x01])] + [ReportSize(1)] + [ReportCount(1)] + [Main(Input, 0x02)]
  }

  function Padding(): seq<Short> {
    [] + [ReportCount(7)] + [Main(Input, 0x03)]
  }

  function Identifier(): seq<Short> {
    [Short(0x09, [0x51]), Short(0x15, [0x00]), Short(0x26, [0xFF, 0x00])]
    + [ReportSize(8)] + [ReportCount(1)] + [Main(Input, 0x02)]
  }

  function XAndY(): seq<Short> {
    [
      Short(0x05, [0x01]), Short(0x09, [0x30]), Short(0x09, [0x31]), Short(0x15, [0x00]),
      Short(0x27, [0xFF, 0xFF, 0x00, 0x00]), Short(0x35, [0x00]), Short(0x47, [0xFF, 0xFF, 0x00, 0x00]),
      Short(0x65, [0x11]), Short(0x55, [0x0E])
    ]
    + [ReportSize(16)] + [ReportCount(2)] + [Main(Input, 0x02)]
  }

  function WidthAndHeight(): seq<Short> {
    [Short(0x05, [0x0D]), Short(0x09, [0x48]), Short(0x09, [0x49])] + [ReportCount(2)] + [Main(Input, 0x02)]
  }

  function TipPressure(): seq<Short> {
    [
      Short(0x09, [0x30]), Short(0x15, [0x00]), Short(0x26, [0xFF, 0x0F]), Short(0x35, [0x00]),
      Short(0x46, [0xFF, 0x0F]), Short(0x65, [0x00]), Short(0x55, [0x00])
    ]
    + [ReportCount(1)] + [Main(Input, 0x02)]
  }

  function Closes(): seq<Short> {
    [Short(0xC0, [])]
  }

  /** One finger's collection. */
  function Finger(): seq<Short> {
    FingerOpens() + TipSwitch() + Padding() + Identifier() + XAndY() + WidthAndHeight() + TipPressure() + Closes()
  }

  function CountField(): seq<Short> {
    [Short(0x05, [0x0D]), Short(0x09, [0x54]), Short(0x15, [0x00]), Short(0x25, [0x0A])]
    + [ReportSize(8)] + [ReportCount(1)] + [Main(Input, 0x02)]
  }

  function MaximumField(): seq<Short> {
    [Short(0x09, [0x55]), Short(0x15, [0x00]), Short(0x25, [0x0A])]
    + [ReportSize(8)] + [ReportCount(1)] + [Main(Feature, 0x02)]
  }

  function FeatureId(): seq<Short> {
    [Short(0x85, [0x09])]
  }

  /** The contact count, and the feature report that says how many contacts there can be. */
  function Tail(): seq<Short> {
    CountField() + FeatureId() + MaximumField() + Closes()
  }

  function Fingers(n: nat): seq<Short> {
    if n == 0 then [] else Fingers(n - 1) + Finger()
  }

  function Descriptor(n: nat): seq<Short> {
    Head() + Fingers(n) + Tail()
  }

  // ---------------------------------------------------------------------------
  // What the descriptor declares
  // ---------------------------------------------------------------------------

  /** The walk with `more` input bits declared under the current id. */
  function Grown(w: Walk, size: nat, count: nat, more: nat): Walk {
    w.(size := size, count := count, bits := w.bits[(Input, w.id) := BitsOf(w, Input, w.id) + more])
  }

  lemma GrownDeclares(w: Walk, size: nat, count: nat, more: nat, nextSize: nat, nextCount: nat)
    ensures Declare(Grown(w, size, count, more).(size := nextSize, count := nextCount), Input)
            == Grown(w, nextSize, nextCount, more + nextSize * nextCount)
  {
  }

  lemma Then(w: Walk, a: seq<Short>, v: Walk, b: seq<Short>, u: Walk)
    requires Interpret(w, a) == Some(v) && Interpret(v, b) == Some(u)
    ensures Interpret(w, a + b) == Some(u)
  {
    InterpretAppends(w, a, b);
  }

  lemma FingerOpensCollection(w: Walk)
    ensures Interpret(w, FingerOpens()) == Some(w.(depth := w.depth + 1))
  {
    var locals := [Short(0x05, [0x0D]), Short(0x09, [0x22])];
    InertKeeps(w, locals);
    OneItem(w, Short(0xA1, [0x02]));
    assert FingerOpens() == locals + [Short(0xA1, [0x02])];
    InterpretAppends(w, locals, [Short(0xA1, [0x02])]);
  }

  lemma CloseCloses(w: Walk)
    requires w.depth > 0
    ensures Interpret(w, Closes()) == Some(w.(depth := w.depth - 1))
  {
    OneItem(w, Short(0xC0, []));
  }

  /** Where each field of a finger starts, in bits from the finger's first; a finger is 96 bits long. */
  const AT_TIP: nat := 0
  const AT_ID: nat := 8
  const AT_XY: nat := 16
  const AT_SIZE: nat := 48
  const AT_PRESSURE: nat := 80
  const FINGER_BITS: nat := 96

  lemma FieldsAfterTip(w: Walk)
    ensures Interpret(w, TipSwitch()) == Some(Grown(w, 1, 1, 1))
    ensures Interpret(Grown(w, 1, 1, 1), Padding()) == Some(Grown(w, 1, 7, AT_ID))
    ensures Interpret(Grown(w, 1, 7, AT_ID), Identifier()) == Some(Grown(w, 8, 1, AT_XY))
  {
    hide Grown, Declare, Interpret;
    SizedFieldDeclares(w, [Short(0x09, [0x42]), Short(0x15, [0x00]), Short(0x25, [0x01])], 1, 1, Input, 0x02);
    FieldDeclares(Grown(w, 1, 1, 1), [], 7, Input, 0x03);
    SizedFieldDeclares(Grown(w, 1, 7, 8), [Short(0x09, [0x51]), Short(0x15, [0x00]), Short(0x26, [0xFF, 0x00])], 8, 1, Input, 0x02);
    FirstDeclares(w, 1, 1);
    GrownKeepsSize(w, 1, 1, 1);
    GrownDeclares(w, 1, 1, 1, 1, 7);
    GrownDeclares(w, 1, 7, 8, 8, 1);
  }

  lemma FirstDeclares(w: Walk, size: nat, count: nat)
    ensures Declare(w.(size := size, count := count), Input) == Grown(w, size, count, size * count)
  {
  }

  lemma GrownKeepsSize(w: Walk, size: nat, count: nat, more: nat)
    ensures var g := Grown(w, size, count, more);
            g.(size := size) == g && g.size == size && g.depth == w.depth && g.id == w.id
  {
  }

  lemma FieldsAfterId(w: Walk)
    ensures Interpret(Grown(w, 8, 1, AT_XY), XAndY()) == Some(Grown(w, 16, 2, AT_SIZE))
    ensures Interpret(Grown(w, 16, 2, AT_SIZE), WidthAndHeight()) == Some(Grown(w, 16, 2, AT_PRESSURE))
    ensures Interpret(Grown(w, 16, 2, AT_PRESSURE), TipPressure()) == Some(Grown(w, 16, 1, FINGER_BITS))
  {
    hide Grown, Declare, Interpret;
    var at := [
      Short(0x05, [0x01]), Short(0x09, [0x30]), Short(0x09, [0x31]), Short(0x15, [0x00]),
      Short(0x27, [0xFF, 0xFF, 0x00, 0x00]), Short(0x35, [0x00]), Short(0x47, [0xFF, 0xFF, 0x00, 0x00]),
      Short(0x65, [0x11]), Short(0x55, [0x0E])
    ];
    SizedFieldDeclares(Grown(w, 8, 1, AT_XY), at, 16, 2, Input, 0x02);
    FieldDeclares(Grown(w, 16, 2, AT_SIZE), [Short(0x05, [0x0D]), Short(0x09, [0x48]), Short(0x09, [0x49])], 2, Input, 0x02);
    var pressure := [
      Short(0x09, [0x30]), Short(0x15, [0x00]), Short(0x26, [0xFF, 0x0F]), Short(0x35, [0x00]),
      Short(0x46, [0xFF, 0x0F]), Short(0x65, [0x00]), Short(0x55, [0x00])
    ];
    FieldDeclares(Grown(w, 16, 2, AT_PRESSURE), pressure, 1, Input, 0x02);
    GrownDeclares(w, 8, 1, AT_XY, 16, 2);
    GrownKeepsSize(w, 16, 2, AT_SIZE);
    GrownDeclares(w, 16, 2, AT_SIZE, 16, 2);
    GrownKeepsSize(w, 16, 2, AT_PRESSURE);
    GrownDeclares(w, 16, 2, AT_PRESSURE, 16, 1);
  }

  /** A finger is balanced and declares 96 more input bits, wherever it stands. */
  lemma FingerDeclares(w: Walk)
    ensures Interpret(w, Finger()) == Some(Grown(w, 16, 1, FINGER_BITS))
  {
    hide Interpret, Grown, FingerOpens, TipSwitch, Padding, Identifier, XAndY, WidthAndHeight, TipPressure, Closes;
    var o := w.(depth := w.depth + 1);
    FingerOpensCollection(w);
    FieldsAfterTip(o);
    FieldsAfterId(o);
    var a := FingerOpens() + TipSwitch();
    Then(w, FingerOpens(), o, TipSwitch(), Grown(o, 1, 1, 1));
    Then(w, a, Grown(o, 1, 1, 1), Padding(), Grown(o, 1, 7, AT_ID));
    Then(w, a + Padding(), Grown(o, 1, 7, AT_ID), Identifier(), Grown(o, 8, 1, AT_XY));
    var b := a + Padding() + Identifier();
    Then(w, b, Grown(o, 8, 1, AT_XY), XAndY(), Grown(o, 16, 2, AT_SIZE));
    Then(w, b + XAndY(), Grown(o, 16, 2, AT_SIZE), WidthAndHeight(), Grown(o, 16, 2, AT_PRESSURE));
    var c := b + XAndY() + WidthAndHeight();
    Then(w, c, Grown(o, 16, 2, AT_PRESSURE), TipPressure(), Grown(o, 16, 1, FINGER_BITS));
    var end := Grown(o, 16, 1, FINGER_BITS);
    GrownKeepsSize(o, 16, 1, FINGER_BITS);
    CloseCloses(end);
    GrownAtDepth(w, FINGER_BITS);
    Then(w, c + TipPressure(), end, Closes(), end.(depth := w.depth));
  }

  lemma GrownAtDepth(w: Walk, more: nat)
    ensures Grown(w.(depth := w.depth + 1), 16, 1, more).(depth := w.depth) == Grown(w, 16, 1, more)
  {
  }

  lemma GrownTwice(w: Walk, more: nat, again: nat)
    ensures Grown(Grown(w, 16, 1, more), 16, 1, again) == Grown(w, 16, 1, more + again)
  {
  }

  /** n fingers declare 96 * n bits. */
  lemma {:induction false} FingersDeclare(w: Walk, n: nat)
    requires n > 0
    ensures Interpret(w, Fingers(n)) == Some(Grown(w, 16, 1, FINGER_BITS * n))
  {
    hide Finger, Grown, Interpret;
    FingerDeclares(w);
    if n == 1 {
      assert Fingers(1) == Fingers(0) + Finger() == Finger();
    } else {
      FingersDeclare(w, n - 1);
      var v := Grown(w, 16, 1, FINGER_BITS * (n - 1));
      FingerDeclares(v);
      GrownTwice(w, FINGER_BITS * (n - 1), FINGER_BITS);
      Then(w, Fingers(n - 1), v, Finger(), Grown(v, 16, 1, FINGER_BITS));
    }
  }

  lemma HeadOpens()
    ensures Interpret(START, Head()) == Some(Walk(REPORT_ID, 0, 0, 1, map[]))
  {
    var locals, open, id := [Short(0x05, [0x0D]), Short(0x09, [0x04])], Short(0xA1, [0x01]), Short(0x85, [0x08]);
    InertKeeps(START, locals);
    OneItem(START, open);
    var v := START.(depth := 1);
    OneItem(v, id);
    NumberOfByte(0x08);
    Then(START, locals, START, [open], v);
    Then(START, locals + [open], v, [id], v.(id := REPORT_ID));
    assert Head() == locals + [open] + [id];
  }

  lemma TailDeclares(w: Walk)
    requires w.depth > 0
    ensures var c := Declare(w.(size := 8, count := 1), Input);
            Interpret(w, Tail()) == Some(Declare(c.(id := FEATURE_ID), Feature).(depth := w.depth - 1))
  {
    hide Interpret, Declare, Closes;
    var c := Declare(w.(size := 8, count := 1), Input);
    SizedFieldDeclares(w, [Short(0x05, [0x0D]), Short(0x09, [0x54]), Short(0x15, [0x00]), Short(0x25, [0x0A])], 8, 1, Input, 0x02);
    OneItem(c, Short(0x85, [0x09]));
    NumberOfByte(0x09);
    var f := c.(id := FEATURE_ID);
    SizedFieldDeclares(f, [Short(0x09, [0x55]), Short(0x15, [0x00]), Short(0x25, [0x0A])], 8, 1, Feature, 0x02);
    DeclareKeeps(w.(size := 8, count := 1), Input);
    DeclareKeeps(f, Feature);
    var g := Declare(f, Feature);
    CloseCloses(g);
    hide CountField, MaximumField, FeatureId;
    Then(w, CountField(), c, FeatureId(), f);
    Then(w, CountField() + FeatureId(), f, MaximumField(), g);
    Then(w, CountField() + FeatureId() + MaximumField(), g, Closes(), g.(depth := g.depth - 1));
  }

  lemma DeclareKeeps(w: Walk, kind: Kind)
    ensures Declare(w, kind) == w.(bits := Declare(w, kind).bits)
  {
  }

  /**
   * For every number of fingers the descriptor is well formed and balanced, and declares
   * input report 8 of 1 + 12 * n + 1 bytes and feature report 9 of two bytes, and no other.
   */
  lemma DescriptorDeclares(n: nat)
    ensures LayoutOf(Flatten(Descriptor(n)))
            == Some(map[(Input, REPORT_ID) := 1 + CONTACT_LEN * n + 1, (Feature, FEATURE_ID) := 2])
  {
    hide Interpret, WalkFrom, Flatten, Head, Fingers, Tail;
    var within := Walk(REPORT_ID, 0, 0, 1, map[]);
    HeadOpens();
    var w := if n == 0 then within else Grown(within, 16, 1, FINGER_BITS * n);
    if n == 0 {
      NoFingers();
    } else {
      FingersDeclare(within, n);
      Then(START, Head(), within, Fingers(n), w);
    }
    TailDeclares(w);
    var c := Declare(w.(size := 8, count := 1), Input);
    var done := Declare(c.(id := FEATURE_ID), Feature).(depth := 0);
    Then(START, Head() + Fingers(n), w, Tail(), done);
    DescriptorIsWellFormed(n);
    WalkFindsItems(START, Descriptor(n));
    TotalBits(w, n);
    TotalSizes(n);
  }

  lemma TotalBits(w: Walk, n: nat)
    requires w.id == REPORT_ID
    requires w.bits == if n == 0 then map[] else map[(Input, REPORT_ID) := FINGER_BITS * n]
    ensures var c := Declare(w.(size := 8, count := 1), Input);
            Declare(c.(id := FEATURE_ID), Feature).bits
            == map[(Input, REPORT_ID) := FINGER_BITS * n + 8, (Feature, FEATURE_ID) := 8]
  {
  }

  lemma TotalSizes(n: nat)
    ensures var bits := map[(Input, REPORT_ID) := FINGER_BITS * n + 8, (Feature, FEATURE_ID) := 8];
            && Aligned(bits)
            && Sizes(bits) == map[(Input, REPORT_ID) := 1 + CONTACT_LEN * n + 1, (Feature, FEATURE_ID) := 2]
  {
    assert (FINGER_BITS * n + 8) % 8 == 0;
    assert (FINGER_BITS * n + 8) / 8 + 1 == 1 + CONTACT_LEN * n + 1;
  }

  lemma NoFingers()
    ensures Head() + Fingers(0) == Head()
  {
  }

  lemma WellFormedAppends(a: seq<Short>, b: seq<Short>)
    requires WellFormed(a) && WellFormed(b)
    ensures WellFormed(a + b)
  {
  }

  lemma ShortFieldsAreWellFormed()
    ensures WellFormed(FingerOpens()) && WellFormed(TipSwitch()) && WellFormed(Padding()) && WellFormed(Closes())
  {
  }

  lemma MiddleFieldsAreWellFormed()
    ensures WellFormed(Identifier()) && WellFormed(WidthAndHeight())
  {
  }

  lemma XAndYIsWellFormed()
    ensures WellFormed(XAndY())
  {
  }

  lemma PressureIsWellFormed()
    ensures WellFormed(TipPressure())
  {
  }

  lemma FingerIsWellFormed()
    ensures WellFormed(Finger())
  {
    ShortFieldsAreWellFormed();
    MiddleFieldsAreWellFormed();
    XAndYIsWellFormed();
    PressureIsWellFormed();
    hide WellFormed, FingerOpens, TipSwitch, Padding, Identifier, XAndY, WidthAndHeight, TipPressure, Closes;
    var a := FingerOpens() + TipSwitch();
    WellFormedAppends(FingerOpens(), TipSwitch());
    WellFormedAppends(a, Padding());
    WellFormedAppends(a + Padding(), Identifier());
    var b := a + Padding() + Identifier();
    WellFormedAppends(b, XAndY());
    WellFormedAppends(b + XAndY(), WidthAndHeight());
    WellFormedAppends(b + XAndY() + WidthAndHeight(), TipPressure());
    WellFormedAppends(b + XAndY() + WidthAndHeight() + TipPressure(), Closes());
  }

  lemma {:induction false} FingersAreWellFormed(n: nat)
    ensures WellFormed(Fingers(n))
  {
    if n > 0 {
      FingerIsWellFormed();
      hide Finger;
      FingersAreWellFormed(n - 1);
    }
  }

  lemma DescriptorIsWellFormed(n: nat)
    ensures WellFormed(Descriptor(n))
  {
    FingersAreWellFormed(n);
    EndsAreWellFormed();
    hide Fingers, Head, Tail;
  }

  lemma EndsAreWellFormed()
    ensures WellFormed(Head()) && WellFormed(Tail())
  {
    assert WellFormed(CountField()) && WellFormed(FeatureId()) && WellFormed(MaximumField()) && WellFormed(Closes());
    hide CountField, FeatureId, MaximumField, Closes;
  }

  lemma FlattenNothing()
    ensures Flatten(Fingers(0)) == []
  {
  }

  lemma OneMoreFinger(n: nat)
    ensures Flatten(Fingers(n + 1)) == Flatten(Fingers(n)) + Flatten(Finger())
  {
    FlattenAppends(Fingers(n), Finger());
  }

  lemma DescriptorBytes(n: nat)
    ensures Flatten(Descriptor(n)) == Flatten(Head()) + Flatten(Fingers(n)) + Flatten(Tail())
  {
    FlattenAppends(Head(), Fingers(n));
    FlattenAppends(Head() + Fingers(n), Tail());
  }

  method CopyAt(out: array<byte>, at: nat, bytes: seq<byte>)
    requires at + |bytes| <= out.Length
    modifies out
    ensures out[..at + |bytes|] == old(out[..at]) + bytes
    ensures forall k :: at + |bytes| <= k < out.Length ==> out[k] == old(out[k])
  {
    var i := 0;
    while i < |bytes|
      invariant i <= |bytes|
      invariant forall k :: at + i <= k < out.Length ==> out[k] == old(out[k])
      invariant out[..at + i] == old(out[..at]) + bytes[..i]
    {
      out[at + i] := bytes[i];
      i := i + 1;
    }
  }

  /** The shipped descriptor is the one for ten contacts. */
  method BuildDescriptor() returns (descriptor: seq<byte>)
    ensures descriptor == Flatten(Descriptor(MAX_CONTACTS))
  {
    hide Flatten, Head, Finger, Fingers, Tail, Descriptor, Repeated;
    var head, contact, tail := Flatten(Head()), Flatten(Finger()), Flatten(Tail());
    var out := new byte[|head| + |contact| * MAX_CONTACTS + |tail|];
    CopyAt(out, 0, head);
    var at := CopyFingers(out, |head|, contact);
    CopyAt(out, at, tail);
    descriptor := out[..];
    FingersAreRepeated(MAX_CONTACTS);
    DescriptorBytes(MAX_CONTACTS);
  }

  function Repeated(bytes: seq<byte>, n: nat): seq<byte> {
    if n == 0 then [] else Repeated(bytes, n - 1) + bytes
  }

  lemma {:induction false} FingersAreRepeated(n: nat)
    ensures Flatten(Fingers(n)) == Repeated(Flatten(Finger()), n)
  {
    FlattenNothing();
    hide Flatten, Finger;
    if n > 0 {
      FingersAreRepeated(n - 1);
      OneMoreFinger(n - 1);
    }
  }

  method CopyFingers(out: array<byte>, start: nat, contact: seq<byte>) returns (at: nat)
    requires start + |contact| * MAX_CONTACTS <= out.Length
    modifies out
    ensures at == start + |contact| * MAX_CONTACTS
    ensures out[..at] == old(out[..start]) + Repeated(contact, MAX_CONTACTS)
  {
    at := start;
    var slot := 0;
    while slot < MAX_CONTACTS
      invariant slot <= MAX_CONTACTS && at == start + |contact| * slot
      invariant out[..at] == old(out[..start]) + Repeated(contact, slot)
    {
      Distributes(|contact|, slot);
      CopyAt(out, at, contact);
      assert out[..at + |contact|] == old(out[..start]) + (Repeated(contact, slot) + contact);
      at := at + |contact|;
      slot := slot + 1;
    }
  }

  lemma Distributes(length: nat, slot: nat)
    requires slot < MAX_CONTACTS
    ensures length * (slot + 1) == length * slot + length <= length * MAX_CONTACTS
  {
  }

  // ---------------------------------------------------------------------------
  // The input report
  // ---------------------------------------------------------------------------

  const PRESSURE_MAX: nat := 4095

  /** A finger that is down never reports zero pressure. */
  function PressureOf(c: Contact): u16 {
    Rescale.StaysInRange(c.pressure, PRESSURE_MAX);
    if !c.down then 0
    else if Rescale.Scaled(c.pressure, PRESSURE_MAX) < 1 then 1
    else Rescale.Scaled(c.pressure, PRESSURE_MAX)
  }

  function ContactBytes(c: Contact): (b: seq<byte>)
    ensures |b| == CONTACT_LEN
  {
    [if c.down then 1 else 0, c.id] + Le16(c.x) + Le16(c.y) + Le16(c.width) + Le16(c.height) + Le16(PressureOf(c))
  }

  function Blocks(contacts: seq<Contact>): (b: seq<byte>)
    ensures |b| == CONTACT_LEN * |contacts|
    decreases |contacts|
  {
    if contacts == [] then [] else Blocks(DropLast(contacts)) + ContactBytes(Last(contacts))
  }

  /** The contacts a report has room for. */
  function Fitting(contacts: seq<Contact>): (f: seq<Contact>)
    ensures |f| <= MAX_CONTACTS
  {
    if |contacts| <= MAX_CONTACTS then contacts else contacts[..MAX_CONTACTS]
  }

  function InputReport(contacts: seq<Contact>): (r: seq<byte>)
    ensures |r| == INPUT_LEN
  {
    var f := Fitting(contacts);
    [REPORT_ID] + Blocks(f) + Zeros(CONTACT_LEN * (MAX_CONTACTS - |f|)) + [|f|]
  }

  method WriteContact(report: array<byte>, at: nat, c: Contact)
    requires at + CONTACT_LEN <= report.Length
    modifies report
    ensures report[..at + CONTACT_LEN] == old(report[..at]) + ContactBytes(c)
    ensures forall k :: at + CONTACT_LEN <= k < report.Length ==> report[k] == old(report[k])
  {
    hide PressureOf, Le16;
    report[at] := if c.down then 1 else 0;
    report[at + 1] := c.id;
    assert report[..at + 2] == old(report[..at]) + [if c.down then 1 else 0, c.id];
    CopyAt(report, at + 2, Le16(c.x));
    CopyAt(report, at + 4, Le16(c.y));
    CopyAt(report, at + 6, Le16(c.width));
    CopyAt(report, at + 8, Le16(c.height));
    CopyAt(report, at + 10, Le16(PressureOf(c)));
  }

  method WriteContacts(report: array<byte>, contacts: seq<Contact>) returns (count: byte)
    requires report.Length == INPUT_LEN && |contacts| <= MAX_CONTACTS
    modifies report
    ensures count == |contacts|
    ensures report[..1 + CONTACT_LEN * |contacts|] == old(report[..1]) + Blocks(contacts)
    ensures forall k :: 1 + CONTACT_LEN * |contacts| <= k < INPUT_LEN ==> report[k] == old(report[k])
  {
    hide ContactBytes;
    count := 0;
    for slot := 0 to |contacts|
      invariant count == slot
      invariant report[..1 + CONTACT_LEN * slot] == old(report[..1]) + Blocks(contacts[..slot])
      invariant forall k :: 1 + CONTACT_LEN * slot <= k < INPUT_LEN ==> report[k] == old(report[k])
    {
      assert DropLast(contacts[..slot + 1]) == contacts[..slot];
      WriteContact(report, 1 + slot * CONTACT_LEN, contacts[slot]);
      count := count + 1;
    }
    assert contacts[..|contacts|] == contacts;
  }

  method Encode(contacts: seq<Contact>) returns (bytes: seq<byte>)
    ensures bytes == InputReport(contacts)
  {
    hide Blocks;
    var report := new byte[INPUT_LEN](_ => 0);
    report[0] := REPORT_ID;
    var f := Fitting(contacts);
    var at := 1 + CONTACT_LEN * |f|;
    var count := WriteContacts(report, f);
    report[INPUT_LEN - 1] := count;
    bytes := report[..];
    assert bytes[..at] == [REPORT_ID] + Blocks(f) && bytes[INPUT_LEN - 1..] == [|f|];
    assert bytes[at..INPUT_LEN - 1] == Zeros(CONTACT_LEN * (MAX_CONTACTS - |f|));
    assert bytes == bytes[..at] + bytes[at..INPUT_LEN - 1] + bytes[INPUT_LEN - 1..];
  }

  // ---------------------------------------------------------------------------
  // Reading a report through its descriptor
  // ---------------------------------------------------------------------------

  /** A field of one, eight or sixteen bits that starts `bit` bits after the id byte, on a byte boundary. */
  function Field(report: seq<byte>, bit: nat, size: nat): nat
    requires size > 0 && 1 + bit / 8 + (size + 7) / 8 <= |report|
  {
    var at := 1 + bit / 8;
    if size == 1 then report[at] as nat % 2 else if size <= 8 then report[at] else Le16At(report, at)
  }

  /** What a host reads in a finger's slot. */
  function ReadContact(report: seq<byte>, slot: nat): Contact
    requires |report| == INPUT_LEN && slot < MAX_CONTACTS
  {
    var at := FINGER_BITS * slot;
    Contact(Field(report, at + AT_ID, 8), Field(report, at + AT_XY, 16), Field(report, at + AT_XY + 16, 16),
            Field(report, at + AT_PRESSURE, 16), Field(report, at + AT_SIZE, 16), Field(report, at + AT_SIZE + 16, 16),
            Field(report, at + AT_TIP, 1) == 1)
  }

  lemma {:induction false} BlockAt(contacts: seq<Contact>, slot: nat)
    requires slot < |contacts|
    ensures Blocks(contacts)[CONTACT_LEN * slot..CONTACT_LEN * (slot + 1)] == ContactBytes(contacts[slot])
    decreases |contacts|
  {
    hide ContactBytes;
    if slot < |contacts| - 1 {
      BlockAt(DropLast(contacts), slot);
    }
  }

  lemma ReadOneContact(report: seq<byte>, slot: nat, c: Contact)
    requires |report| == INPUT_LEN && slot < MAX_CONTACTS
    requires report[1 + CONTACT_LEN * slot..1 + CONTACT_LEN * (slot + 1)] == ContactBytes(c)
    ensures ReadContact(report, slot) == c.(pressure := PressureOf(c))
  {
    hide PressureOf, Le16, Le16At;
    var at := 1 + CONTACT_LEN * slot;
    var b := ContactBytes(c);
    assert b[2..4] == Le16(c.x) && b[4..6] == Le16(c.y) && b[6..8] == Le16(c.width);
    assert b[8..10] == Le16(c.height) && b[10..12] == Le16(PressureOf(c));
    assert report[at] == b[0] && report[at + 1] == b[1];
    WordAt(report, at, b, 2, c.x);
    WordAt(report, at, b, 4, c.y);
    WordAt(report, at, b, 6, c.width);
    WordAt(report, at, b, 8, c.height);
    WordAt(report, at, b, 10, PressureOf(c));
  }

  lemma WordAt(report: seq<byte>, at: nat, b: seq<byte>, k: nat, w: u16)
    requires at + CONTACT_LEN <= |report| && |b| == CONTACT_LEN && report[at..at + CONTACT_LEN] == b
    requires k + 2 <= CONTACT_LEN && b[k..k + 2] == Le16(w)
    ensures Le16At(report, at + k) == w
  {
    hide Le16, Le16At;
    var r := report[at..at + CONTACT_LEN];
    assert r[k] == report[at + k] && r[k + 1] == report[at + k + 1];
    assert report[at + k..at + k + 2] == [b[k], b[k + 1]] == b[k..k + 2];
    Le16RoundTrip(w, report, at + k);
  }

  /**
   * Read at the offsets the descriptor declares, a report gives every contact that fits
   * back in order with its pressure scaled, leaves the other slots blank, and tells their number.
   */
  lemma ReportReadsBack(contacts: seq<Contact>, slot: nat)
    requires slot < MAX_CONTACTS
    ensures var r := InputReport(contacts);
            && Field(r, FINGER_BITS * MAX_CONTACTS, 8) == |Fitting(contacts)|
            && ReadContact(r, slot) == if slot < |contacts| then contacts[slot].(pressure := PressureOf(contacts[slot]))
                                       else Contact(0, 0, 0, 0, 0, 0, false)
  {
    hide ContactBytes, ReadContact;
    var f, r := Fitting(contacts), InputReport(contacts);
    if slot < |contacts| {
      BlockAt(f, slot);
      var at := CONTACT_LEN * slot;
      assert r[1..1 + |Blocks(f)|] == Blocks(f);
      assert r[1 + at..1 + at + CONTACT_LEN] == Blocks(f)[at..at + CONTACT_LEN];
      ReadOneContact(r, slot, contacts[slot]);
    } else {
      ReadBlankSlot(r, slot);
    }
  }

  lemma ReadBlankSlot(report: seq<byte>, slot: nat)
    requires |report| == INPUT_LEN && slot < MAX_CONTACTS
    requires forall k :: 1 + CONTACT_LEN * slot <= k < 1 + CONTACT_LEN * (slot + 1) ==> report[k] == 0
    ensures ReadContact(report, slot) == Contact(0, 0, 0, 0, 0, 0, false)
  {
  }

  /** A finger's twelve bytes: tip, id, and five little-endian words, pressure on the 1..=4095 scale while down. */
  predicate IsContact(b: seq<byte>, c: Contact)
    requires |b| == 12
  {
    && b[0] == (if c.down then 1 else 0) && b[1] == c.id
    && b[2] as int + 0x100 * b[3] as int == c.x && b[4] as int + 0x100 * b[5] as int == c.y
    && b[6] as int + 0x100 * b[7] as int == c.width && b[8] as int + 0x100 * b[9] as int == c.height
    && var p := b[10] as int + 0x100 * b[11] as int;
       if !c.down then p == 0
       else if 4095 * c.pressure < 65535 then p == 1
       else 65535 * p <= 4095 * c.pressure < 65535 * p + 65535
  }

  lemma ContactBytesRead(c: Contact)
    ensures IsContact(ContactBytes(c), c)
  {
    Le16Weighs(c.x);
    Le16Weighs(c.y);
    Le16Weighs(c.width);
    Le16Weighs(c.height);
    Le16Weighs(PressureOf(c));
    hide Le16, Rescale.Scaled;
  }

  /** A report byte by byte: id, the first ten contacts in order, blank slots, and their number last. */
  lemma ReportBytes(contacts: seq<Contact>, slot: nat)
    requires slot < 10
    ensures var r, n := InputReport(contacts), if |contacts| < 10 then |contacts| else 10;
            && |r| == 122 && r[0] == 0x08 && r[121] == n
            && (slot < n ==> IsContact(r[1 + 12 * slot..13 + 12 * slot], contacts[slot]))
            && (slot >= n ==> r[1 + 12 * slot..13 + 12 * slot] == Zeros(12))
  {
    hide ContactBytes, IsContact;
    var f, r := Fitting(contacts), InputReport(contacts);
    if slot < |f| {
      BlockAt(f, slot);
      assert r[1..1 + |Blocks(f)|] == Blocks(f);
      assert r[1 + 12 * slot..13 + 12 * slot] == Blocks(f)[12 * slot..12 * slot + 12];
      ContactBytesRead(contacts[slot]);
    }
  }

  /** The report is exactly as long as its descriptor declares. */
  lemma ReportHasDeclaredSize(contacts: seq<Contact>)
    ensures var layout := LayoutOf(Flatten(Descriptor(MAX_CONTACTS)));
            layout.Some? && (Input, REPORT_ID) in layout.value && layout.value[(Input, REPORT_ID)] == |InputReport(contacts)|
  {
    hide LayoutOf, Flatten, Descriptor, InputReport;
    DescriptorDeclares(MAX_CONTACTS);
  }

  /** A host sees pressure exactly on the fingers that are down. */
  lemma PressureMeansDown(c: Contact)
    ensures PressureOf(c) > 0 <==> c.down
    ensures PressureOf(c) <= PRESSURE_MAX
  {
    Rescale.StaysInRange(c.pressure, PRESSURE_MAX);
  }

  /** The input bits declared by the items so far, which is where the next field starts. */
  predicate StartsAt(items: seq<Short>, bit: nat) {
    var w := Interpret(START, items);
    w.Some? && w.value.id == REPORT_ID && BitsOf(w.value, Input, REPORT_ID) == bit
  }

  /** The items before a finger's own fields. */
  function UpToFinger(slot: nat): seq<Short> {
    Head() + Fingers(slot) + FingerOpens()
  }

  lemma UpToFingerOpens(slot: nat) returns (w: Walk)
    ensures Interpret(START, UpToFinger(slot)) == Some(w)
    ensures w.id == REPORT_ID && BitsOf(w, Input, REPORT_ID) == FINGER_BITS * slot
  {
    hide Interpret, Head, Fingers, FingerOpens;
    var within := Walk(REPORT_ID, 0, 0, 1, map[]);
    HeadOpens();
    var v := if slot == 0 then within else Grown(within, 16, 1, FINGER_BITS * slot);
    if slot == 0 {
      NoFingers();
    } else {
      FingersDeclare(within, slot);
      Then(START, Head(), within, Fingers(slot), v);
    }
    FingerOpensCollection(v);
    w := v.(depth := v.depth + 1);
    Then(START, Head() + Fingers(slot), v, FingerOpens(), w);
  }

  lemma GrownStarts(w: Walk, size: nat, count: nat, more: nat)
    ensures var g := Grown(w, size, count, more);
            g.id == w.id && BitsOf(g, Input, w.id) == BitsOf(w, Input, w.id) + more
  {
  }

  /** The offsets a report is read at are the ones its descriptor gives each field of each finger. */
  lemma FieldsStartWhereRead(slot: nat)
    ensures var u, at := UpToFinger(slot), FINGER_BITS * slot;
            && StartsAt(u, at + AT_TIP)
            && StartsAt(u + TipSwitch() + Padding(), at + AT_ID)
            && StartsAt(u + TipSwitch() + Padding() + Identifier(), at + AT_XY)
            && StartsAt(u + TipSwitch() + Padding() + Identifier() + XAndY(), at + AT_SIZE)
            && StartsAt(u + TipSwitch() + Padding() + Identifier() + XAndY() + WidthAndHeight(), at + AT_PRESSURE)
  {
    var w := UpToFingerOpens(slot);
    FieldsAfterTip(w);
    FieldsAfterId(w);
    hide Interpret, Grown, UpToFinger, TipSwitch, Padding, Identifier, XAndY, WidthAndHeight, TipPressure;
    var u := UpToFinger(slot);
    Then(START, u, w, TipSwitch(), Grown(w, 1, 1, 1));
    Then(START, u + TipSwitch(), Grown(w, 1, 1, 1), Padding(), Grown(w, 1, 7, AT_ID));
    var i := u + TipSwitch() + Padding();
    Then(START, i, Grown(w, 1, 7, AT_ID), Identifier(), Grown(w, 8, 1, AT_XY));
    Then(START, i + Identifier(), Grown(w, 8, 1, AT_XY), XAndY(), Grown(w, 16, 2, AT_SIZE));
    Then(START, i + Identifier() + XAndY(), Grown(w, 16, 2, AT_SIZE), WidthAndHeight(), Grown(w, 16, 2, AT_PRESSURE));
    GrownStarts(w, 1, 7, AT_ID);
    GrownStarts(w, 8, 1, AT_XY);
    GrownStarts(w, 16, 2, AT_SIZE);
    GrownStarts(w, 16, 2, AT_PRESSURE);
  }
}
