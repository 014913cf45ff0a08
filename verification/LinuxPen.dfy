/**
 * The uinput stylus: each sample becomes tool, touch and barrel transitions against the
 * sample before it. A consumer replays the events and holds the keys down and the axes.
 */
module LinuxPen {
  import opened Common
  import opened Bytes
  import opened Uinput
  import Rescale

  type Degrees = x: int | -128 <= x < 128

  datatype PenState = PenState(
    x: u16, y: u16, pressure: u16, tiltX: Degrees, tiltY: Degrees,
    down: bool, barrel: bool, eraser: bool, inRange: bool)

  const DEFAULT := PenState(0, 0, 0, 0, 0, false, false, false, false)

  function Tool(s: PenState): nat {
    if s.eraser then BTN_TOOL_RUBBER else BTN_TOOL_PEN
  }

  predicate Present(s: PenState) {
    s.inRange || s.down
  }

  function KeyIf(changed: bool, code: nat, value: int): seq<Event> {
    if changed then [Key(code, value)] else []
  }

  function Was(last: Option<PenState>): PenState {
    if last.Some? then last.value else DEFAULT
  }

  predicate WasPresent(last: Option<PenState>) {
    last.Some? && Present(last.value)
  }

  predicate Swapped(last: Option<PenState>, s: PenState) {
    Tool(Was(last)) != Tool(s)
  }

  function ToolEvents(last: Option<PenState>, s: PenState): seq<Event> {
    KeyIf(WasPresent(last) && Swapped(last, s), Tool(Was(last)), Flag(false))
    + KeyIf(Present(s) && (!WasPresent(last) || Swapped(last, s)), Tool(s), Flag(true))
  }

  function OtherKeyEvents(last: Option<PenState>, s: PenState): seq<Event> {
    KeyIf(s.down != Was(last).down, BTN_TOUCH, Flag(s.down))
    + KeyIf(s.barrel != Was(last).barrel, BTN_STYLUS, Flag(s.barrel))
    + KeyIf(!Present(s) && WasPresent(last), Tool(s), Flag(false))
  }

  /** A sample's events against the last one that was written whole. */
  function PenEvents(last: Option<PenState>, s: PenState): seq<Event> {
    ToolEvents(last, s) + AxisEvents(s) + OtherKeyEvents(last, s) + [Syn]
  }

  function Pressure(s: PenState): int {
    if s.down then Rescale.TabletPressure(s.pressure) else 0
  }

  function Distance(s: PenState): int {
    if s.down then 0 else 10
  }

  function AxisEvents(s: PenState): seq<Event> {
    [
      Abs(ABS_X, s.x),
      Abs(ABS_Y, s.y),
      Abs(ABS_PRESSURE, Pressure(s)),
      Abs(ABS_DISTANCE, Distance(s)),
      Abs(ABS_TILT_X, s.tiltX),
      Abs(ABS_TILT_Y, s.tiltY)
    ]
  }

  // ---------------------------------------------------------------------------
  // The consumer
  // ---------------------------------------------------------------------------

  datatype Frame = Frame(keys: set<nat>, axes: map<nat, int>)

  /** A consumer collects keys and axes and shows them only at a frame end. */
  datatype Consumer = Consumer(keys: set<nat>, axes: map<nat, int>, shown: Frame)

  const IDLE := Consumer({}, map[], Frame({}, map[]))

  function Apply(c: Consumer, e: Event): Consumer {
    match e
    case Syn => c.(shown := Frame(c.keys, c.axes))
    case Key(code, value) => c.(keys := if value != 0 then c.keys + {code} else c.keys - {code})
    case Abs(code, value) => c.(axes := c.axes[code := value])
  }

  function Replay(c: Consumer, events: seq<Event>): Consumer
    decreases |events|
  {
    if events == [] then c else Apply(Replay(c, DropLast(events)), Last(events))
  }

  lemma {:induction false} ReplayAppends(c: Consumer, a: seq<Event>, b: seq<Event>)
    ensures Replay(c, a + b) == Replay(Replay(c, a), b)
    decreases |b|
  {
    if b == [] {
      assert a + b == a;
    } else {
      ReplayAppends(c, a, DropLast(b));
      assert DropLast(a + b) == a + DropLast(b);
    }
  }

  lemma ReplayOne(c: Consumer, e: Event)
    ensures Replay(c, [e]) == Apply(c, e)
  {
    assert DropLast([e]) == [];
  }

  // ---------------------------------------------------------------------------
  // What one sample means
  // ---------------------------------------------------------------------------

  /**
   * The keys that should be down after a sample, by the kernel's own codes: the eraser or the
   * pen while in range or touching, the touch key and the barrel button.
   */
  function KeysOf(s: PenState): set<nat> {
    (if s.inRange || s.down then {if s.eraser then 0x141 else 0x140} else {})
    + (if s.down then {0x14a} else {})
    + (if s.barrel then {0x14b} else {})
  }

  /** The axes that should be shown after a sample: position, pressure on the 0..=8191 scale, distance and tilt. */
  predicate Mirrors(axes: map<nat, int>, s: PenState) {
    && axes.Keys == {0x00, 0x01, 0x18, 0x19, 0x1a, 0x1b}
    && axes[0x00] == s.x && axes[0x01] == s.y
    && (if s.down then 65535 * axes[0x18] <= 8191 * s.pressure < 65535 * axes[0x18] + 65535 else axes[0x18] == 0)
    && axes[0x19] == (if s.down then 0 else 10)
    && axes[0x1a] == s.tiltX && axes[0x1b] == s.tiltY
  }

  function KeysOfLast(last: Option<PenState>): set<nat> {
    match last
    case None => {}
    case Some(s) => KeysOf(s)
  }

  function AxesOf(s: PenState): map<nat, int> {
    map[ABS_X := s.x, ABS_Y := s.y, ABS_PRESSURE := Pressure(s), ABS_DISTANCE := Distance(s),
        ABS_TILT_X := s.tiltX, ABS_TILT_Y := s.tiltY]
  }

  lemma AxesMirror(s: PenState)
    ensures Mirrors(AxesOf(s), s)
  {
  }

  lemma ThreeAxes(c: Consumer, a: nat, va: int, b: nat, vb: int, d: nat, vd: int)
    ensures Replay(c, [Abs(a, va), Abs(b, vb), Abs(d, vd)]) == c.(axes := c.axes[a := va][b := vb][d := vd])
  {
    assert DropLast([Abs(a, va), Abs(b, vb), Abs(d, vd)]) == [Abs(a, va), Abs(b, vb)];
    assert DropLast([Abs(a, va), Abs(b, vb)]) == [Abs(a, va)];
    ReplayOne(c, Abs(a, va));
  }

  lemma AxesShow(c: Consumer, s: PenState)
    ensures Replay(c, AxisEvents(s)) == c.(axes := c.axes + AxesOf(s))
  {
    hide Pressure, Distance, Replay, Apply;
    var front := [Abs(ABS_X, s.x), Abs(ABS_Y, s.y), Abs(ABS_PRESSURE, Pressure(s))];
    var back := [Abs(ABS_DISTANCE, Distance(s)), Abs(ABS_TILT_X, s.tiltX), Abs(ABS_TILT_Y, s.tiltY)];
    assert AxisEvents(s) == front + back;
    ReplayAppends(c, front, back);
    ThreeAxes(c, ABS_X, s.x, ABS_Y, s.y, ABS_PRESSURE, Pressure(s));
    var mid := Replay(c, front);
    ThreeAxes(mid, ABS_DISTANCE, Distance(s), ABS_TILT_X, s.tiltX, ABS_TILT_Y, s.tiltY);
    assert mid.axes[ABS_DISTANCE := Distance(s)][ABS_TILT_X := s.tiltX][ABS_TILT_Y := s.tiltY] == c.axes + AxesOf(s);
  }

  /** At most one key event changes at most one key. */
  function KeyStep(keys: set<nat>, fires: bool, code: nat, on: bool): set<nat> {
    if !fires then keys else if on then keys + {code} else keys - {code}
  }

  lemma OptionalKey(c: Consumer, sofar: seq<Event>, fires: bool, code: nat, on: bool)
    ensures var d := Replay(c, sofar);
            Replay(c, sofar + KeyIf(fires, code, Flag(on))) == d.(keys := KeyStep(d.keys, fires, code, on))
  {
    ReplayAppends(c, sofar, KeyIf(fires, code, Flag(on)));
    ReplayOne(Replay(c, sofar), Key(code, Flag(on)));
  }

  function KeysAfterTool(keys: set<nat>, last: Option<PenState>, s: PenState): set<nat> {
    var k := KeyStep(keys, WasPresent(last) && Swapped(last, s), Tool(Was(last)), false);
    KeyStep(k, Present(s) && (!WasPresent(last) || Swapped(last, s)), Tool(s), true)
  }

  function KeysAfterOthers(keys: set<nat>, last: Option<PenState>, s: PenState): set<nat> {
    var touch := KeyStep(keys, s.down != Was(last).down, BTN_TOUCH, s.down);
    var barrel := KeyStep(touch, s.barrel != Was(last).barrel, BTN_STYLUS, s.barrel);
    KeyStep(barrel, !Present(s) && WasPresent(last), Tool(s), false)
  }

  /** The keys a whole sample leaves, as the five transitions make them. */
  function KeysAfter(keys: set<nat>, last: Option<PenState>, s: PenState): set<nat> {
    KeysAfterOthers(KeysAfterTool(keys, last, s), last, s)
  }

  lemma ToolsShow(c: Consumer, last: Option<PenState>, s: PenState)
    ensures Replay(c, ToolEvents(last, s)) == c.(keys := KeysAfterTool(c.keys, last, s))
  {
    var e := KeyIf(WasPresent(last) && Swapped(last, s), Tool(Was(last)), Flag(false));
    assert [] + e == e;
    OptionalKey(c, [], WasPresent(last) && Swapped(last, s), Tool(Was(last)), false);
    OptionalKey(c, e, Present(s) && (!WasPresent(last) || Swapped(last, s)), Tool(s), true);
    hide Swapped, WasPresent, Present, Tool, KeyIf, Flag, KeyStep;
  }

  lemma OtherKeysShow(c: Consumer, last: Option<PenState>, s: PenState)
    ensures Replay(c, OtherKeyEvents(last, s)) == c.(keys := KeysAfterOthers(c.keys, last, s))
  {
    var e1 := KeyIf(s.down != Was(last).down, BTN_TOUCH, Flag(s.down));
    var e2 := e1 + KeyIf(s.barrel != Was(last).barrel, BTN_STYLUS, Flag(s.barrel));
    assert [] + e1 == e1;
    OptionalKey(c, [], s.down != Was(last).down, BTN_TOUCH, s.down);
    OptionalKey(c, e1, s.barrel != Was(last).barrel, BTN_STYLUS, s.barrel);
    OptionalKey(c, e2, !Present(s) && WasPresent(last), Tool(s), false);
    hide WasPresent, Present, Tool, KeyIf, Flag, KeyStep;
  }

  lemma SampleShows(c: Consumer, last: Option<PenState>, s: PenState)
    ensures var keys, axes := KeysAfter(c.keys, last, s), c.axes + AxesOf(s);
            Replay(c, PenEvents(last, s)) == Consumer(keys, axes, Frame(keys, axes))
  {
    hide ToolEvents, AxisEvents, OtherKeyEvents, AxesOf, KeysAfterTool, KeysAfterOthers, Replay;
    var e1 := ToolEvents(last, s);
    var e2 := e1 + AxisEvents(s);
    var e3 := e2 + OtherKeyEvents(last, s);
    ToolsShow(c, last, s);
    ReplayAppends(c, e1, AxisEvents(s));
    AxesShow(Replay(c, e1), s);
    ReplayAppends(c, e2, OtherKeyEvents(last, s));
    OtherKeysShow(Replay(c, e2), last, s);
    ReplayAppends(c, e3, [Syn]);
    ReplayOne(Replay(c, e3), Syn);
  }

  /** From keys in step with the last sample, a new sample leaves exactly its own keys, tool swaps included. */
  lemma KeysFollowSample(last: Option<PenState>, s: PenState)
    ensures KeysAfter(KeysOfLast(last), last, s) == KeysOf(s)
  {
  }

  // ---------------------------------------------------------------------------
  // Whole runs, with a limit on the writes of each call
  // ---------------------------------------------------------------------------

  datatype Pen = Pen(last: Option<PenState>, log: seq<Event>, ok: bool)

  datatype Call = Call(state: PenState, writes: nat)

  /** A sample is remembered only when all its events were written. */
  function Step(p: Pen, call: Call): Pen {
    var events := PenEvents(p.last, call.state);
    var taken := Accepted(events, call.writes);
    if |taken| == |events| then Pen(Some(call.state), p.log + taken, true) else Pen(p.last, p.log + taken, false)
  }

  function Run(calls: seq<Call>): Pen
    decreases |calls|
  {
    if calls == [] then Pen(None, [], true) else Step(Run(DropLast(calls)), Last(calls))
  }

  // ---------------------------------------------------------------------------
  // Samples cut off by a failed write
  // ---------------------------------------------------------------------------

  /** The sample lifts or puts down a tool, which it writes first. */
  predicate ToolMoves(last: Option<PenState>, s: PenState) {
    (WasPresent(last) && Swapped(last, s)) || (Present(s) && !WasPresent(last))
  }

  /** The sample moves another key, which it writes after the six axes. */
  predicate KeyMoves(last: Option<PenState>, s: PenState) {
    s.down != Was(last).down || s.barrel != Was(last).barrel || (!Present(s) && WasPresent(last))
  }

  /** How many writes of a sample come before its first key. */
  function WritesBeforeKeys(last: Option<PenState>, s: PenState): nat {
    if ToolMoves(last, s) then 0 else if KeyMoves(last, s) then 6 else 7
  }

  /** The call was written whole, or cut off before its first key. */
  predicate Quiet(last: Option<PenState>, call: Call) {
    call.writes >= |PenEvents(last, call.state)| || call.writes <= WritesBeforeKeys(last, call.state)
  }

  lemma PartsThatMove(last: Option<PenState>, s: PenState)
    ensures ToolEvents(last, s) != [] <==> ToolMoves(last, s)
    ensures OtherKeyEvents(last, s) != [] <==> KeyMoves(last, s)
  {
    hide Flag;
  }

  /** No key event but one with this value for the code. */
  predicate OnlyKey(events: seq<Event>, code: nat, value: int) {
    forall i :: 0 <= i < |events| && events[i].Key? && events[i].code == code ==> events[i].value == value
  }

  predicate NoKeys(events: seq<Event>) {
    forall i :: 0 <= i < |events| ==> !events[i].Key?
  }

  lemma {:induction false} NoKeysKeep(c: Consumer, events: seq<Event>)
    requires NoKeys(events)
    ensures Replay(c, events).keys == c.keys
    decreases |events|
  {
    if events != [] {
      NoKeysKeep(c, DropLast(events));
    }
  }

  /** A key written once, or always to the same value, ends up there. */
  lemma {:induction false} KeySettles(c: Consumer, events: seq<Event>, i: nat)
    requires i < |events| && events[i].Key? && OnlyKey(events, events[i].code, events[i].value)
    ensures events[i].code in Replay(c, events).keys <==> events[i].value != 0
    decreases |events|
  {
    if i < |events| - 1 {
      KeySettles(c, DropLast(events), i);
    }
  }

  lemma OnlyKeyAppends(a: seq<Event>, b: seq<Event>, code: nat, value: int)
    requires OnlyKey(a, code, value) && OnlyKey(b, code, value)
    ensures OnlyKey(a + b, code, value)
  {
  }

  /** The event moves a key, and no other of these events has its code. */
  predicate Moves(e: Event, events: seq<Event>, keys: set<nat>) {
    e.Key? && OnlyKey(events, e.code, e.value) && (e.code in keys <==> e.value == 0)
  }

  lemma FirstToolMoves(last: Option<PenState>, s: PenState)
    requires ToolMoves(last, s)
    ensures var t := ToolEvents(last, s);
            t != [] && Moves(t[0], t, KeysOfLast(last)) && Moves(t[0], OtherKeyEvents(last, s), KeysOfLast(last))
  {
  }

  lemma FirstOtherMoves(last: Option<PenState>, s: PenState)
    requires !ToolMoves(last, s) && KeyMoves(last, s)
    ensures var o := OtherKeyEvents(last, s);
            o != [] && ToolEvents(last, s) == [] && Moves(o[0], o, KeysOfLast(last))
  {
  }

  lemma MovesInWhole(first: Event, last: Option<PenState>, s: PenState)
    requires Moves(first, ToolEvents(last, s), KeysOfLast(last)) && Moves(first, OtherKeyEvents(last, s), KeysOfLast(last))
    ensures Moves(first, PenEvents(last, s), KeysOfLast(last))
  {
    var t, o := ToolEvents(last, s), OtherKeyEvents(last, s);
    assert OnlyKey(AxisEvents(s), first.code, first.value) && OnlyKey([Syn], first.code, first.value);
    hide ToolEvents, OtherKeyEvents, AxisEvents, OnlyKey, KeysOfLast;
    OnlyKeyAppends(t, AxisEvents(s), first.code, first.value);
    OnlyKeyAppends(t + AxisEvents(s), o, first.code, first.value);
    OnlyKeyAppends(t + AxisEvents(s) + o, [Syn], first.code, first.value);
  }

  /** The first key event of a sample, whose code the sample writes no other way, moves a key. */
  lemma FirstKeyMoves(last: Option<PenState>, s: PenState)
    requires ToolMoves(last, s) || KeyMoves(last, s)
    ensures var k, e := WritesBeforeKeys(last, s), PenEvents(last, s);
            k < |e| && Moves(e[k], e, KeysOfLast(last))
  {
    var t, o := ToolEvents(last, s), OtherKeyEvents(last, s);
    if ToolMoves(last, s) {
      FirstToolMoves(last, s);
      hide ToolEvents, OtherKeyEvents, Moves, AxisEvents;
      MovesInWhole(t[0], last, s);
    } else {
      FirstOtherMoves(last, s);
      assert |AxisEvents(s)| == 6;
      assert Moves(o[0], [], KeysOfLast(last));
      hide ToolEvents, OtherKeyEvents, Moves, AxisEvents;
      MovesInWhole(o[0], last, s);
    }
  }

  /** From keys in step, a sample cut off leaves them so if and only if it was cut off before its first key. */
  lemma CutKeepsStepExactly(c: Consumer, last: Option<PenState>, s: PenState, writes: nat)
    requires c.keys == KeysOfLast(last) && writes < |PenEvents(last, s)|
    ensures Replay(c, Accepted(PenEvents(last, s), writes)).keys == KeysOfLast(last)
            <==> writes <= WritesBeforeKeys(last, s)
  {
    var e := PenEvents(last, s);
    var taken := e[..writes];
    if writes <= WritesBeforeKeys(last, s) {
      QuietPrefix(last, s);
      hide PenEvents;
      assert NoKeys(taken);
      NoKeysKeep(c, taken);
    } else {
      WritesThatMove(last, s);
      FirstKeyMoves(last, s);
      hide PenEvents;
      var k := WritesBeforeKeys(last, s);
      assert taken[k] == e[k] && OnlyKey(taken, e[k].code, e[k].value);
      KeySettles(c, taken, k);
    }
  }

  lemma QuietPrefix(last: Option<PenState>, s: PenState)
    ensures WritesBeforeKeys(last, s) <= |PenEvents(last, s)|
    ensures NoKeys(PenEvents(last, s)[..WritesBeforeKeys(last, s)])
  {
    PartsThatMove(last, s);
    assert NoKeys(AxisEvents(s)) && |AxisEvents(s)| == 6;
    hide PenEvents, ToolEvents, OtherKeyEvents, AxisEvents, ToolMoves, KeyMoves;
  }

  lemma WritesThatMove(last: Option<PenState>, s: PenState)
    requires WritesBeforeKeys(last, s) < |PenEvents(last, s)| - 1 || WritesBeforeKeys(last, s) < 7
    ensures ToolMoves(last, s) || KeyMoves(last, s)
  {
    PartsThatMove(last, s);
    assert |AxisEvents(s)| == 6;
    hide PenEvents, AxisEvents, ToolMoves, KeyMoves;
  }

  // ---------------------------------------------------------------------------
  // Whole runs
  // ---------------------------------------------------------------------------

  /** A sample cut off anywhere lacks its frame end and shows nothing. */
  lemma {:induction false} NoSynKeepsShown(c: Consumer, events: seq<Event>)
    requires Syn !in events
    ensures Replay(c, events).shown == c.shown
    decreases |events|
  {
    if events != [] {
      assert Last(events) in events;
      NoSynKeepsShown(c, DropLast(events));
    }
  }

  lemma OneFrameEnd(last: Option<PenState>, s: PenState)
    ensures var e := PenEvents(last, s); e != [] && Last(e) == Syn && Syn !in DropLast(e)
  {
    var e1, e2, e3 := ToolEvents(last, s), AxisEvents(s), OtherKeyEvents(last, s);
    assert Syn !in e1 && Syn !in e2 && Syn !in e3;
    hide ToolEvents, AxisEvents, OtherKeyEvents;
    assert DropLast(PenEvents(last, s)) == e1 + e2 + e3;
  }

  lemma CutShowsNothing(p: Pen, call: Call)
    requires !Step(p, call).ok
    ensures Replay(IDLE, Step(p, call).log).shown == Replay(IDLE, p.log).shown
  {
    OneFrameEnd(p.last, call.state);
    hide PenEvents;
    var events := PenEvents(p.last, call.state);
    var taken := Accepted(events, call.writes);
    assert taken == DropLast(events)[..|taken|];
    assert Syn !in taken;
    ReplayAppends(IDLE, p.log, taken);
    NoSynKeepsShown(Replay(IDLE, p.log), taken);
  }

  /** The keys a consumer of everything written has collected. */
  function Keys(calls: seq<Call>): set<nat> {
    Replay(IDLE, Run(calls).log).keys
  }

  predicate AllQuiet(calls: seq<Call>) {
    forall k :: 0 <= k < |calls| ==> Quiet(Run(calls[..k]).last, calls[k])
  }

  lemma QuietPrefixes(calls: seq<Call>)
    requires calls != []
    ensures AllQuiet(calls) <==> AllQuiet(DropLast(calls)) && Quiet(Run(DropLast(calls)).last, Last(calls))
  {
    hide Run, Quiet;
    var before := DropLast(calls);
    assert forall k :: 0 <= k < |before| ==> before[..k] == calls[..k] && before[k] == calls[k];
    assert calls[..|before|] == before;
  }

  /** One call from keys in step: it ends in step if and only if it is quiet. */
  lemma CallKeepsStepExactly(before: seq<Call>, call: Call)
    requires Keys(before) == KeysOfLast(Run(before).last)
    ensures var calls := before + [call];
            Keys(calls) == KeysOfLast(Run(calls).last) <==> Quiet(Run(before).last, call)
  {
    var p := Run(before);
    var c := Replay(IDLE, p.log);
    var events := PenEvents(p.last, call.state);
    assert DropLast(before + [call]) == before;
    ReplayAppends(IDLE, p.log, Accepted(events, call.writes));
    hide Run, PenEvents, KeysOf;
    if call.writes < |events| {
      CutKeepsStepExactly(c, p.last, call.state, call.writes);
    } else {
      SampleShows(c, p.last, call.state);
      KeysFollowSample(p.last, call.state);
      hide KeysAfter, Replay;
    }
  }

  lemma NothingWritten()
    ensures Keys([]) == KeysOfLast(Run([]).last)
  {
    assert Replay(IDLE, []) == IDLE;
  }

  lemma {:induction false} QuietRunsStayInStep(calls: seq<Call>)
    requires AllQuiet(calls)
    ensures Keys(calls) == KeysOfLast(Run(calls).last)
    decreases |calls|
  {
    hide Quiet, Keys, Run, KeysOfLast;
    if calls == [] {
      NothingWritten();
    } else {
      QuietPrefixes(calls);
      hide AllQuiet;
      QuietRunsStayInStep(DropLast(calls));
      CallKeepsStepExactly(DropLast(calls), Last(calls));
      assert calls == DropLast(calls) + [Last(calls)];
    }
  }

  lemma AxesReplaced(m: map<nat, int>, s: PenState)
    requires m.Keys <= AxesOf(s).Keys
    ensures m + AxesOf(s) == AxesOf(s)
  {
  }

  /** Nothing but the six axes is written as an axis. */
  predicate SixAxesOnly(events: seq<Event>, s: PenState) {
    forall i :: 0 <= i < |events| && events[i].Abs? ==> events[i].code in AxesOf(s).Keys
  }

  lemma {:induction false} OnlySixAxes(c: Consumer, events: seq<Event>, s: PenState)
    requires c.axes.Keys <= AxesOf(s).Keys && SixAxesOnly(events, s)
    ensures Replay(c, events).axes.Keys <= AxesOf(s).Keys
    decreases |events|
  {
    if events != [] {
      hide AxesOf;
      OnlySixAxes(c, DropLast(events), s);
    }
  }

  lemma SixAxesAppend(a: seq<Event>, b: seq<Event>, s: PenState)
    requires SixAxesOnly(a, s) && SixAxesOnly(b, s)
    ensures SixAxesOnly(a + b, s)
  {
    hide AxesOf;
  }

  lemma SampleAxes(last: Option<PenState>, s: PenState, t: PenState)
    ensures SixAxesOnly(PenEvents(last, s), t)
  {
    var e1, e2, e3, e4 := ToolEvents(last, s), AxisEvents(s), OtherKeyEvents(last, s), [Syn];
    assert SixAxesOnly(e1, t) && SixAxesOnly(e3, t) && SixAxesOnly(e4, t);
    AxesAreSix(s, t);
    hide SixAxesOnly, ToolEvents, OtherKeyEvents, AxisEvents;
    SixAxesAppend(e1, e2, t);
    SixAxesAppend(e1 + e2, e3, t);
    SixAxesAppend(e1 + e2 + e3, e4, t);
  }

  lemma AxesAreSix(s: PenState, t: PenState)
    ensures SixAxesOnly(AxisEvents(s), t)
  {
  }

  lemma {:induction false} RunAxes(calls: seq<Call>, s: PenState)
    ensures Replay(IDLE, Run(calls).log).axes.Keys <= AxesOf(s).Keys
    decreases |calls|
  {
    if calls != [] {
      hide PenEvents, AxesOf;
      RunAxes(DropLast(calls), s);
      var p, call := Run(DropLast(calls)), Last(calls);
      var taken := Accepted(PenEvents(p.last, call.state), call.writes);
      SampleAxes(p.last, call.state, s);
      hide Replay;
      ReplayAppends(IDLE, p.log, taken);
      OnlySixAxes(Replay(IDLE, p.log), taken, s);
    }
  }

  /**
   * Over every run whose failed samples were cut off before their first key, the consumer
   * shows exactly the last sample that was written whole: its keys, its position, pressure,
   * distance and tilt. A failed sample shows nothing. The touch key is never shown without a
   * tool, and two tools never are.
   */
  lemma {:induction false} ConsumerFollowsPen(calls: seq<Call>)
    requires AllQuiet(calls)
    ensures var last, shown := Run(calls).last, Replay(IDLE, Run(calls).log).shown;
            && shown.keys == KeysOfLast(last)
            && (last.Some? ==> Mirrors(shown.axes, last.value))
            && (0x14a in shown.keys ==> 0x140 in shown.keys || 0x141 in shown.keys)
            && !(0x140 in shown.keys && 0x141 in shown.keys)
    ensures calls != [] && Run(calls).ok ==> Run(calls).last == Some(Last(calls).state)
    decreases |calls|
  {
    if calls == [] {
      assert Replay(IDLE, []) == IDLE;
    } else {
      QuietPrefixes(calls);
      hide Mirrors, AllQuiet, Quiet, Replay, PenEvents;
      ConsumerFollowsPen(DropLast(calls));
      if Run(calls).ok {
        WrittenSampleShows(calls);
      } else {
        CutShowsNothing(Run(DropLast(calls)), Last(calls));
      }
      ToolsOf(Run(calls).last);
    }
  }

  lemma WrittenSampleShows(calls: seq<Call>)
    requires calls != [] && AllQuiet(DropLast(calls)) && Run(calls).ok
    ensures var s, shown := Last(calls).state, Replay(IDLE, Run(calls).log).shown;
            shown.keys == KeysOf(s) && Mirrors(shown.axes, s)
  {
    QuietRunsStayInStep(DropLast(calls));
    var q, s := Run(DropLast(calls)), Last(calls).state;
    hide PenEvents, KeysOf, KeysAfter, AxesOf, Mirrors, AllQuiet;
    var c := Replay(IDLE, q.log);
    RunAxes(DropLast(calls), s);
    ReplayAppends(IDLE, q.log, PenEvents(q.last, s));
    SampleShows(c, q.last, s);
    KeysFollowSample(q.last, s);
    AxesReplaced(c.axes, s);
    AxesMirror(s);
  }

  lemma ToolsOf(last: Option<PenState>)
    ensures var keys := KeysOfLast(last);
            && (0x14a in keys ==> 0x140 in keys || 0x141 in keys)
            && !(0x140 in keys && 0x141 in keys)
  {
  }

  /** Whatever keys the consumer holds, every next sample comes out right just when they are the last whole sample's. */
  lemma EverySampleRightExactlyWhen(keys: set<nat>, last: Option<PenState>)
    ensures (forall s :: KeysAfter(keys, last, s) == KeysOf(s)) <==> keys == KeysOfLast(last)
  {
    if keys == KeysOfLast(last) {
      forall s
        ensures KeysAfter(keys, last, s) == KeysOf(s)
      {
        KeysFollowSample(last, s);
      }
    } else {
      var same := Was(last);
      assert KeysAfter(keys, last, same) == keys;
      assert KeysOf(same) == KeysOfLast(last);
    }
  }

  /** The keys a consumer shows when a sample is written whole after a run. */
  function ShownNext(calls: seq<Call>, s: PenState): set<nat> {
    Replay(IDLE, Run(calls).log + PenEvents(Run(calls).last, s)).shown.keys
  }

  lemma ShownNextIs(calls: seq<Call>, s: PenState)
    ensures ShownNext(calls, s) == KeysAfter(Keys(calls), Run(calls).last, s)
  {
    hide Run, PenEvents, KeysAfter, Replay;
    ReplayAppends(IDLE, Run(calls).log, PenEvents(Run(calls).last, s));
    SampleShows(Replay(IDLE, Run(calls).log), Run(calls).last, s);
  }

  /** After the run, and after each of its calls, whatever sample is written next is shown with its own keys. */
  ghost predicate EveryContinuationRight(calls: seq<Call>) {
    forall k, s :: 0 <= k <= |calls| ==> ShownNext(calls[..k], s) == KeysOf(s)
  }

  /**
   * Every sample written at any point of a run comes out right if and only if each failed
   * sample of the run was cut off before its first key, a condition on the samples and on
   * how many writes were accepted.
   */
  lemma {:induction false} EveryContinuationRightExactly(calls: seq<Call>)
    ensures EveryContinuationRight(calls) <==> AllQuiet(calls)
    decreases |calls|
  {
    RightAtEnd(calls);
    RightNext(calls);
    hide Keys, Run, ShownNext, KeysOf, KeysOfLast, Quiet;
    if calls == [] {
      QuietRunsStayInStep(calls);
    } else {
      var before := DropLast(calls);
      EveryContinuationRightExactly(before);
      QuietPrefixes(calls);
      hide AllQuiet, EveryContinuationRight;
      assert calls == before + [Last(calls)];
      if AllQuiet(before) {
        QuietRunsStayInStep(before);
        CallKeepsStepExactly(before, Last(calls));
      }
    }
  }

  lemma RightNext(calls: seq<Call>)
    ensures (forall s :: ShownNext(calls, s) == KeysOf(s)) <==> Keys(calls) == KeysOfLast(Run(calls).last)
  {
    EverySampleRightExactlyWhen(Keys(calls), Run(calls).last);
    hide Keys, Run, KeysAfter, KeysOf, KeysOfLast, ShownNext;
    forall s
      ensures ShownNext(calls, s) == KeysAfter(Keys(calls), Run(calls).last, s)
    {
      ShownNextIs(calls, s);
    }
  }

  lemma RightAtEnd(calls: seq<Call>)
    ensures calls == [] ==> (EveryContinuationRight(calls) <==> forall s :: ShownNext(calls, s) == KeysOf(s))
    ensures calls != [] ==>
              (EveryContinuationRight(calls)
               <==> EveryContinuationRight(DropLast(calls)) && forall s :: ShownNext(calls, s) == KeysOf(s))
  {
    hide ShownNext, KeysOf;
    assert calls[..|calls|] == calls;
    if calls != [] {
      var before := DropLast(calls);
      assert forall k :: 0 <= k <= |before| ==> before[..k] == calls[..k];
    }
  }

  lemma FirstEventIsTool(s: PenState)
    requires Present(s)
    ensures Accepted(PenEvents(None, s), 1) == [Key(Tool(s), Flag(true))]
    ensures 7 <= |PenEvents(None, s)| <= 10
  {
  }

  /** The concrete cost: a pen sample cut off after its tool key, then an eraser sample, leaves both tools down. */
  lemma FailedWriteLeavesToolDown()
    ensures var pen := DEFAULT.(inRange := true);
            var eraser := pen.(eraser := true);
            var p := Run([Call(pen, 1), Call(eraser, 100)]);
            p.ok && {0x140, 0x141} <= Replay(IDLE, p.log).shown.keys
  {
    var pen := DEFAULT.(inRange := true);
    var eraser := pen.(eraser := true);
    FirstEventIsTool(pen);
    FirstEventIsTool(eraser);
    var calls := [Call(pen, 1), Call(eraser, 100)];
    assert DropLast(calls) == [Call(pen, 1)] && DropLast([Call(pen, 1)]) == [];
    hide PenEvents, Replay;
    var log: seq<Event> := [Key(BTN_TOOL_PEN, 1)];
    assert [] + log == log;
    assert Run([Call(pen, 1)]) == Step(Run([]), Call(pen, 1)) == Pen(None, log, false);
    ReplayOne(IDLE, Key(BTN_TOOL_PEN, 1));
    ReplayAppends(IDLE, log, PenEvents(None, eraser));
    SampleShows(Replay(IDLE, log), None, eraser);
  }

  // ---------------------------------------------------------------------------
  // The stylus in place
  // ---------------------------------------------------------------------------

  class UinputPen {
    const device: Device
    var last: Option<PenState>

    ghost function View(ok: bool): Pen
      reads this, device
    {
      Pen(last, device.log, ok)
    }

    constructor ()
      ensures View(true) == Run([]) && fresh(device)
    {
      device := new Device();
      last := None;
    }

    /** The events for a sample. */
    method Events(state: PenState) returns (events: seq<Event>)
      ensures events == PenEvents(last, state)
    {
      hide AxisEvents, Flag, KeyIf, Tool;
      var was := if last.Some? then last.value else DEFAULT;
      var tool, wasTool := Tool(state), Tool(was);
      var inRange := state.inRange || state.down;
      var wasInRange := last.Some? && (was.inRange || was.down);
      events := KeyIf(wasInRange && wasTool != tool, wasTool, Flag(false));
      events := events + KeyIf(inRange && (!wasInRange || wasTool != tool), tool, Flag(true));
      events := events + AxisEvents(state);
      events := events + KeyIf(state.down != was.down, BTN_TOUCH, Flag(state.down));
      events := events + KeyIf(state.barrel != was.barrel, BTN_STYLUS, Flag(state.barrel));
      events := events + KeyIf(!inRange && wasInRange, tool, Flag(false));
      events := events + [Syn];
    }

    method ReportPen(state: PenState, writes: nat) returns (ok: bool)
      modifies this, device
      ensures View(ok) == Step(old(View(true)), Call(state, writes))
    {
      device.writes := writes;
      var events := Events(state);
      hide PenEvents;
      ok := device.Emit(events);
      if ok {
        last := Some(state);
      }
    }
  }
}
