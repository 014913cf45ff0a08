/**
 * The uinput touch digitiser: touch snapshots become multitouch protocol B events, one
 * slot per live finger. A protocol B consumer replays the events. Writes may fail at any
 * point of a report, which then returns early with the slot table as it stands.
 */
module LinuxTouch {
  import opened Common
  import opened Bytes
  import opened TouchState
  import opened Uinput
  import Rescale

  type Ids = s: seq<Option<byte>> | |s| == MAX_CONTACTS witness [None, None, None, None, None, None, None, None, None, None]

  const NO_FINGERS: Ids := [None, None, None, None, None, None, None, None, None, None]

  // ---------------------------------------------------------------------------
  // The slot table
  // ---------------------------------------------------------------------------

  function Find(ids: Ids, id: byte): (s: nat)
    ensures s <= MAX_CONTACTS
    ensures s < MAX_CONTACTS ==> ids[s] == Some(id)
    ensures s == MAX_CONTACTS <==> Some(id) !in ids
  {
    IndexOf(ids, Some(id))
  }

  /** The slot `claim` answers: the id's own, else the first free one, else none (MAX_CONTACTS). */
  function Claim(ids: Ids, id: byte): (s: nat)
    ensures s <= MAX_CONTACTS
    ensures s < MAX_CONTACTS ==> ids[s] == Some(id) || ids[s] == None
    ensures Some(id) in ids ==> s < MAX_CONTACTS && ids[s] == Some(id)
    ensures s == MAX_CONTACTS <==> Some(id) !in ids && None !in ids
  {
    if Find(ids, id) < MAX_CONTACTS then Find(ids, id) else IndexOf(ids, None)
  }

  /** The live ids in slot order, `live()`. */
  function Live(ids: seq<Option<byte>>): (l: seq<byte>)
    ensures forall id: byte :: id in l <==> Some(id) in ids
    decreases |ids|
  {
    if ids == [] then []
    else
      assert ids == DropLast(ids) + [Last(ids)];
      var before := Live(DropLast(ids));
      if Last(ids).Some? then before + [Last(ids).value] else before
  }

  /** No finger holds two slots. */
  predicate Unique(ids: Ids) {
    forall i, j :: 0 <= i < j < MAX_CONTACTS && ids[i].Some? ==> ids[i] != ids[j]
  }

  // ---------------------------------------------------------------------------
  // One report, write by write
  // ---------------------------------------------------------------------------

  /** The slot table, the events written, the writes still accepted, and whether all were so far. */
  datatype Progress = Progress(ids: Ids, log: seq<Event>, writes: nat, ok: bool)

  function ContactAxes(c: Contact): seq<Event> {
    [
      Abs(ABS_MT_TRACKING_ID, c.id),
      Abs(ABS_MT_POSITION_X, c.x),
      Abs(ABS_MT_POSITION_Y, c.y),
      Abs(ABS_MT_PRESSURE, Rescale.TabletPressure(c.pressure)),
      Abs(ABS_MT_TOUCH_MAJOR, if c.width > c.height then c.width else c.height),
      Abs(ABS_MT_TOUCH_MINOR, if c.width < c.height then c.width else c.height)
    ]
  }

  function ContactEvents(slot: nat, c: Contact): seq<Event> {
    [Abs(ABS_MT_SLOT, slot)] + ContactAxes(c)
  }

  function LiftEvents(slot: nat): seq<Event> {
    [Abs(ABS_MT_SLOT, slot), Abs(ABS_MT_TRACKING_ID, -1)]
  }

  function Emit(p: Progress, events: seq<Event>): Progress {
    var taken := Accepted(events, p.writes);
    p.(log := p.log + taken, writes := p.writes - |taken|, ok := |taken| == |events|)
  }

  /** Lifts the finger in `slot`: events first, the table only once they are written. */
  function Lift(p: Progress, slot: nat): Progress
    requires slot < MAX_CONTACTS
  {
    var e := Emit(p, LiftEvents(slot));
    if e.ok then e.(ids := e.ids[slot := None]) else e
  }

  /** One contact of the snapshot; a new finger is claimed before its events are written. */
  function OneContact(p: Progress, c: Contact): Progress {
    if c.down then
      var slot := Claim(p.ids, c.id);
      if slot == MAX_CONTACTS then p else Emit(p.(ids := p.ids[slot := Some(c.id)]), ContactEvents(slot, c))
    else
      var slot := Find(p.ids, c.id);
      if slot == MAX_CONTACTS then p else Lift(p, slot)
  }

  function AllContacts(p: Progress, contacts: seq<Contact>): Progress
    decreases |contacts|
  {
    if contacts == [] then p
    else
      var before := AllContacts(p, DropLast(contacts));
      if before.ok then OneContact(before, Last(contacts)) else before
  }

  function OneVanished(p: Progress, contacts: seq<Contact>, id: byte): Progress {
    if Mentions(contacts, id) || Find(p.ids, id) == MAX_CONTACTS then p else Lift(p, Find(p.ids, id))
  }

  /** Fingers live before the report and missing from it are lifted last. */
  function AllVanished(p: Progress, contacts: seq<Contact>, live: seq<byte>): Progress
    decreases |live|
  {
    if live == [] then p
    else
      var before := AllVanished(p, contacts, DropLast(live));
      if before.ok then OneVanished(before, contacts, Last(live)) else before
  }

  function FirstDown(contacts: seq<Contact>): (i: nat)
    ensures i <= |contacts|
    ensures i < |contacts| ==> contacts[i].down
    ensures forall j :: 0 <= j < i ==> !contacts[j].down
  {
    if contacts == [] || contacts[0].down then 0 else 1 + FirstDown(contacts[1..])
  }

  /** The single-touch position of the first finger down, the touch button and the frame end. */
  function TailEvents(ids: Ids, contacts: seq<Contact>): seq<Event> {
    var i := FirstDown(contacts);
    (if i < |contacts| then [Abs(ABS_X, contacts[i].x), Abs(ABS_Y, contacts[i].y)] else [])
    + [Key(BTN_TOUCH, Flag(Live(ids) != [])), Syn]
  }

  function Report(p: Progress, contacts: seq<Contact>): Progress {
    var a := AllContacts(p, contacts);
    var b := if a.ok then AllVanished(a, contacts, Live(p.ids)) else a;
    if b.ok then Emit(b, TailEvents(b.ids, contacts)) else b
  }

  // ---------------------------------------------------------------------------
  // The consumer
  // ---------------------------------------------------------------------------

  /** What a protocol B consumer holds per slot; a tracking id of -1 means no finger. */
  datatype Finger = Finger(tracking: int, x: int, y: int, pressure: int, major: int, minor: int)

  /** What a consumer shows at a frame end: the fingers, the single-touch position and the touch button. */
  datatype Frame = Frame(fingers: seq<Finger>, x: int, y: int, touch: bool)

  /** A consumer collects what it is told and shows none of it before the frame end. */
  datatype Consumer = Consumer(slot: nat, fingers: seq<Finger>, x: int, y: int, touch: bool, shown: Frame)

  const LIFTED := Finger(-1, 0, 0, 0, 0, 0)

  const NOTHING: seq<Finger> := [LIFTED, LIFTED, LIFTED, LIFTED, LIFTED, LIFTED, LIFTED, LIFTED, LIFTED, LIFTED]

  const IDLE := Consumer(0, NOTHING, 0, 0, false, Frame(NOTHING, 0, 0, false))

  /** One absolute axis of the selected slot, by the kernel's own code. */
  function Put(f: Finger, code: nat, value: int): Finger {
    match code
    case 0x39 => f.(tracking := value)
    case 0x35 => f.(x := value)
    case 0x36 => f.(y := value)
    case 0x3a => f.(pressure := value)
    case 0x30 => f.(major := value)
    case 0x31 => f.(minor := value)
    case _ => f
  }

  function Apply(c: Consumer, e: Event): (r: Consumer)
    requires c.slot < |c.fingers|
    ensures r.slot < |r.fingers| == |c.fingers|
  {
    match e
    case Syn => c.(shown := Frame(c.fingers, c.x, c.y, c.touch))
    case Key(code, value) => if code == 0x14a then c.(touch := value != 0) else c
    case Abs(code, value) =>
      if code == 0x2f then (if 0 <= value < |c.fingers| then c.(slot := value) else c)
      else if code == 0x00 then c.(x := value)
      else if code == 0x01 then c.(y := value)
      else c.(fingers := c.fingers[c.slot := Put(c.fingers[c.slot], code, value)])
  }

  function Replay(c: Consumer, events: seq<Event>): (r: Consumer)
    requires c.slot < |c.fingers|
    ensures r.slot < |r.fingers| == |c.fingers|
    decreases |events|
  {
    if events == [] then c else Apply(Replay(c, DropLast(events)), Last(events))
  }

  /** The consumer after everything a device has written since it was created. */
  function Seen(log: seq<Event>): (c: Consumer)
    ensures c.slot < |c.fingers| == MAX_CONTACTS
  {
    Replay(IDLE, log)
  }

  function FingerOf(c: Contact): Finger {
    Finger(c.id, c.x, c.y, Rescale.TabletPressure(c.pressure),
           if c.width > c.height then c.width else c.height,
           if c.width < c.height then c.width else c.height)
  }

  lemma {:induction false} ReplayAppends(c: Consumer, a: seq<Event>, b: seq<Event>)
    requires c.slot < |c.fingers|
    ensures Replay(c, a + b) == Replay(Replay(c, a), b)
    decreases |b|
  {
    if b == [] {
      assert a + b == a;
    } else {
      ReplayAppends(c, a, DropLast(b));
      assert DropLast(a + b) == a + DropLast(b);
    }
  }

  // ---------------------------------------------------------------------------
  // What every write keeps, and what a whole report restores
  // ---------------------------------------------------------------------------

  /** A finger the consumer holds is the one the table has in that slot; a failed report may leave it behind. */
  ghost predicate Behind(ids: Ids, c: Consumer) {
    && |c.fingers| == MAX_CONTACTS && c.slot < MAX_CONTACTS
    && Unique(ids)
    && forall s :: 0 <= s < MAX_CONTACTS ==>
         c.fingers[s].tracking == -1 || Tracks(c.fingers[s], ids[s])
  }

  predicate Tracks(f: Finger, id: Option<byte>) {
    match id
    case None => f.tracking == -1
    case Some(i) => f.tracking == i as int
  }

  /** A code other than the slot's own and the single-touch position's. */
  predicate OfSlot(code: nat) {
    code != ABS_MT_SLOT && code != ABS_X && code != ABS_Y
  }

  /** Events that select one slot first and then only touch it, never to a finger the table denies. */
  ghost predicate ForSlot(events: seq<Event>, s: nat, id: Option<byte>) {
    && s < MAX_CONTACTS
    && (events != [] ==> events[0] == Abs(ABS_MT_SLOT, s))
    && forall i :: 0 < i < |events| ==>
         && events[i].Abs? && OfSlot(events[i].code)
         && (events[i].code == ABS_MT_TRACKING_ID ==> events[i].value == -1 || id == Some(events[i].value))
  }

  lemma {:induction false} SlotEventsKeepBehind(ids: Ids, c: Consumer, events: seq<Event>, s: nat)
    requires Behind(ids, c) && s < MAX_CONTACTS && ForSlot(events, s, ids[s])
    ensures Behind(ids, Replay(c, events))
    ensures events != [] ==> Replay(c, events).slot == s
    decreases |events|
  {
    if events != [] {
      var before := DropLast(events);
      SlotEventsKeepBehind(ids, c, before, s);
    }
  }

  function PutAll(f: Finger, events: seq<Event>): Finger
    decreases |events|
  {
    if events == [] then f
    else
      var before := PutAll(f, DropLast(events));
      match Last(events)
      case Abs(code, value) => Put(before, code, value)
      case _ => before
  }

  lemma {:induction false} ReplayOnSlot(c: Consumer, s: nat, events: seq<Event>)
    requires c.slot < |c.fingers| && s < |c.fingers|
    requires forall i :: 0 <= i < |events| ==> events[i].Abs? && OfSlot(events[i].code)
    ensures Replay(c, [Abs(ABS_MT_SLOT, s)] + events)
            == c.(slot := s, fingers := c.fingers[s := PutAll(c.fingers[s], events)])
    decreases |events|
  {
    var all := [Abs(ABS_MT_SLOT, s)] + events;
    if events == [] {
      assert all == [Abs(ABS_MT_SLOT, s)] && DropLast(all) == [];
    } else {
      assert DropLast(all) == [Abs(ABS_MT_SLOT, s)] + DropLast(events);
      ReplayOnSlot(c, s, DropLast(events));
    }
  }

  lemma PutAllSnoc(f: Finger, events: seq<Event>, code: nat, value: int)
    ensures PutAll(f, events + [Abs(code, value)]) == Put(PutAll(f, events), code, value)
  {
    assert DropLast(events + [Abs(code, value)]) == events;
  }

  lemma AxesMakeFinger(f: Finger, k: Contact)
    ensures PutAll(f, ContactAxes(k)) == FingerOf(k)
  {
    hide Rescale.TabletPressure;
    var e := ContactAxes(k);
    forall n | 0 <= n < 6
      ensures PutAll(f, e[..n + 1]) == Put(PutAll(f, e[..n]), e[n].code, e[n].value)
    {
      PutAllSnoc(f, e[..n], e[n].code, e[n].value);
      assert e[..n + 1] == e[..n] + [e[n]];
    }
    assert e[..0] == [] && e[..6] == e;
    hide PutAll;
    assert PutAll(f, e[..1]) == Put(PutAll(f, e[..0]), ABS_MT_TRACKING_ID, k.id);
    assert PutAll(f, e[..3]) == PutAll(f, e[..0]).(tracking := k.id, x := k.x, y := k.y);
  }

  lemma ContactShows(c: Consumer, s: nat, k: Contact)
    requires c.slot < |c.fingers| && s < |c.fingers|
    ensures Replay(c, ContactEvents(s, k)) == c.(slot := s, fingers := c.fingers[s := FingerOf(k)])
  {
    hide Replay, PutAll, FingerOf;
    ReplayOnSlot(c, s, ContactAxes(k));
    AxesMakeFinger(c.fingers[s], k);
  }

  lemma LiftShows(c: Consumer, s: nat)
    requires c.slot < |c.fingers| && s < |c.fingers|
    ensures Replay(c, LiftEvents(s)) == c.(slot := s, fingers := c.fingers[s := c.fingers[s].(tracking := -1)])
  {
    var e := [Abs(ABS_MT_TRACKING_ID, -1)];
    assert LiftEvents(s) == [Abs(ABS_MT_SLOT, s)] + e;
    ReplayOnSlot(c, s, e);
    assert DropLast(e) == [];
  }

  /** Writing part or all of a slot's events leaves the consumer behind the table at worst. */
  lemma EmitKeepsBehind(p: Progress, events: seq<Event>, s: nat)
    requires Behind(p.ids, Seen(p.log)) && s < MAX_CONTACTS && ForSlot(events, s, p.ids[s])
    ensures var e := Emit(p, events);
            && Behind(e.ids, Seen(e.log))
            && (e.ok ==> Seen(e.log) == Replay(Seen(p.log), events))
  {
    var taken := Accepted(events, p.writes);
    ReplayAppends(IDLE, p.log, taken);
    SlotEventsKeepBehind(p.ids, Seen(p.log), taken, s);
  }

  lemma LiftKeepsBehind(p: Progress, s: nat)
    requires s < MAX_CONTACTS && Behind(p.ids, Seen(p.log))
    ensures var e := Lift(p, s);
            && Behind(e.ids, Seen(e.log))
            && (e.ok ==>
                  && e.ids == p.ids[s := None]
                  && Seen(e.log).fingers == Seen(p.log).fingers[s := Seen(p.log).fingers[s].(tracking := -1)])
            && (!e.ok ==> e.ids == p.ids)
  {
    hide Seen, Replay, Apply;
    EmitKeepsBehind(p, LiftEvents(s), s);
    LiftShows(Seen(p.log), s);
  }

  lemma ClaimKeepsBehind(p: Progress, s: nat, c: Contact)
    requires Behind(p.ids, Seen(p.log))
    requires s == Claim(p.ids, c.id) < MAX_CONTACTS
    ensures var claimed := p.(ids := p.ids[s := Some(c.id)]);
            var e := Emit(claimed, ContactEvents(s, c));
            && Behind(e.ids, Seen(e.log))
            && e.ids == claimed.ids
            && (e.ok ==> Seen(e.log).fingers == Seen(p.log).fingers[s := FingerOf(c)])
  {
    hide Seen, Replay, Apply;
    var claimed := p.(ids := p.ids[s := Some(c.id)]);
    assert Behind(claimed.ids, Seen(claimed.log));
    EmitKeepsBehind(claimed, ContactEvents(s, c), s);
    ContactShows(Seen(p.log), s, c);
  }

  predicate IsLastOf(contacts: seq<Contact>, j: nat)
    requires j < |contacts|
  {
    forall i :: j < i < |contacts| ==> contacts[i].id != contacts[j].id
  }

  /**
   * Part-way through a report: a live finger already mentioned is down, shown at its last
   * mention's position; one not mentioned yet is where it was before the report.
   */
  ghost predicate Shown(before: Ids, ids: Ids, fingers: seq<Finger>, done: seq<Contact>)
    requires |fingers| == MAX_CONTACTS
  {
    && (forall s, j :: 0 <= s < MAX_CONTACTS && 0 <= j < |done| && ids[s] == Some(done[j].id) && IsLastOf(done, j) ==>
          done[j].down && fingers[s] == FingerOf(done[j]))
    && (forall s :: 0 <= s < MAX_CONTACTS && ids[s].Some? && !Mentions(done, ids[s].value) ==> before[s] == ids[s])
  }

  lemma LastOfLonger(done: seq<Contact>, c: Contact)
    ensures forall j :: 0 <= j < |done| && IsLastOf(done + [c], j) ==> IsLastOf(done, j) && done[j].id != c.id
    ensures IsLastOf(done + [c], |done|)
    ensures forall id: byte :: Mentions(done + [c], id) <==> Mentions(done, id) || id == c.id
  {
    forall j | 0 <= j < |done| && IsLastOf(done + [c], j)
      ensures IsLastOf(done, j) && done[j].id != c.id
    {
      assert (done + [c])[|done|].id != (done + [c])[j].id;
      assert forall i :: j < i < |done| ==> (done + [c])[i] == done[i];
    }
    forall id: byte | Mentions(done, id) || id == c.id
      ensures Mentions(done + [c], id)
    {
      if id == c.id {
        assert (done + [c])[|done|].id == id;
      } else {
        var j :| 0 <= j < |done| && done[j].id == id;
        assert (done + [c])[j].id == id;
      }
    }
  }

  lemma ShownAfterContact(
    before: Ids, ids: Ids, fingers: seq<Finger>, done: seq<Contact>, c: Contact, s: nat, f: Finger)
    requires |fingers| == MAX_CONTACTS && Unique(ids) && Shown(before, ids, fingers, done)
    requires s == if c.down then Claim(ids, c.id) else Find(ids, c.id)
    ensures s == MAX_CONTACTS ==> Shown(before, ids, fingers, done + [c])
    ensures s < MAX_CONTACTS && c.down ==> Shown(before, ids[s := Some(c.id)], fingers[s := FingerOf(c)], done + [c])
    ensures s < MAX_CONTACTS && !c.down ==> Shown(before, ids[s := None], fingers[s := f], done + [c])
  {
    LastOfLonger(done, c);
    hide IsLastOf, Mentions;
    assert forall j :: 0 <= j < |done| ==> (done + [c])[j] == done[j];
  }

  lemma OneContactShows(before: Ids, p: Progress, done: seq<Contact>, c: Contact)
    requires Behind(p.ids, Seen(p.log))
    ensures var r := OneContact(p, c);
            && Behind(r.ids, Seen(r.log))
            && (p.ok && r.ok && Shown(before, p.ids, Seen(p.log).fingers, done) ==>
                  Shown(before, r.ids, Seen(r.log).fingers, done + [c]))
  {
    hide Seen, Emit, Shown, Find, Claim, Behind;
    assert Unique(p.ids) by { BehindIsUnique(p.ids, Seen(p.log)); }
    var s := if c.down then Claim(p.ids, c.id) else Find(p.ids, c.id);
    var lifted := if s < MAX_CONTACTS then Seen(p.log).fingers[s].(tracking := -1) else LIFTED;
    if s < MAX_CONTACTS {
      if c.down {
        ClaimKeepsBehind(p, s, c);
      } else {
        LiftKeepsBehind(p, s);
      }
    }
    if Shown(before, p.ids, Seen(p.log).fingers, done) {
      ShownAfterContact(before, p.ids, Seen(p.log).fingers, done, c, s, lifted);
    }
  }

  lemma BehindIsUnique(ids: Ids, c: Consumer)
    requires Behind(ids, c)
    ensures Unique(ids)
  {
  }

  lemma {:induction false} AllContactsShow(p: Progress, contacts: seq<Contact>)
    requires Behind(p.ids, Seen(p.log)) && p.ok
    ensures var r := AllContacts(p, contacts);
            && Behind(r.ids, Seen(r.log))
            && (r.ok ==> Shown(p.ids, r.ids, Seen(r.log).fingers, contacts))
    decreases |contacts|
  {
    if contacts != [] {
      hide Seen, Shown, OneContact, Behind;
      var before := DropLast(contacts);
      AllContactsShow(p, before);
      var q := AllContacts(p, before);
      assert contacts == before + [Last(contacts)];
      OneContactShows(p.ids, q, before, Last(contacts));
    }
  }

  // ---------------------------------------------------------------------------
  // Vanished fingers
  // ---------------------------------------------------------------------------

  lemma ShownAfterLift(before: Ids, ids: Ids, fingers: seq<Finger>, done: seq<Contact>, s: nat, f: Finger)
    requires |fingers| == MAX_CONTACTS && s < MAX_CONTACTS && Shown(before, ids, fingers, done)
    ensures Shown(before, ids[s := None], fingers[s := f], done)
  {
    hide IsLastOf, Mentions;
  }

  /** The named fingers that the report does not mention are gone from the table. */
  ghost predicate Gone(ids: Ids, contacts: seq<Contact>, live: seq<byte>) {
    forall id: byte :: id in live && !Mentions(contacts, id) ==> Some(id) !in ids
  }

  lemma OneVanishedShows(before: Ids, p: Progress, contacts: seq<Contact>, live: seq<byte>, id: byte)
    requires Behind(p.ids, Seen(p.log))
    ensures var r := OneVanished(p, contacts, id);
            && Behind(r.ids, Seen(r.log))
            && (p.ok && r.ok && Shown(before, p.ids, Seen(p.log).fingers, contacts) && Gone(p.ids, contacts, live) ==>
                  && Shown(before, r.ids, Seen(r.log).fingers, contacts)
                  && Gone(r.ids, contacts, live + [id]))
  {
    hide Seen, Emit, Shown, Mentions;
    var s := Find(p.ids, id);
    if !Mentions(contacts, id) && s < MAX_CONTACTS {
      LiftKeepsBehind(p, s);
      assert Some(id) !in p.ids[s := None];
      if Shown(before, p.ids, Seen(p.log).fingers, contacts) {
        ShownAfterLift(before, p.ids, Seen(p.log).fingers, contacts, s, Seen(p.log).fingers[s].(tracking := -1));
      }
    }
  }

  lemma {:induction false} AllVanishedShow(before: Ids, p: Progress, contacts: seq<Contact>, live: seq<byte>)
    requires Behind(p.ids, Seen(p.log)) && p.ok
    requires Shown(before, p.ids, Seen(p.log).fingers, contacts)
    ensures var r := AllVanished(p, contacts, live);
            && Behind(r.ids, Seen(r.log))
            && (r.ok ==> Shown(before, r.ids, Seen(r.log).fingers, contacts) && Gone(r.ids, contacts, live))
    decreases |live|
  {
    if live != [] {
      hide Seen, Shown, OneVanished, Behind, Gone;
      AllVanishedShow(before, p, contacts, DropLast(live));
      var q := AllVanished(p, contacts, DropLast(live));
      assert live == DropLast(live) + [Last(live)];
      OneVanishedShows(before, q, contacts, DropLast(live), Last(live));
    }
  }

  // ---------------------------------------------------------------------------
  // The frame end
  // ---------------------------------------------------------------------------

  lemma {:induction false} TailKeepsFingers(c: Consumer, events: seq<Event>)
    requires c.slot < |c.fingers|
    requires forall i :: 0 <= i < |events| && events[i].Abs? ==> events[i].code == ABS_X || events[i].code == ABS_Y
    ensures Replay(c, events).fingers == c.fingers && Replay(c, events).slot == c.slot
    decreases |events|
  {
    if events != [] {
      TailKeepsFingers(c, DropLast(events));
    }
  }

  /** The touch button and the frame end show what was collected so far. */
  lemma TailEndsFrame(c: Consumer, events: seq<Event>, touch: bool)
    requires c.slot < |c.fingers|
    ensures var r, d := Replay(c, events + [Key(BTN_TOUCH, Flag(touch)), Syn]), Replay(c, events);
            r.touch == touch && r.x == d.x && r.y == d.y && r.shown == Frame(d.fingers, d.x, d.y, touch)
  {
    var all := events + [Key(BTN_TOUCH, Flag(touch)), Syn];
    assert DropLast(all) == events + [Key(BTN_TOUCH, Flag(touch))];
    assert DropLast(DropLast(all)) == events;
  }

  lemma PositionMoves(c: Consumer, x: int, y: int)
    requires c.slot < |c.fingers|
    ensures Replay(c, [Abs(ABS_X, x), Abs(ABS_Y, y)]) == c.(x := x, y := y)
    ensures Replay(c, []) == c
  {
    assert DropLast([Abs(ABS_X, x), Abs(ABS_Y, y)]) == [Abs(ABS_X, x)] && DropLast([Abs(ABS_X, x)]) == [];
    assert Replay(c, [Abs(ABS_X, x)]) == c.(x := x);
  }

  /** The single-touch position is the first finger's that is down, and moves only if there is one. */
  ghost predicate Points(x: int, y: int, before: Consumer, contacts: seq<Contact>) {
    && (forall i :: 0 <= i < |contacts| && contacts[i].down && (forall k :: 0 <= k < i ==> !contacts[k].down) ==>
          x == contacts[i].x && y == contacts[i].y)
    && ((forall i :: 0 <= i < |contacts| ==> !contacts[i].down) ==> x == before.x && y == before.y)
  }

  lemma FirstDownPoints(c: Consumer, contacts: seq<Contact>)
    requires c.slot < |c.fingers|
    ensures var i := FirstDown(contacts);
            var front := if i < |contacts| then [Abs(ABS_X, contacts[i].x), Abs(ABS_Y, contacts[i].y)] else [];
            Points(Replay(c, front).x, Replay(c, front).y, c, contacts)
  {
    hide Replay;
    var i := FirstDown(contacts);
    PositionMoves(c, if i < |contacts| then contacts[i].x else 0, if i < |contacts| then contacts[i].y else 0);
  }

  lemma TailShows(p: Progress, contacts: seq<Contact>)
    requires Behind(p.ids, Seen(p.log))
    ensures var r := Emit(p, TailEvents(p.ids, contacts));
            && r.ids == p.ids
            && Behind(r.ids, Seen(r.log))
            && Seen(r.log).fingers == Seen(p.log).fingers
            && (r.ok ==>
                  var f := Seen(r.log).shown;
                  && f.fingers == Seen(p.log).fingers && f.touch == (Live(p.ids) != [])
                  && Points(f.x, f.y, Seen(p.log), contacts))
  {
    hide Apply, Replay;
    var i := FirstDown(contacts);
    var front := if i < |contacts| then [Abs(ABS_X, contacts[i].x), Abs(ABS_Y, contacts[i].y)] else [];
    var tail := front + [Key(BTN_TOUCH, Flag(Live(p.ids) != [])), Syn];
    assert tail == TailEvents(p.ids, contacts);
    FirstDownPoints(Seen(p.log), contacts);
    var taken := Accepted(tail, p.writes);
    hide TailEvents, Live, FirstDown, Points;
    ReplayAppends(IDLE, p.log, taken);
    TailKeepsFingers(Seen(p.log), taken);
    TailKeepsFingers(Seen(p.log), front);
    TailEndsFrame(Seen(p.log), front, Live(p.ids) != []);
  }

  // ---------------------------------------------------------------------------
  // Whole reports
  // ---------------------------------------------------------------------------

  /** After a whole report: the consumer shows exactly the table, and the touch button says whether a finger is live. */
  ghost predicate InStep(ids: Ids, shown: Frame) {
    && |shown.fingers| == MAX_CONTACTS
    && (forall s :: 0 <= s < MAX_CONTACTS ==> Tracks(shown.fingers[s], ids[s]))
    && (shown.touch <==> exists s :: 0 <= s < MAX_CONTACTS && ids[s].Some?)
  }

  /** A finger shown as a contact was reported: its pressure on the 0..=8191 scale, its longer side first. */
  predicate Mirrors(f: Finger, c: Contact) {
    && f.tracking == c.id && f.x == c.x && f.y == c.y
    && 65535 * f.pressure <= 8191 * c.pressure < 65535 * f.pressure + 65535
    && f.major >= f.minor && multiset{f.major, f.minor} == multiset{c.width as int, c.height as int}
  }

  lemma FingerMirrors(c: Contact)
    ensures Mirrors(FingerOf(c), c)
  {
  }

  /** Every live finger is down in this report, and shown as its last mention says. */
  ghost predicate FromReport(ids: Ids, fingers: seq<Finger>, contacts: seq<Contact>)
    requires |fingers| == MAX_CONTACTS
  {
    forall s :: 0 <= s < MAX_CONTACTS && ids[s].Some? ==>
      exists j :: && 0 <= j < |contacts| && IsLastOf(contacts, j)
                  && contacts[j].id == ids[s].value && contacts[j].down && Mirrors(fingers[s], contacts[j])
  }

  lemma {:induction false} LastMention(contacts: seq<Contact>, id: byte) returns (j: nat)
    requires Mentions(contacts, id)
    ensures j < |contacts| && contacts[j].id == id && IsLastOf(contacts, j)
    decreases |contacts|
  {
    if Last(contacts).id == id {
      j := |contacts| - 1;
    } else {
      var k :| 0 <= k < |contacts| && contacts[k].id == id;
      assert DropLast(contacts)[k].id == id;
      j := LastMention(DropLast(contacts), id);
      assert forall i :: j < i < |contacts| ==> contacts[i].id != id;
    }
  }

  lemma SettledAtEnd(before: Ids, ids: Ids, c: Consumer, contacts: seq<Contact>)
    requires Behind(ids, c) && Shown(before, ids, c.fingers, contacts)
    requires Gone(ids, contacts, Live(before))
    ensures forall s :: 0 <= s < MAX_CONTACTS ==> Tracks(c.fingers[s], ids[s])
    ensures FromReport(ids, c.fingers, contacts)
  {
    hide Mirrors;
    forall s | 0 <= s < MAX_CONTACTS
      ensures Tracks(c.fingers[s], ids[s])
      ensures ids[s].Some? ==>
                exists j :: && 0 <= j < |contacts| && IsLastOf(contacts, j)
                            && contacts[j].id == ids[s].value && contacts[j].down && Mirrors(c.fingers[s], contacts[j])
    {
      if ids[s].Some? {
        var id := ids[s].value;
        if !Mentions(contacts, id) {
          assert false;
        }
        var j := LastMention(contacts, id);
        FingerMirrors(contacts[j]);
      }
    }
  }

  lemma LiveWhenSome(ids: Ids)
    ensures Live(ids) != [] <==> exists s :: 0 <= s < MAX_CONTACTS && ids[s].Some?
  {
    if s: nat :| s < MAX_CONTACTS && ids[s].Some? {
      assert ids[s].value in Live(ids);
    }
    if Live(ids) != [] {
      assert Some(Live(ids)[0]) in ids;
    }
  }

  /**
   * One report from any state a failed report may have left: at worst the consumer falls
   * behind the table again; when the report succeeds, the frame it ends shows exactly the
   * table, every live finger as reported, and the position of the first finger down.
   */
  lemma ReportHeals(p: Progress, contacts: seq<Contact>)
    requires Behind(p.ids, Seen(p.log)) && p.ok
    ensures var r := Report(p, contacts);
            && Behind(r.ids, Seen(r.log))
            && (r.ok ==>
                  var f := Seen(r.log).shown;
                  InStep(r.ids, f) && FromReport(r.ids, f.fingers, contacts) && Points(f.x, f.y, Seen(p.log), contacts))
  {
    hide Seen, Shown, Emit, TailEvents, AllContacts, AllVanished, Behind, Gone, Points, FromReport;
    AllContactsShow(p, contacts);
    AllContactsKeepFrame(p, contacts);
    var a := AllContacts(p, contacts);
    if a.ok {
      AllVanishedShow(p.ids, a, contacts, Live(p.ids));
      AllVanishedKeepFrame(a, contacts, Live(p.ids));
      var b := AllVanished(a, contacts, Live(p.ids));
      TailShows(b, contacts);
      if b.ok {
        SettledAtEnd(p.ids, b.ids, Seen(b.log), contacts);
        LiveWhenSome(b.ids);
        SamePoint(Seen(p.log), Seen(b.log));
      }
    }
  }

  lemma SamePoint(c: Consumer, d: Consumer)
    requires c.x == d.x && c.y == d.y
    ensures forall x: int, y: int, contacts :: Points(x, y, c, contacts) <==> Points(x, y, d, contacts)
  {
  }

  // ---------------------------------------------------------------------------
  // Failed reports show nothing
  // ---------------------------------------------------------------------------

  /** Neither the frame shown nor the single-touch position has moved. */
  predicate SameFrame(c: Consumer, d: Consumer) {
    d.shown == c.shown && d.x == c.x && d.y == c.y
  }

  lemma {:induction false} SlotEventsKeepFrame(c: Consumer, events: seq<Event>)
    requires c.slot < |c.fingers|
    requires forall i :: 0 <= i < |events| ==> events[i].Abs? && events[i].code != ABS_X && events[i].code != ABS_Y
    ensures SameFrame(c, Replay(c, events))
    decreases |events|
  {
    if events != [] {
      SlotEventsKeepFrame(c, DropLast(events));
    }
  }

  lemma EmitKeepsFrame(p: Progress, events: seq<Event>)
    requires forall i :: 0 <= i < |events| ==> events[i].Abs? && events[i].code != ABS_X && events[i].code != ABS_Y
    ensures SameFrame(Seen(p.log), Seen(Emit(p, events).log))
  {
    var taken := Accepted(events, p.writes);
    ReplayAppends(IDLE, p.log, taken);
    SlotEventsKeepFrame(Seen(p.log), taken);
  }

  lemma LiftKeepsFrame(p: Progress, s: nat)
    requires s < MAX_CONTACTS
    ensures SameFrame(Seen(p.log), Seen(Lift(p, s).log))
  {
    EmitKeepsFrame(p, LiftEvents(s));
    hide Seen;
  }

  lemma OneContactKeepsFrame(p: Progress, c: Contact)
    ensures SameFrame(Seen(p.log), Seen(OneContact(p, c).log))
  {
    var s := if c.down then Claim(p.ids, c.id) else Find(p.ids, c.id);
    if s < MAX_CONTACTS {
      if c.down {
        EmitKeepsFrame(p.(ids := p.ids[s := Some(c.id)]), ContactEvents(s, c));
      } else {
        LiftKeepsFrame(p, s);
      }
    }
    hide Seen, Emit, Lift;
  }

  lemma {:induction false} AllContactsKeepFrame(p: Progress, contacts: seq<Contact>)
    ensures SameFrame(Seen(p.log), Seen(AllContacts(p, contacts).log))
    decreases |contacts|
  {
    if contacts != [] {
      hide Seen, OneContact;
      AllContactsKeepFrame(p, DropLast(contacts));
      OneContactKeepsFrame(AllContacts(p, DropLast(contacts)), Last(contacts));
    }
  }

  lemma {:induction false} AllVanishedKeepFrame(p: Progress, contacts: seq<Contact>, live: seq<byte>)
    ensures SameFrame(Seen(p.log), Seen(AllVanished(p, contacts, live).log))
    decreases |live|
  {
    if live != [] {
      hide Seen, Lift;
      AllVanishedKeepFrame(p, contacts, DropLast(live));
      var q := AllVanished(p, contacts, DropLast(live));
      if Find(q.ids, Last(live)) < MAX_CONTACTS {
        LiftKeepsFrame(q, Find(q.ids, Last(live)));
      }
    }
  }

  lemma {:induction false} NoSynKeepsShown(c: Consumer, events: seq<Event>)
    requires c.slot < |c.fingers| && Syn !in events
    ensures Replay(c, events).shown == c.shown
    decreases |events|
  {
    if events != [] {
      assert Last(events) in events;
      NoSynKeepsShown(c, DropLast(events));
    }
  }

  lemma CutTailShowsNothing(p: Progress, contacts: seq<Contact>)
    requires !Emit(p, TailEvents(p.ids, contacts)).ok
    ensures Seen(Emit(p, TailEvents(p.ids, contacts)).log).shown == Seen(p.log).shown
  {
    var tail := TailEvents(p.ids, contacts);
    var taken := Accepted(tail, p.writes);
    assert Syn !in tail[..|tail| - 1];
    assert Syn !in taken;
    hide TailEvents;
    ReplayAppends(IDLE, p.log, taken);
    NoSynKeepsShown(Seen(p.log), taken);
  }

  /** A report that fails, wherever it fails, shows the consumer nothing at all. */
  lemma FailedReportShowsNothing(p: Progress, contacts: seq<Contact>)
    requires !Report(p, contacts).ok
    ensures Seen(Report(p, contacts).log).shown == Seen(p.log).shown
  {
    hide Seen, Emit, TailEvents, AllContacts, AllVanished;
    AllContactsKeepFrame(p, contacts);
    var a := AllContacts(p, contacts);
    if a.ok {
      AllVanishedKeepFrame(a, contacts, Live(p.ids));
      var b := AllVanished(a, contacts, Live(p.ids));
      if b.ok {
        CutTailShowsNothing(b, contacts);
      }
    }
  }

  // ---------------------------------------------------------------------------
  // Whole runs, with a limit on the writes of each call
  // ---------------------------------------------------------------------------

  datatype Call = Call(contacts: seq<Contact>, writes: nat)

  /** A report over the contact limit is refused before anything is written. */
  function Step(p: Progress, call: Call): Progress {
    if |call.contacts| > MAX_CONTACTS then p.(ok := false)
    else Report(p.(writes := call.writes, ok := true), call.contacts)
  }

  function Run(calls: seq<Call>): Progress
    decreases |calls|
  {
    if calls == [] then Progress(NO_FINGERS, [], 0, true) else Step(Run(DropLast(calls)), Last(calls))
  }

  lemma {:induction false} RunStaysBehind(calls: seq<Call>)
    ensures Behind(Run(calls).ids, Seen(Run(calls).log))
    decreases |calls|
  {
    if calls == [] {
      assert Seen([]) == IDLE;
    } else {
      RunStaysBehind(DropLast(calls));
      if |Last(calls).contacts| <= MAX_CONTACTS {
        ReportHeals(Run(DropLast(calls)).(writes := Last(calls).writes, ok := true), Last(calls).contacts);
      }
    }
  }

  /**
   * After every successful report of every run, even one with failed reports before it, a
   * protocol B consumer of all the events ever written shows exactly the slot table, each
   * live finger was down in that report and is shown as reported, and the touch button says
   * whether any finger is live.
   */
  lemma ReplayIsTheSlotTable(calls: seq<Call>)
    requires calls != [] && Run(calls).ok
    ensures var shown := Seen(Run(calls).log).shown;
            && InStep(Run(calls).ids, shown) && FromReport(Run(calls).ids, shown.fingers, Last(calls).contacts)
            && Points(shown.x, shown.y, Seen(Run(DropLast(calls)).log), Last(calls).contacts)
    ensures Unique(Run(calls).ids)
  {
    RunStaysBehind(DropLast(calls));
    RunStaysBehind(calls);
    ReportHeals(Run(DropLast(calls)).(writes := Last(calls).writes, ok := true), Last(calls).contacts);
  }

  /** Failed calls at the end of a run change nothing of what the last successful one showed. */
  lemma {:induction false} ShownIsTheLastSuccess(calls: seq<Call>, failed: seq<Call>)
    requires forall k :: 0 < k <= |failed| ==> !Run(calls + failed[..k]).ok
    ensures Seen(Run(calls + failed).log).shown == Seen(Run(calls).log).shown
    decreases |failed|
  {
    if failed == [] {
      assert calls + failed == calls;
    } else {
      var before, call := DropLast(failed), Last(failed);
      assert forall k :: 0 < k <= |before| ==> before[..k] == failed[..k];
      hide Run, Seen;
      ShownIsTheLastSuccess(calls, before);
      assert calls + failed == calls + before + [call] && failed[..|failed|] == failed;
      OneFailedCall(calls + before, call);
    }
  }

  lemma OneFailedCall(calls: seq<Call>, call: Call)
    requires !Run(calls + [call]).ok
    ensures Seen(Run(calls + [call]).log).shown == Seen(Run(calls).log).shown
  {
    hide Seen, Report;
    assert DropLast(calls + [call]) == calls;
    if |call.contacts| <= MAX_CONTACTS {
      FailedReportShowsNothing(Run(calls).(writes := call.writes, ok := true), call.contacts);
    }
  }

  // ---------------------------------------------------------------------------
  // Which fingers are live: exactly when is it the set reported down?
  // ---------------------------------------------------------------------------

  predicate ReportedDown(contacts: seq<Contact>, id: byte) {
    exists j :: 0 <= j < |contacts| && contacts[j].id == id && contacts[j].down
  }

  predicate IsNew(ids: Ids, c: Contact) {
    c.down && Some(c.id) !in ids
  }

  /** The slots in use. */
  function Count(ids: seq<Option<byte>>): nat {
    if ids == [] then 0 else Count(DropLast(ids)) + if Last(ids).Some? then 1 else 0
  }

  /** The slots these contacts call for, on top of `ids`: a new finger takes one, an explicit lift gives one back. */
  function Needed(ids: Ids, contacts: seq<Contact>): int
    decreases |contacts|
  {
    if contacts == [] then Count(ids)
    else
      Needed(ids, DropLast(contacts))
      + (if IsNew(ids, Last(contacts)) then 1 else 0)
      - (if !Last(contacts).down && Some(Last(contacts).id) in ids then 1 else 0)
  }

  /** Whenever a new finger comes up, a slot is still free. */
  predicate RoomForEveryNewFinger(ids: Ids, contacts: seq<Contact>) {
    forall k :: 0 <= k < |contacts| && IsNew(ids, contacts[k]) ==> Needed(ids, contacts[..k]) < MAX_CONTACTS
  }

  lemma {:induction false} CountFull(ids: seq<Option<byte>>)
    ensures Count(ids) <= |ids|
    ensures Count(ids) == |ids| <==> None !in ids
    decreases |ids|
  {
    if ids != [] {
      CountFull(DropLast(ids));
      assert ids == DropLast(ids) + [Last(ids)];
    }
  }

  lemma {:induction false} CountUpdate(ids: seq<Option<byte>>, s: nat, id: Option<byte>)
    requires s < |ids|
    ensures Count(ids[s := id]) == Count(ids) + (if id.Some? then 1 else 0) - (if ids[s].Some? then 1 else 0)
    decreases |ids|
  {
    if s < |ids| - 1 {
      CountUpdate(DropLast(ids), s, id);
      assert DropLast(ids[s := id]) == DropLast(ids)[s := id];
    } else {
      assert DropLast(ids[s := id]) == DropLast(ids);
    }
  }

  /** How one contact of a report changes the table when its writes are accepted. */
  function OneTable(ids: Ids, c: Contact): Ids {
    var s := if c.down then Claim(ids, c.id) else Find(ids, c.id);
    if s == MAX_CONTACTS then ids else ids[s := if c.down then Some(c.id) else None]
  }

  lemma OneContactTable(p: Progress, c: Contact)
    requires Unique(p.ids)
    ensures var r := OneContact(p, c);
            && Unique(r.ids)
            && (r.ok && p.ok ==> r.ids == OneTable(p.ids, c))
  {
  }

  lemma OneTableMembers(ids: Ids, c: Contact)
    requires Unique(ids)
    ensures var after := OneTable(ids, c);
            && Unique(after)
            && (forall id: byte :: id != c.id ==> (Some(id) in after <==> Some(id) in ids))
            && (Some(c.id) in after <==> c.down && (Some(c.id) in ids || None in ids))
            && (forall s :: 0 <= s < MAX_CONTACTS && ids[s].Some? && ids[s] != Some(c.id) ==> after[s] == ids[s])
            && (c.down ==> forall s :: 0 <= s < MAX_CONTACTS && ids[s] == Some(c.id) ==> after[s] == ids[s])
            && Count(after) == Count(ids) + (if c.down && Some(c.id) !in ids && None in ids then 1 else 0)
                                          - (if !c.down && Some(c.id) in ids then 1 else 0)
  {
    var s := if c.down then Claim(ids, c.id) else Find(ids, c.id);
    if s < MAX_CONTACTS {
      var id := if c.down then Some(c.id) else None;
      CountUpdate(ids, s, id);
      var after := ids[s := id];
      forall other | other != c.id
        ensures Some(other) in after <==> Some(other) in ids
      {
        if Some(other) in ids {
          var k :| 0 <= k < MAX_CONTACTS && ids[k] == Some(other);
          assert after[k] == Some(other);
        }
      }
      assert after[s] == id;
    }
  }

  lemma {:induction false} AllContactsTable(p: Progress, contacts: seq<Contact>)
    requires Unique(p.ids)
    ensures Unique(AllContacts(p, contacts).ids)
    decreases |contacts|
  {
    if contacts != [] {
      AllContactsTable(p, DropLast(contacts));
      OneContactTable(AllContacts(p, DropLast(contacts)), Last(contacts));
    }
  }

  lemma MentionedNotLast(contacts: seq<Contact>)
    requires contacts != [] && DistinctIds(contacts)
    ensures !Mentions(DropLast(contacts), Last(contacts).id) && DistinctIds(DropLast(contacts))
  {
  }

  /** A finger no contact names is in the table after them just when it was before. */
  lemma {:induction false} UnmentionedStays(p: Progress, contacts: seq<Contact>, id: byte)
    requires Unique(p.ids) && AllContacts(p, contacts).ok && p.ok && !Mentions(contacts, id)
    ensures Some(id) in AllContacts(p, contacts).ids <==> Some(id) in p.ids
    decreases |contacts|
  {
    if contacts != [] {
      var q := AllContacts(p, DropLast(contacts));
      assert contacts[|contacts| - 1].id != id;
      assert !Mentions(DropLast(contacts), id) by {
        assert forall j :: 0 <= j < |DropLast(contacts)| ==> DropLast(contacts)[j] == contacts[j];
      }
      UnmentionedStays(p, DropLast(contacts), id);
      AllContactsTable(p, DropLast(contacts));
      OneContactTable(q, Last(contacts));
      OneTableMembers(q.ids, Last(contacts));
    }
  }

  lemma RoomPrefix(ids: Ids, contacts: seq<Contact>)
    requires contacts != []
    ensures RoomForEveryNewFinger(ids, contacts)
            <==> && RoomForEveryNewFinger(ids, DropLast(contacts))
                 && (IsNew(ids, Last(contacts)) ==> Needed(ids, DropLast(contacts)) < MAX_CONTACTS)
  {
    var d := DropLast(contacts);
    assert forall k :: 0 <= k < |d| ==> d[..k] == contacts[..k] && d[k] == contacts[k];
    assert contacts[..|d|] == d;
  }

  lemma DownPrefix(contacts: seq<Contact>, id: byte)
    requires contacts != []
    ensures ReportedDown(contacts, id) <==> ReportedDown(DropLast(contacts), id) || (Last(contacts).id == id && Last(contacts).down)
  {
    var d := DropLast(contacts);
    if ReportedDown(d, id) {
      var j :| 0 <= j < |d| && d[j].id == id && d[j].down;
      assert contacts[j].id == id;
    }
  }

  /** With room for every new finger none is skipped, and the slots in use are the ones called for. */
  lemma {:induction false} RoomMeansNoneSkipped(p: Progress, contacts: seq<Contact>)
    requires Unique(p.ids) && AllContacts(p, contacts).ok && p.ok && DistinctIds(contacts)
    requires RoomForEveryNewFinger(p.ids, contacts)
    ensures var ids := AllContacts(p, contacts).ids;
            && Unique(ids)
            && Count(ids) == Needed(p.ids, contacts)
            && (forall id: byte :: ReportedDown(contacts, id) ==> Some(id) in ids)
    decreases |contacts|
  {
    AllContactsTable(p, contacts);
    if contacts != [] {
      hide Unique, Count, OneContact, OneTable, Mentions, DistinctIds, ReportedDown, RoomForEveryNewFinger;
      var before, c := DropLast(contacts), Last(contacts);
      var q := AllContacts(p, before);
      RoomPrefix(p.ids, contacts);
      MentionedNotLast(contacts);
      RoomMeansNoneSkipped(p, before);
      UnmentionedStays(p, before, c.id);
      OneContactTable(q, c);
      OneTableMembers(q.ids, c);
      CountFull(q.ids);
      forall id: byte | ReportedDown(contacts, id)
        ensures Some(id) in AllContacts(p, contacts).ids
      {
        DownPrefix(contacts, id);
      }
    }
  }

  /** The first new finger without room is skipped, and no later contact of the report brings it in. */
  lemma {:induction false} NoRoomMeansSkipped(p: Progress, contacts: seq<Contact>) returns (skipped: byte)
    requires Unique(p.ids) && AllContacts(p, contacts).ok && p.ok && DistinctIds(contacts)
    requires !RoomForEveryNewFinger(p.ids, contacts)
    ensures ReportedDown(contacts, skipped) && Mentions(contacts, skipped) && Some(skipped) !in AllContacts(p, contacts).ids
    decreases |contacts|
  {
    NoRoomNeedsContacts(p.ids, contacts);
    hide Unique, OneContact, OneTable, DistinctIds, RoomForEveryNewFinger, Mentions, ReportedDown;
    var before, c := DropLast(contacts), Last(contacts);
    RoomPrefix(p.ids, contacts);
    MentionedNotLast(contacts);
    LastContactTable(p, contacts);
    if !RoomForEveryNewFinger(p.ids, before) {
      skipped := NoRoomMeansSkipped(p, before);
    } else {
      RoomMeansNoneSkipped(p, before);
      UnmentionedStays(p, before, c.id);
      CountFull(AllContacts(p, before).ids);
      skipped := c.id;
    }
    DownPrefix(contacts, skipped);
    DownIsMentioned(contacts, skipped);
  }

  lemma NoRoomNeedsContacts(ids: Ids, contacts: seq<Contact>)
    requires !RoomForEveryNewFinger(ids, contacts)
    ensures contacts != []
  {
  }

  lemma DownIsMentioned(contacts: seq<Contact>, id: byte)
    requires ReportedDown(contacts, id)
    ensures Mentions(contacts, id)
  {
  }

  /** What the last contact of a report does to the table. */
  lemma LastContactTable(p: Progress, contacts: seq<Contact>)
    requires Unique(p.ids) && contacts != [] && AllContacts(p, contacts).ok && p.ok
    ensures var q, r, c := AllContacts(p, DropLast(contacts)), AllContacts(p, contacts), Last(contacts);
            && q.ok && Unique(q.ids)
            && (forall id: byte :: id != c.id ==> (Some(id) in r.ids <==> Some(id) in q.ids))
            && (Some(c.id) in r.ids <==> c.down && (Some(c.id) in q.ids || None in q.ids))
  {
    var q := AllContacts(p, DropLast(contacts));
    AllContactsTable(p, DropLast(contacts));
    OneContactTable(q, Last(contacts));
    OneTableMembers(q.ids, Last(contacts));
    hide Unique, OneContact, OneTable, Count;
  }

  lemma {:induction false} VanishedTable(p: Progress, contacts: seq<Contact>, live: seq<byte>)
    requires Unique(p.ids)
    ensures var r := AllVanished(p, contacts, live);
            && Unique(r.ids)
            && (forall s :: 0 <= s < MAX_CONTACTS && p.ids[s].Some? && Mentions(contacts, p.ids[s].value) ==> r.ids[s] == p.ids[s])
            && (forall s :: 0 <= s < MAX_CONTACTS && r.ids[s].Some? ==> r.ids[s] == p.ids[s])
    decreases |live|
  {
    if live != [] {
      hide Mentions;
      VanishedTable(p, contacts, DropLast(live));
    }
  }

  lemma ReportTable(p: Progress, contacts: seq<Contact>)
    requires Unique(p.ids) && p.ok && Report(p, contacts).ok
    ensures var a, r := AllContacts(p, contacts), Report(p, contacts);
            && a.ok && Unique(r.ids)
            && forall id: byte :: Mentions(contacts, id) ==> (Some(id) in r.ids <==> Some(id) in a.ids)
  {
    hide Mentions;
    var a, r := AllContacts(p, contacts), Report(p, contacts);
    AllContactsTable(p, contacts);
    VanishedTable(a, contacts, Live(p.ids));
    forall id: byte | Mentions(contacts, id) && Some(id) in a.ids
      ensures Some(id) in r.ids
    {
      var s :| 0 <= s < MAX_CONTACTS && a.ids[s] == Some(id);
      assert r.ids[s] == Some(id);
    }
  }

  /**
   * After a successful report of distinct fingers the live set is exactly the set reported
   * down, if and only if each new finger, as its turn came, still found a free slot.
   */
  lemma LiveIsDownExactlyWhen(p: Progress, contacts: seq<Contact>)
    requires Behind(p.ids, Seen(p.log)) && p.ok && Report(p, contacts).ok
    requires DistinctIds(contacts)
    ensures (forall id: byte :: Some(id) in Report(p, contacts).ids <==> ReportedDown(contacts, id))
            <==> RoomForEveryNewFinger(p.ids, contacts)
  {
    hide Seen, Report;
    var r := Report(p, contacts);
    ReportHeals(p, contacts);
    ReportTable(p, contacts);
    assert forall id: byte :: Some(id) in r.ids ==> ReportedDown(contacts, id);
    if RoomForEveryNewFinger(p.ids, contacts) {
      RoomMeansNoneSkipped(p, contacts);
      assert forall id: byte :: ReportedDown(contacts, id) ==> Mentions(contacts, id);
    } else {
      var skipped := NoRoomMeansSkipped(p, contacts);
      assert Some(skipped) !in r.ids;
    }
  }

  /** The new fingers of a report. */
  function NewDowns(ids: Ids, contacts: seq<Contact>): nat
    decreases |contacts|
  {
    if contacts == [] then 0
    else NewDowns(ids, DropLast(contacts)) + if IsNew(ids, Last(contacts)) then 1 else 0
  }

  lemma {:induction false} NeededIsBounded(ids: Ids, contacts: seq<Contact>, k: nat)
    requires k <= |contacts|
    ensures Needed(ids, contacts[..k]) <= Count(ids) + NewDowns(ids, contacts[..k])
    ensures NewDowns(ids, contacts[..k]) + (if k < |contacts| && IsNew(ids, contacts[k]) then 1 else 0) <= NewDowns(ids, contacts)
    decreases |contacts| - k, k
  {
    NeededAtMost(ids, contacts[..k]);
    if k == |contacts| {
      assert contacts[..k] == contacts;
    } else {
      NeededIsBounded(ids, contacts, k + 1);
      assert DropLast(contacts[..k + 1]) == contacts[..k];
    }
  }

  lemma {:induction false} NeededAtMost(ids: Ids, contacts: seq<Contact>)
    ensures Needed(ids, contacts) <= Count(ids) + NewDowns(ids, contacts)
    decreases |contacts|
  {
    if contacts != [] {
      NeededAtMost(ids, DropLast(contacts));
    }
  }

  /** Old and new fingers together within ten: the live set is exactly the down set. */
  lemma TenFingersFit(p: Progress, contacts: seq<Contact>)
    requires Behind(p.ids, Seen(p.log)) && p.ok && Report(p, contacts).ok
    requires DistinctIds(contacts)
    requires Count(p.ids) + NewDowns(p.ids, contacts) <= MAX_CONTACTS
    ensures forall id: byte :: Some(id) in Report(p, contacts).ids <==> ReportedDown(contacts, id)
  {
    forall k | 0 <= k < |contacts| && IsNew(p.ids, contacts[k])
      ensures Needed(p.ids, contacts[..k]) < MAX_CONTACTS
    {
      NeededIsBounded(p.ids, contacts, k);
    }
    LiveIsDownExactlyWhen(p, contacts);
  }

  /** The case it shuts out: ten fingers swapped for one new one in a single report leaves no finger live at all. */
  lemma SwapOfAllTenIsSkipped(p: Progress, c: Contact)
    requires Behind(p.ids, Seen(p.log)) && p.ok && Report(p, [c]).ok
    requires None !in p.ids && c.down && Some(c.id) !in p.ids
    ensures Live(Report(p, [c]).ids) == [] && ReportedDown([c], c.id)
  {
    assert AllContacts(p, [c]) == p by { assert DropLast([c]) == []; }
    ReportHeals(p, [c]);
    var r := Report(p, [c]);
    assert [c][0].id == c.id;
    VanishedTable(p, [c], Live(p.ids));
    forall s | 0 <= s < MAX_CONTACTS
      ensures r.ids[s] == None
    {
    }
    NoneLive(r.ids);
  }

  lemma {:induction false} NoneLive(ids: seq<Option<byte>>)
    requires forall s :: 0 <= s < |ids| ==> ids[s] == None
    ensures Live(ids) == []
    decreases |ids|
  {
    if ids != [] {
      NoneLive(DropLast(ids));
    }
  }

  // ---------------------------------------------------------------------------
  // A finger that stays down keeps its slot
  // ---------------------------------------------------------------------------

  lemma {:induction false} HeldThroughContacts(p: Progress, contacts: seq<Contact>, s: nat, id: byte)
    requires Unique(p.ids) && s < MAX_CONTACTS && p.ids[s] == Some(id)
    requires forall j :: 0 <= j < |contacts| && contacts[j].id == id ==> contacts[j].down
    ensures AllContacts(p, contacts).ids[s] == Some(id)
    decreases |contacts|
  {
    if contacts != [] {
      var q, c := AllContacts(p, DropLast(contacts)), Last(contacts);
      assert forall j :: 0 <= j < |DropLast(contacts)| ==> DropLast(contacts)[j] == contacts[j];
      HeldThroughContacts(p, DropLast(contacts), s, id);
      AllContactsTable(p, DropLast(contacts));
      assert contacts[|contacts| - 1] == c;
    }
  }

  /** A live finger reported down again, and never lifted in the report, stays in its slot, whether or not the writes succeed. */
  lemma FingerKeepsItsSlot(p: Progress, contacts: seq<Contact>, s: nat, id: byte)
    requires Unique(p.ids) && s < MAX_CONTACTS && p.ids[s] == Some(id)
    requires Mentions(contacts, id)
    requires forall j :: 0 <= j < |contacts| && contacts[j].id == id ==> contacts[j].down
    ensures Report(p, contacts).ids[s] == Some(id)
  {
    HeldThroughContacts(p, contacts, s, id);
    AllContactsTable(p, contacts);
    VanishedTable(AllContacts(p, contacts), contacts, Live(p.ids));
  }

  // ---------------------------------------------------------------------------
  // The digitiser in place
  // ---------------------------------------------------------------------------

  class Slots {
    const ids: array<Option<byte>>

    ghost predicate Valid()
      reads this
    {
      ids.Length == MAX_CONTACTS
    }

    constructor ()
      ensures Valid() && ids[..] == NO_FINGERS && fresh(ids)
    {
      ids := new Option<byte>[MAX_CONTACTS](_ => None);
      new;
      assert ids[..] == NO_FINGERS;
    }

    method Position(entry: Option<byte>) returns (s: nat)
      requires Valid()
      ensures s == IndexOf(ids[..], entry)
    {
      s := 0;
      while s < ids.Length && ids[s] != entry
        invariant s <= ids.Length
        invariant forall j :: 0 <= j < s ==> ids[j] != entry
      {
        s := s + 1;
      }
      IndexIs(ids[..], entry, s);
    }

    method ClaimSlot(id: byte) returns (s: nat)
      requires Valid()
      modifies ids
      ensures s == Claim(old(ids[..]), id)
      ensures ids[..] == if s == MAX_CONTACTS then old(ids[..]) else old(ids[..])[s := Some(id)]
    {
      s := Position(Some(id));
      if s < MAX_CONTACTS {
        assert ids[..] == ids[..][s := Some(id)];
        return;
      }
      s := Position(None);
      if s < MAX_CONTACTS {
        ids[s] := Some(id);
      }
    }

    method FindSlot(id: byte) returns (s: nat)
      requires Valid()
      ensures s == Find(ids[..], id)
    {
      s := Position(Some(id));
    }

    method ReleaseSlot(id: byte)
      requires Valid()
      modifies ids
      ensures var s := Find(old(ids[..]), id);
              ids[..] == if s == MAX_CONTACTS then old(ids[..]) else old(ids[..])[s := None]
    {
      var s := FindSlot(id);
      if s < MAX_CONTACTS {
        ids[s] := None;
      }
    }

    method LiveIds() returns (live: seq<byte>)
      requires Valid()
      ensures live == Live(ids[..])
    {
      live := [];
      for s := 0 to MAX_CONTACTS
        invariant live == Live(ids[..s])
      {
        assert DropLast(ids[..s + 1]) == ids[..s];
        if ids[s].Some? {
          live := live + [ids[s].value];
        }
      }
      assert ids[..MAX_CONTACTS] == ids[..];
    }
  }

  lemma IndexIs(s: seq<Option<byte>>, x: Option<byte>, i: nat)
    requires i <= |s| && (i < |s| ==> s[i] == x)
    requires forall j :: 0 <= j < i ==> s[j] != x
    ensures IndexOf(s, x) == i
  {
  }

  lemma {:induction false} FailureSticksInContacts(p: Progress, contacts: seq<Contact>, k: nat)
    requires k <= |contacts| && !AllContacts(p, contacts[..k]).ok
    ensures AllContacts(p, contacts) == AllContacts(p, contacts[..k])
    decreases |contacts|
  {
    if k == |contacts| {
      assert contacts[..k] == contacts;
    } else {
      assert contacts[..k] == DropLast(contacts)[..k];
      FailureSticksInContacts(p, DropLast(contacts), k);
    }
  }

  lemma {:induction false} FailureSticksInVanished(p: Progress, contacts: seq<Contact>, live: seq<byte>, k: nat)
    requires k <= |live| && !AllVanished(p, contacts, live[..k]).ok
    ensures AllVanished(p, contacts, live) == AllVanished(p, contacts, live[..k])
    decreases |live|
  {
    if k == |live| {
      assert live[..k] == live;
    } else {
      assert live[..k] == DropLast(live)[..k];
      FailureSticksInVanished(p, contacts, DropLast(live), k);
    }
  }

  class UinputTouch {
    const slots: Slots
    const device: Device

    ghost predicate Valid()
      reads this, slots, device
    {
      slots.Valid()
    }

    ghost function View(ok: bool): Progress
      requires Valid()
      reads this, slots, device, slots.ids
    {
      Progress(slots.ids[..], device.log, device.writes, ok)
    }

    constructor ()
      ensures Valid() && View(true) == Run([])
      ensures fresh(slots) && fresh(slots.ids) && fresh(device)
    {
      slots := new Slots();
      device := new Device();
    }

    method LiftSlot(slot: nat, id: byte) returns (ok: bool)
      requires Valid() && slot == Find(slots.ids[..], id) < MAX_CONTACTS
      modifies device, slots.ids
      ensures Valid() && View(ok) == Lift(old(View(true)), slot)
    {
      ok := device.Emit(LiftEvents(slot));
      if ok {
        slots.ReleaseSlot(id);
      }
    }

    method ReportContact(c: Contact) returns (ok: bool)
      requires Valid()
      modifies device, slots.ids
      ensures Valid() && View(ok) == OneContact(old(View(true)), c)
    {
      if c.down {
        var slot := slots.ClaimSlot(c.id);
        if slot == MAX_CONTACTS {
          return true;
        }
        ok := device.Emit(ContactEvents(slot, c));
      } else {
        var slot := slots.FindSlot(c.id);
        if slot == MAX_CONTACTS {
          return true;
        }
        ok := LiftSlot(slot, c.id);
      }
    }

    method ReportVanished(contacts: seq<Contact>, id: byte) returns (ok: bool)
      requires Valid()
      modifies device, slots.ids
      ensures Valid() && View(ok) == OneVanished(old(View(true)), contacts, id)
    {
      if Mentions(contacts, id) {
        return true;
      }
      var slot := slots.FindSlot(id);
      if slot == MAX_CONTACTS {
        return true;
      }
      ok := LiftSlot(slot, id);
    }

    /** The Touch port's report; the answer is false for a refused report and for a failed write. */
    method ReportTouch(contacts: seq<Contact>, writes: nat) returns (ok: bool)
      requires Valid()
      modifies device, slots.ids
      ensures Valid()
      ensures |contacts| > MAX_CONTACTS ==> !ok && View(false) == old(View(false))
      ensures |contacts| <= MAX_CONTACTS ==> View(ok) == Report(old(View(true)).(writes := writes), contacts)
    {
      if |contacts| > MAX_CONTACTS {
        return false;
      }
      device.writes := writes;
      ghost var start := View(true);
      var before := slots.LiveIds();
      for i := 0 to |contacts|
        invariant Valid() && View(true) == AllContacts(start, contacts[..i])
      {
        assert DropLast(contacts[..i + 1]) == contacts[..i];
        ok := ReportContact(contacts[i]);
        if !ok {
          FailureSticksInContacts(start, contacts, i + 1);
          return;
        }
      }
      assert contacts[..|contacts|] == contacts;
      ghost var mid := View(true);
      for i := 0 to |before|
        invariant Valid() && View(true) == AllVanished(mid, contacts, before[..i])
      {
        assert DropLast(before[..i + 1]) == before[..i];
        ok := ReportVanished(contacts, before[i]);
        if !ok {
          FailureSticksInVanished(mid, contacts, before, i + 1);
          return;
        }
      }
      assert before[..|before|] == before;
      var live := slots.LiveIds();
      var first := FirstDown(contacts);
      var tail := if first < |contacts| then [Abs(ABS_X, contacts[first].x), Abs(ABS_Y, contacts[first].y)] else [];
      ok := device.Emit(tail + [Key(BTN_TOUCH, Flag(live != [])), Syn]);
    }
  }
}
