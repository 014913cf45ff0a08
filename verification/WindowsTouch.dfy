/**
 * Touch through the Windows synthetic pointer API: each snapshot is turned into one frame
 * of Down, Update and Up moves, decided from the ids known to be down. An injection may
 * be refused, in which case the next report starts from what was known before it.
 */
module WindowsTouch {
  import opened Common
  import opened Bytes
  import opened TouchState
  import Rescale

  datatype Move = Down | Update | Up

  datatype Step = Step(id: byte, move: Move)

  datatype Position = Position(x: u16, y: u16)

  // ---------------------------------------------------------------------------
  // touch_moves
  // ---------------------------------------------------------------------------

  function ContactMove(known: seq<byte>, c: Contact): seq<Step> {
    if c.id !in known && c.down then [Step(c.id, Down)]
    else if c.id in known && c.down then [Step(c.id, Update)]
    else if c.id in known then [Step(c.id, Up)]
    else []
  }

  function ContactMoves(known: seq<byte>, contacts: seq<Contact>): seq<Step>
    decreases |contacts|
  {
    if contacts == [] then [] else ContactMoves(known, DropLast(contacts)) + ContactMove(known, Last(contacts))
  }

  function VanishedMoves(ids: seq<byte>, contacts: seq<Contact>): seq<Step>
    decreases |ids|
  {
    if ids == [] then []
    else VanishedMoves(DropLast(ids), contacts) + if Mentions(contacts, Last(ids)) then [] else [Step(Last(ids), Up)]
  }

  function TouchMoves(known: seq<byte>, contacts: seq<Contact>): seq<Step> {
    ContactMoves(known, contacts) + VanishedMoves(known, contacts)
  }

  method ComputeMoves(known: seq<byte>, contacts: seq<Contact>) returns (moves: seq<Step>)
    ensures moves == TouchMoves(known, contacts)
  {
    moves := [];
    for i := 0 to |contacts|
      invariant moves == ContactMoves(known, contacts[..i])
    {
      assert DropLast(contacts[..i + 1]) == contacts[..i];
      var c := contacts[i];
      var was := c.id in known;
      if !was && c.down {
        moves := moves + [Step(c.id, Down)];
      } else if was && c.down {
        moves := moves + [Step(c.id, Update)];
      } else if was {
        moves := moves + [Step(c.id, Up)];
      }
    }
    assert contacts[..|contacts|] == contacts;
    ghost var front := moves;
    for i := 0 to |known|
      invariant moves == front + VanishedMoves(known[..i], contacts)
    {
      assert DropLast(known[..i + 1]) == known[..i];
      if !Mentions(contacts, known[i]) {
        moves := moves + [Step(known[i], Up)];
      }
    }
    assert known[..|known|] == known;
  }

  // ---------------------------------------------------------------------------
  // The moves of one finger as a word
  // ---------------------------------------------------------------------------

  function Word(steps: seq<Step>, id: byte): seq<Move>
    decreases |steps|
  {
    if steps == [] then []
    else Word(DropLast(steps), id) + if Last(steps).id == id then [Last(steps).move] else []
  }

  /** Where a finger stands: lifted, down, or moved in a way no finger can. */
  datatype Phase = Lifted | Touching | Broken

  function Next(p: Phase, m: Move): Phase {
    match (p, m)
    case (Lifted, Down) => Touching
    case (Touching, Update) => Touching
    case (Touching, Up) => Lifted
    case _ => Broken
  }

  function After(p: Phase, w: seq<Move>): Phase
    decreases |w|
  {
    if w == [] then p else Next(After(p, DropLast(w)), Last(w))
  }

  function Stroke(updates: nat): seq<Move> {
    [Down] + Updates(updates) + [Up]
  }

  function Updates(n: nat): (w: seq<Move>)
    ensures |w| == n
  {
    seq(n, _ => Update)
  }

  /** Whole strokes one after the other. */
  function Strokes(updates: seq<nat>): seq<Move>
    decreases |updates|
  {
    if updates == [] then [] else Strokes(DropLast(updates)) + Stroke(Last(updates))
  }

  /** Whole strokes, and at most one stroke still going on at the end. */
  function Drawn(whole: seq<nat>, going: nat, p: Phase): seq<Move> {
    Strokes(whole) + if p == Touching then [Down] + Updates(going) else []
  }

  /** What an unbroken word that ends in phase `p` looks like. */
  ghost predicate IsStrokes(w: seq<Move>, p: Phase) {
    exists whole: seq<nat>, going: nat :: w == Drawn(whole, going, p)
  }

  lemma DrawnGoesOn(whole: seq<nat>, going: nat, p: Phase, m: Move)
    requires Next(p, m) != Broken
    ensures IsStrokes(Drawn(whole, going, p) + [m], Next(p, m))
  {
    match m
    case Down =>
      assert Drawn(whole, going, p) + [m] == Drawn(whole, 0, Touching);
    case Update =>
      assert Drawn(whole, going, p) + [m] == Drawn(whole, going + 1, Touching);
    case Up =>
      var more: seq<nat> := whole + [going];
      assert DropLast(more) == whole;
      assert Drawn(whole, going, p) + [m] == Drawn(more, 0, Lifted);
  }

  lemma {:induction false} UnbrokenIsStrokes(w: seq<Move>)
    requires After(Lifted, w) != Broken
    ensures IsStrokes(w, After(Lifted, w))
    decreases |w|
  {
    if w == [] {
      assert Drawn([], 0, Lifted) == [];
      assert w == Drawn([], 0, Lifted);
    } else {
      var before := DropLast(w);
      UnbrokenIsStrokes(before);
      var p := After(Lifted, before);
      var whole: seq<nat>, going: nat :| before == Drawn(whole, going, p);
      DrawnGoesOn(whole, going, p, Last(w));
      assert w == before + [Last(w)];
    }
  }

  lemma {:induction false} AfterAppends(p: Phase, v: seq<Move>, w: seq<Move>)
    ensures After(p, v + w) == After(After(p, v), w)
    decreases |w|
  {
    if w == [] {
      assert v + w == v;
    } else {
      AfterAppends(p, v, DropLast(w));
      assert DropLast(v + w) == v + DropLast(w);
    }
  }

  lemma {:induction false} WordAppends(a: seq<Step>, b: seq<Step>, id: byte)
    ensures Word(a + b, id) == Word(a, id) + Word(b, id)
    decreases |b|
  {
    if b == [] {
      assert a + b == a;
    } else {
      WordAppends(a, DropLast(b), id);
      assert DropLast(a + b) == a + DropLast(b);
    }
  }

  lemma WordSnoc(a: seq<Step>, move: seq<Step>, id: byte)
    requires |move| <= 1
    ensures Word(a + move, id) == Word(a, id) + if move != [] && move[0].id == id then [move[0].move] else []
  {
    if move == [] {
      assert a + move == a;
    } else {
      assert DropLast(a + move) == a;
    }
  }

  // ---------------------------------------------------------------------------
  // One report's moves, finger by finger
  // ---------------------------------------------------------------------------

  predicate NoRepeats(ids: seq<byte>) {
    forall i, j :: 0 <= i < j < |ids| ==> ids[i] != ids[j]
  }

  /** The one move a finger makes in a report, if any. */
  function MoveOf(known: bool, contacts: seq<Contact>, id: byte): seq<Move> {
    var i := FindContact(contacts, id);
    if i == |contacts| then (if known then [Up] else [])
    else if contacts[i].down then [if known then Update else Down]
    else if known then [Up]
    else []
  }

  lemma MentionsPrefix(contacts: seq<Contact>, id: byte)
    requires contacts != [] && DistinctIds(contacts)
    ensures DistinctIds(DropLast(contacts))
    ensures var d := DropLast(contacts);
            if Last(contacts).id == id then FindContact(contacts, id) == |d| && FindContact(d, id) == |d|
            else if FindContact(d, id) == |d| then FindContact(contacts, id) == |contacts|
            else FindContact(contacts, id) == FindContact(d, id)
  {
    var d, i, j := DropLast(contacts), FindContact(contacts, id), FindContact(DropLast(contacts), id);
    assert j < |d| ==> contacts[j].id == id;
    assert i < |d| ==> d[i].id == id;
  }

  /** The last contact moves its own finger; every other finger moves as in the report without it. */
  lemma LastContactMoves(known: bool, contacts: seq<Contact>, id: byte)
    requires contacts != [] && DistinctIds(contacts)
    ensures DistinctIds(DropLast(contacts))
    ensures var d, c := DropLast(contacts), Last(contacts);
            if c.id == id then
              && Mentions(contacts, id) && !Mentions(d, id)
              && MoveOf(known, contacts, id) == if c.down then [if known then Update else Down] else if known then [Up] else []
            else
              && (Mentions(contacts, id) <==> Mentions(d, id))
              && (Mentions(d, id) ==> MoveOf(known, contacts, id) == MoveOf(known, d, id))
  {
    hide FindContact;
    MentionsPrefix(contacts, id);
  }

  lemma {:induction false} ContactWord(known: seq<byte>, contacts: seq<Contact>, id: byte)
    requires DistinctIds(contacts)
    ensures Word(ContactMoves(known, contacts), id)
            == if Mentions(contacts, id) then MoveOf(id in known, contacts, id) else []
    decreases |contacts|
  {
    if contacts != [] {
      hide Word, FindContact, Mentions, MoveOf, DistinctIds;
      var d, c := DropLast(contacts), Last(contacts);
      LastContactMoves(id in known, contacts, id);
      ContactWord(known, d, id);
      WordSnoc(ContactMoves(known, d), ContactMove(known, c), id);
    }
  }

  lemma {:induction false} VanishedWord(ids: seq<byte>, contacts: seq<Contact>, id: byte)
    requires NoRepeats(ids)
    ensures Word(VanishedMoves(ids, contacts), id) == if id in ids && !Mentions(contacts, id) then [Up] else []
    decreases |ids|
  {
    if ids != [] {
      hide Word, FindContact, Mentions;
      VanishedWord(DropLast(ids), contacts, id);
      assert ids == DropLast(ids) + [Last(ids)];
      WordSnoc(VanishedMoves(DropLast(ids), contacts), if Mentions(contacts, Last(ids)) then [] else [Step(Last(ids), Up)], id);
    }
  }

  lemma ReportWord(known: seq<byte>, contacts: seq<Contact>, id: byte)
    requires DistinctIds(contacts) && NoRepeats(known)
    ensures Word(TouchMoves(known, contacts), id) == MoveOf(id in known, contacts, id)
  {
    ContactWord(known, contacts, id);
    VanishedWord(known, contacts, id);
    WordAppends(ContactMoves(known, contacts), VanishedMoves(known, contacts), id);
  }

  // ---------------------------------------------------------------------------
  // The digitiser
  // ---------------------------------------------------------------------------

  /** A contact area in pixels. */
  datatype Rect = Rect(left: int, top: int, right: int, bottom: int)

  /** One pointer of one injected frame. */
  datatype Pointer = Pointer(pointerId: nat, frame: u32, move: Move, at: Rescale.Pixel, area: Rect, pressure: nat)

  datatype Touch = Touch(down: seq<byte>, lastAt: map<byte, Position>, frame: u32)

  const NO_TOUCH := Touch([], map[], 0)

  function PositionOf(c: Contact): Position {
    Position(c.x, c.y)
  }

  /** Where a move happens: at the contact, else where the finger was last, else at the origin. */
  function WhereAt(t: Touch, contacts: seq<Contact>, id: byte): Position {
    var i := FindContact(contacts, id);
    if i < |contacts| then PositionOf(contacts[i])
    else if id in t.lastAt then t.lastAt[id]
    else Position(0, 0)
  }

  function Half(size: u16): nat {
    if size / 2 > 2 then size / 2 else 2
  }

  function AreaAround(at: Rescale.Pixel, halfW: nat, halfH: nat): Rect {
    Rect(at.x - halfW, at.y - halfH, at.x + halfW, at.y + halfH)
  }

  function PointerOf(t: Touch, contacts: seq<Contact>, screen: Rescale.Screen, s: Step): Pointer {
    var at := WhereAt(t, contacts, s.id);
    var i := FindContact(contacts, s.id);
    var known := i < |contacts|;
    var pixel := Rescale.PixelOf(screen, at.x, at.y);
    Pointer(s.id as nat + 1, t.frame, s.move, pixel,
            AreaAround(pixel,
                       if known then Half(contacts[i].width) else 2,
                       if known then Half(contacts[i].height) else 2),
            if known then Rescale.PenPressure(contacts[i].pressure) else 0)
  }

  function Pointers(t: Touch, contacts: seq<Contact>, screen: Rescale.Screen, moves: seq<Step>): (f: seq<Pointer>)
    ensures |f| == |moves|
  {
    seq(|moves|, i requires 0 <= i < |moves| => PointerOf(t, contacts, screen, moves[i]))
  }

  function Without(ids: seq<byte>, id: byte): (r: seq<byte>)
    ensures forall x :: x in r <==> x in ids && x != id
    ensures NoRepeats(ids) ==> NoRepeats(r)
    decreases |ids|
  {
    if ids == [] then []
    else
      var rest := Without(DropLast(ids), id);
      assert ids == DropLast(ids) + [Last(ids)];
      if Last(ids) == id then rest
      else
        assert NoRepeats(ids) ==> Last(ids) !in DropLast(ids);
        rest + [Last(ids)]
  }

  /** What is remembered of one injected move. */
  function Settle(t: Touch, contacts: seq<Contact>, s: Step): Touch {
    var moved := match s.move
      case Down => t.(down := t.down + [s.id])
      case Up => t.(down := Without(t.down, s.id), lastAt := t.lastAt - {s.id})
      case Update => t;
    var i := FindContact(contacts, s.id);
    if i < |contacts| then moved.(lastAt := moved.lastAt[s.id := PositionOf(contacts[i])]) else moved
  }

  function SettleAll(t: Touch, contacts: seq<Contact>, moves: seq<Step>): Touch
    decreases |moves|
  {
    if moves == [] then t else Settle(SettleAll(t, contacts, DropLast(moves)), contacts, Last(moves))
  }

  /** The next frame number, whether or not the frame is taken. */
  function Bumped(t: Touch): (b: Touch)
    ensures b.lastAt == t.lastAt
  {
    t.(frame := (t.frame as int + 1) % 0x1_0000_0000)
  }

  datatype Call = Call(contacts: seq<Contact>, screen: Rescale.Screen, accepted: bool)

  datatype Answer = Answer(touch: Touch, ok: bool, injected: seq<Pointer>)

  function Report(t: Touch, call: Call): Answer {
    if |call.contacts| > MAX_CONTACTS then Answer(t, false, [])
    else
      var moves := TouchMoves(t.down, call.contacts);
      if moves == [] then Answer(t, true, [])
      else
        var bumped := Bumped(t);
        if !call.accepted then Answer(bumped, false, [])
        else Answer(SettleAll(bumped, call.contacts, moves), true, Pointers(bumped, call.contacts, call.screen, moves))
  }

  /** A refused report or injection leaves what is known of the fingers alone. */
  lemma FailureKeepsKnowledge(t: Touch, call: Call)
    requires !Report(t, call).ok
    ensures Report(t, call).touch.down == t.down && Report(t, call).touch.lastAt == t.lastAt
    ensures Report(t, call).injected == []
  {
  }

  // ---------------------------------------------------------------------------
  // Whole runs
  // ---------------------------------------------------------------------------

  predicate IsDown(contacts: seq<Contact>, id: byte) {
    var i := FindContact(contacts, id);
    i < |contacts| && contacts[i].down
  }

  /** The digitiser, everything injected so far, and the last report that succeeded. */
  datatype History = History(touch: Touch, steps: seq<Step>, previous: seq<Contact>)

  function Steps(pointers: seq<Pointer>): (s: seq<Step>)
    requires forall p :: p in pointers ==> 1 <= p.pointerId <= 0x100
    ensures |s| == |pointers|
  {
    seq(|pointers|, i requires 0 <= i < |pointers| => Step(pointers[i].pointerId - 1, pointers[i].move))
  }

  function Advance(h: History, call: Call): History {
    var a := Report(h.touch, call);
    if a.ok then
      History(a.touch, h.steps + TouchMoves(h.touch.down, call.contacts), call.contacts)
    else h.(touch := a.touch)
  }

  function Run(calls: seq<Call>): History
    decreases |calls|
  {
    if calls == [] then History(NO_TOUCH, [], []) else Advance(Run(DropLast(calls)), Last(calls))
  }

  /** The moves logged are the moves of the pointers injected. */
  lemma PointersCarryMoves(t: Touch, contacts: seq<Contact>, screen: Rescale.Screen, moves: seq<Step>)
    ensures Steps(Pointers(t, contacts, screen, moves)) == moves
  {
  }

  ghost predicate Inv(h: History) {
    && NoRepeats(h.touch.down)
    && (forall id: byte :: id in h.touch.down <==> IsDown(h.previous, id))
    && (forall id: byte :: id in h.touch.down ==>
          id in h.touch.lastAt && h.touch.lastAt[id] == PositionOf(h.previous[FindContact(h.previous, id)]))
    && (forall id: byte :: After(Lifted, Word(h.steps, id)) == if id in h.touch.down then Touching else Lifted)
  }

  lemma {:induction false} SettleDown(t: Touch, contacts: seq<Contact>, moves: seq<Step>, id: byte)
    requires After(if id in t.down then Touching else Lifted, Word(moves, id)) != Broken
    ensures id in SettleAll(t, contacts, moves).down
            <==> After(if id in t.down then Touching else Lifted, Word(moves, id)) == Touching
    decreases |moves|
  {
    if moves != [] {
      var before := DropLast(moves);
      var p := if id in t.down then Touching else Lifted;
      if Last(moves).id == id {
        assert DropLast(Word(moves, id)) == Word(before, id);
      } else {
        assert Word(moves, id) == Word(before, id);
      }
      SettleDown(t, contacts, before, id);
    }
  }

  lemma {:induction false} SettleKeepsNoRepeats(t: Touch, contacts: seq<Contact>, moves: seq<Step>)
    requires NoRepeats(t.down)
    requires forall id: byte :: After(if id in t.down then Touching else Lifted, Word(moves, id)) != Broken
    ensures NoRepeats(SettleAll(t, contacts, moves).down)
    decreases |moves|
  {
    if moves != [] {
      var before, s := DropLast(moves), Last(moves);
      forall id: byte
        ensures After(if id in t.down then Touching else Lifted, Word(before, id)) != Broken
      {
        if s.id == id {
          assert DropLast(Word(moves, id)) == Word(before, id);
        } else {
          assert Word(moves, id) == Word(before, id);
        }
      }
      SettleKeepsNoRepeats(t, contacts, before);
      SettleDown(t, contacts, before, s.id);
      assert DropLast(Word(moves, s.id)) == Word(before, s.id);
    }
  }

  lemma {:induction false} SettlePosition(t: Touch, contacts: seq<Contact>, moves: seq<Step>, id: byte)
    requires Mentions(contacts, id) && Word(moves, id) != []
    ensures var u := SettleAll(t, contacts, moves);
            id in u.lastAt && u.lastAt[id] == PositionOf(contacts[FindContact(contacts, id)])
    decreases |moves|
  {
    if Last(moves).id != id {
      assert Word(moves, id) == Word(DropLast(moves), id);
      SettlePosition(t, contacts, DropLast(moves), id);
    }
  }

  lemma {:induction false} SettleForgets(t: Touch, contacts: seq<Contact>, moves: seq<Step>, id: byte)
    requires !Mentions(contacts, id)
    requires forall i :: 0 <= i < |moves| && moves[i].id == id ==> moves[i].move == Up
    ensures var u := SettleAll(t, contacts, moves);
            if Word(moves, id) != [] then id !in u.lastAt
            else (id in u.lastAt <==> id in t.lastAt) && (id in t.lastAt ==> u.lastAt[id] == t.lastAt[id])
    decreases |moves|
  {
    if moves != [] {
      SettleForgets(t, contacts, DropLast(moves), id);
      assert FindContact(contacts, id) == |contacts|;
    }
  }

  lemma {:induction false} OneMoveIsIt(moves: seq<Step>, id: byte, move: Move, i: nat)
    requires i < |moves| && moves[i].id == id && forall k :: 0 <= k < |Word(moves, id)| ==> Word(moves, id)[k] == move
    ensures moves[i].move == move
    decreases |moves|
  {
    var w, before := Word(moves, id), Word(DropLast(moves), id);
    if i < |moves| - 1 {
      assert forall k :: 0 <= k < |before| ==> before[k] == w[k];
      OneMoveIsIt(DropLast(moves), id, move, i);
    } else {
      assert w[|w| - 1] == moves[i].move;
    }
  }

  /** A finger that vanished from a successful report is forgotten, position and all. */
  lemma VanishedIsForgotten(t: Touch, call: Call, id: byte)
    requires DistinctIds(call.contacts) && NoRepeats(t.down)
    requires Report(t, call).ok && id in t.down && !Mentions(call.contacts, id)
    ensures id !in Report(t, call).touch.lastAt
  {
    var moves := TouchMoves(t.down, call.contacts);
    ReportWord(t.down, call.contacts, id);
    forall i | 0 <= i < |moves| && moves[i].id == id
      ensures moves[i].move == Up
    {
      OneMoveIsIt(moves, id, Up, i);
    }
    hide TouchMoves, Word;
    SettleForgets(Bumped(t), call.contacts, moves, id);
  }

  lemma OneMove(p: Phase, m: Move)
    ensures After(p, [m]) == Next(p, m)
  {
    assert DropLast([m]) == [];
  }

  lemma AdvanceKeepsInv(h: History, call: Call)
    requires Inv(h) && DistinctIds(call.contacts)
    ensures Inv(Advance(h, call))
  {
    hide Word, SettleAll, TouchMoves, FindContact, Pointers;
    var a := Report(h.touch, call);
    if a.ok {
      var contacts, known := call.contacts, h.touch.down;
      var moves := TouchMoves(known, contacts);
      var bumped := h.touch.(frame := (h.touch.frame as int + 1) % 0x1_0000_0000);
      forall id: byte
        ensures Word(moves, id) == MoveOf(id in known, contacts, id)
        ensures After(if id in known then Touching else Lifted, Word(moves, id)) == if IsDown(contacts, id) then Touching else Lifted
        ensures After(Lifted, Word(h.steps + moves, id)) == if IsDown(contacts, id) then Touching else Lifted
      {
        ReportWord(known, contacts, id);
        var p := if id in known then Touching else Lifted;
        OneMove(p, Up);
        OneMove(p, Update);
        OneMove(p, Down);
        WordAppends(h.steps, moves, id);
        AfterAppends(Lifted, Word(h.steps, id), Word(moves, id));
      }
      if moves == [] {
        NoMovesNoDowns(known, contacts);
      } else {
        SettleKeepsNoRepeats(bumped, contacts, moves);
        forall id: byte
          ensures id in a.touch.down <==> IsDown(contacts, id)
          ensures IsDown(contacts, id) ==>
                    id in a.touch.lastAt && a.touch.lastAt[id] == PositionOf(contacts[FindContact(contacts, id)])
        {
          SettleDown(bumped, contacts, moves, id);
          if IsDown(contacts, id) {
            SettlePosition(bumped, contacts, moves, id);
          }
        }
      }
    }
  }

  lemma NoMovesNoDowns(known: seq<byte>, contacts: seq<Contact>)
    requires DistinctIds(contacts) && NoRepeats(known)
    requires TouchMoves(known, contacts) == []
    ensures known == []
    ensures forall id: byte :: !IsDown(contacts, id)
  {
    forall id: byte
      ensures !IsDown(contacts, id)
    {
      ReportWord(known, contacts, id);
    }
    if known != [] {
      ReportWord(known, contacts, known[0]);
      assert false;
    }
  }

  predicate AllDistinct(calls: seq<Call>) {
    forall call :: call in calls ==> DistinctIds(call.contacts)
  }

  lemma {:induction false} RunKeepsInv(calls: seq<Call>)
    requires AllDistinct(calls)
    ensures Inv(Run(calls))
    decreases |calls|
  {
    if calls != [] {
      hide Inv;
      RunKeepsInv(DropLast(calls));
      assert Last(calls) in calls;
      AdvanceKeepsInv(Run(DropLast(calls)), Last(calls));
    } else {
      assert forall id: byte :: Word([], id) == [];
    }
  }

  /** Over every run of distinct-id reports, refused ones included, each finger's injected moves are strokes. */
  lemma EveryFingerDrawsStrokes(calls: seq<Call>, id: byte)
    requires AllDistinct(calls)
    ensures var h := Run(calls);
            IsStrokes(Word(h.steps, id), if id in h.touch.down then Touching else Lifted)
  {
    RunKeepsInv(calls);
    UnbrokenIsStrokes(Word(Run(calls).steps, id));
  }

  /** Over every run, `down` lists each finger of the last successful report that was down, once. */
  lemma DownIsReportedDown(calls: seq<Call>)
    requires AllDistinct(calls)
    ensures var h := Run(calls);
            && NoRepeats(h.touch.down)
            && forall id: byte :: id in h.touch.down <==> IsDown(h.previous, id)
  {
    RunKeepsInv(calls);
  }

  /**
   * Every pointer injected after any run sits at its contact, or, for a vanished finger, where
   * the last successful report had it; the origin fallback is never taken.
   */
  lemma PointersSitWhereReported(calls: seq<Call>, call: Call, k: nat)
    requires AllDistinct(calls) && DistinctIds(call.contacts)
    requires k < |Report(Run(calls).touch, call).injected|
    ensures var h := Run(calls);
            var s := TouchMoves(h.touch.down, call.contacts);
            && k < |s|
            && var reported := if Mentions(call.contacts, s[k].id) then call.contacts else h.previous;
               && Mentions(reported, s[k].id)
               && var c := reported[FindContact(reported, s[k].id)];
                  Report(h.touch, call).injected[k].at == Rescale.PixelOf(call.screen, c.x, c.y)
  {
    RunKeepsInv(calls);
    var h := Run(calls);
    var moves := TouchMoves(h.touch.down, call.contacts);
    MoveIsInWord(moves, k);
    ReportWord(h.touch.down, call.contacts, moves[k].id);
  }

  /** A side of a contact area: the reported size, at most one pixel short, and never under four. */
  predicate SideOf(side: int, size: u16) {
    if size < 4 then side == 4 else side % 2 == 0 && size - 1 <= side <= size
  }

  /** An area of those sides around a pixel. */
  predicate AreaOf(area: Rect, at: Rescale.Pixel, width: u16, height: u16) {
    && area.left + area.right == 2 * at.x && area.top + area.bottom == 2 * at.y
    && SideOf(area.right - area.left, width) && SideOf(area.bottom - area.top, height)
  }

  /** A finger's pixel on a screen: both coordinates rescaled and rounded down. */
  predicate PixelIs(at: Rescale.Pixel, screen: Rescale.Screen, x: u16, y: u16) {
    && 65535 * (at.x - screen.left) <= x * (screen.width - 1) < 65535 * (at.x - screen.left) + 65535
    && 65535 * (at.y - screen.top) <= y * (screen.height - 1) < 65535 * (at.y - screen.top) + 65535
  }

  /** A pointer that shows a contact: its position, its width and height, its pressure on the 0..=1024 scale. */
  predicate ShowsContact(p: Pointer, screen: Rescale.Screen, c: Contact) {
    && PixelIs(p.at, screen, c.x, c.y) && AreaOf(p.area, p.at, c.width, c.height)
    && 65535 * p.pressure <= 1024 * c.pressure < 65535 * p.pressure + 65535
  }

  /** A pointer that shows a finger no longer reported: where it was last, four pixels wide and high, without pressure. */
  ghost predicate ShowsVanished(p: Pointer, screen: Rescale.Screen, previous: seq<Contact>) {
    && AreaOf(p.area, p.at, 0, 0) && p.pressure == 0
    && exists i :: && 0 <= i < |previous| && previous[i].id as int + 1 == p.pointerId && previous[i].down
                   && PixelIs(p.at, screen, previous[i].x, previous[i].y)
  }

  /**
   * After any run, each pointer of an injected frame shows its finger as this report has it,
   * and a finger missing from the report as the last successful one had it.
   */
  lemma PointersShowContacts(calls: seq<Call>, call: Call, k: nat)
    requires AllDistinct(calls) && DistinctIds(call.contacts)
    requires k < |Report(Run(calls).touch, call).injected|
    ensures var p, h := Report(Run(calls).touch, call).injected[k], Run(calls);
            && (forall i :: 0 <= i < |call.contacts| && call.contacts[i].id as int + 1 == p.pointerId ==>
                  ShowsContact(p, call.screen, call.contacts[i]))
            && ((forall i :: 0 <= i < |call.contacts| ==> call.contacts[i].id as int + 1 != p.pointerId) ==>
                  ShowsVanished(p, call.screen, h.previous))
  {
    hide *;
    RunKeepsInv(calls);
    var h := Run(calls);
    InjectedIs(h.touch, call, k);
    VanishedWasDown(h, call.contacts, k);
    PointerShows(Bumped(h.touch), call.contacts, call.screen, TouchMoves(h.touch.down, call.contacts)[k], h.previous);
  }

  lemma InjectedIs(t: Touch, call: Call, k: nat)
    requires k < |Report(t, call).injected|
    ensures var moves := TouchMoves(t.down, call.contacts);
            k < |moves| && Report(t, call).injected[k] == PointerOf(Bumped(t), call.contacts, call.screen, moves[k])
  {
    hide TouchMoves, PointerOf, SettleAll;
  }

  lemma VanishedWasDown(h: History, contacts: seq<Contact>, k: nat)
    requires Inv(h) && DistinctIds(contacts) && k < |TouchMoves(h.touch.down, contacts)|
    ensures var id := TouchMoves(h.touch.down, contacts)[k].id;
            !Mentions(contacts, id) ==>
              && IsDown(h.previous, id) && id in h.touch.lastAt
              && h.touch.lastAt[id] == PositionOf(h.previous[FindContact(h.previous, id)])
  {
    var moves := TouchMoves(h.touch.down, contacts);
    var id := moves[k].id;
    if !Mentions(contacts, id) {
      MoveIsInWord(moves, k);
      ReportWord(h.touch.down, contacts, id);
      hide TouchMoves, Word, After, Next;
    }
  }

  lemma PointerShows(t: Touch, contacts: seq<Contact>, screen: Rescale.Screen, s: Step, previous: seq<Contact>)
    requires DistinctIds(contacts)
    requires !Mentions(contacts, s.id) ==>
               && IsDown(previous, s.id) && s.id in t.lastAt
               && t.lastAt[s.id] == PositionOf(previous[FindContact(previous, s.id)])
    ensures var p := PointerOf(t, contacts, screen, s);
            && p.pointerId == s.id as int + 1
            && (forall i :: 0 <= i < |contacts| && contacts[i].id as int + 1 == p.pointerId ==>
                  ShowsContact(p, screen, contacts[i]))
            && ((forall i :: 0 <= i < |contacts| ==> contacts[i].id as int + 1 != p.pointerId) ==>
                  ShowsVanished(p, screen, previous))
  {
    var i := FindContact(contacts, s.id);
    assert PointerOf(t, contacts, screen, s).pointerId == s.id as int + 1;
    if i < |contacts| {
      ContactIsShown(t, contacts, screen, s);
      assert forall k :: 0 <= k < |contacts| && contacts[k].id == s.id ==> k == i;
    } else {
      VanishedIsShown(t, contacts, screen, s, previous);
    }
    hide PointerOf, ShowsContact, ShowsVanished, FindContact;
  }

  lemma ContactIsShown(t: Touch, contacts: seq<Contact>, screen: Rescale.Screen, s: Step)
    requires FindContact(contacts, s.id) < |contacts|
    ensures ShowsContact(PointerOf(t, contacts, screen, s), screen, contacts[FindContact(contacts, s.id)])
  {
    var p, c := PointerOf(t, contacts, screen, s), contacts[FindContact(contacts, s.id)];
    AreaIs(p.at, c.width, c.height);
    hide Half, AreaAround, AreaOf, Rescale.Scaled, FindContact;
  }

  lemma VanishedIsShown(t: Touch, contacts: seq<Contact>, screen: Rescale.Screen, s: Step, previous: seq<Contact>)
    requires FindContact(contacts, s.id) == |contacts| && IsDown(previous, s.id)
    requires s.id in t.lastAt && t.lastAt[s.id] == PositionOf(previous[FindContact(previous, s.id)])
    ensures ShowsVanished(PointerOf(t, contacts, screen, s), screen, previous)
  {
    var p, c := PointerOf(t, contacts, screen, s), previous[FindContact(previous, s.id)];
    AreaIs(p.at, 0, 0);
    hide AreaAround, AreaOf, Rescale.Scaled, FindContact;
    assert PixelIs(p.at, screen, c.x, c.y);
  }

  lemma AreaIs(at: Rescale.Pixel, width: u16, height: u16)
    ensures AreaOf(AreaAround(at, Half(width), Half(height)), at, width, height)
  {
  }

  lemma {:induction false} MoveIsInWord(moves: seq<Step>, k: nat)
    requires k < |moves|
    ensures Word(moves, moves[k].id) != []
    decreases |moves|
  {
    if k < |moves| - 1 {
      MoveIsInWord(DropLast(moves), k);
    }
  }

  // ---------------------------------------------------------------------------
  // Frames
  // ---------------------------------------------------------------------------

  function MovedIds(moves: seq<Step>): set<byte> {
    set i | 0 <= i < |moves| :: moves[i].id
  }

  lemma {:induction false} WordCountsMoves(moves: seq<Step>, i: nat, j: nat)
    requires i < j < |moves| && moves[i].id == moves[j].id
    ensures |Word(moves, moves[i].id)| >= 2
    decreases |moves|
  {
    if j < |moves| - 1 {
      WordCountsMoves(DropLast(moves), i, j);
    } else {
      assert DropLast(moves)[i] == moves[i];
      MoveIsInWord(DropLast(moves), i);
    }
  }

  lemma {:induction false} NoMoveNoWord(moves: seq<Step>, id: byte)
    requires id !in MovedIds(moves)
    ensures Word(moves, id) == []
    decreases |moves|
  {
    if moves != [] {
      assert Last(moves).id in MovedIds(moves);
      assert forall i :: 0 <= i < |moves| - 1 ==> DropLast(moves)[i].id in MovedIds(moves);
      NoMoveNoWord(DropLast(moves), id);
    }
  }

  lemma {:induction false} DistinctMovesCount(moves: seq<Step>)
    requires forall i, j :: 0 <= i < j < |moves| ==> moves[i].id != moves[j].id
    ensures |MovedIds(moves)| == |moves|
    decreases |moves|
  {
    if moves != [] {
      DistinctMovesCount(DropLast(moves));
      assert MovedIds(moves) == MovedIds(DropLast(moves)) + {Last(moves).id};
    }
  }

  /** The fingers that were down or are reported down. */
  function Touched(known: seq<byte>, contacts: seq<Contact>): set<byte> {
    (set i | 0 <= i < |known| :: known[i]) + set i | 0 <= i < |contacts| && contacts[i].down :: contacts[i].id
  }

  lemma OneMovePerFinger(known: seq<byte>, contacts: seq<Contact>)
    requires DistinctIds(contacts) && NoRepeats(known)
    ensures var moves := TouchMoves(known, contacts);
            && (forall i, j :: 0 <= i < j < |moves| ==> moves[i].id != moves[j].id)
            && |moves| == |Touched(known, contacts)|
  {
    hide TouchMoves, Word;
    var moves := TouchMoves(known, contacts);
    forall i, j | 0 <= i < j < |moves|
      ensures moves[i].id != moves[j].id
    {
      if moves[i].id == moves[j].id {
        WordCountsMoves(moves, i, j);
        ReportWord(known, contacts, moves[i].id);
        assert false;
      }
    }
    DistinctMovesCount(moves);
    assert MovedIds(moves) == Touched(known, contacts) by {
      MovedAreTouched(known, contacts);
    }
  }

  /**
   * After any run, the frame a report injects holds one pointer for each finger that was
   * down or is reported down, and no other.
   */
  lemma OnePointerPerFinger(calls: seq<Call>, call: Call)
    requires AllDistinct(calls) && DistinctIds(call.contacts)
    requires Report(Run(calls).touch, call).ok
    ensures var frame := Report(Run(calls).touch, call).injected;
            && (forall i, j :: 0 <= i < j < |frame| ==> frame[i].pointerId != frame[j].pointerId)
            && |frame| == |Touched(Run(calls).touch.down, call.contacts)|
  {
    RunKeepsInv(calls);
    OneMovePerFinger(Run(calls).touch.down, call.contacts);
    hide TouchMoves, SettleAll, Touched, FindContact;
  }

  /** A device created for ten pointers takes a frame exactly when it has no more than ten. */
  predicate TenPointerDevice(t: Touch, call: Call) {
    call.accepted <==> |TouchMoves(t.down, call.contacts)| <= MAX_CONTACTS
  }

  /** On such a device a report succeeds if and only if old and new fingers together number at most ten. */
  lemma SucceedsExactlyWhenTenFit(calls: seq<Call>, call: Call)
    requires AllDistinct(calls) && DistinctIds(call.contacts) && |call.contacts| <= MAX_CONTACTS
    requires TenPointerDevice(Run(calls).touch, call)
    ensures Report(Run(calls).touch, call).ok <==> |Touched(Run(calls).touch.down, call.contacts)| <= MAX_CONTACTS
  {
    RunKeepsInv(calls);
    OneMovePerFinger(Run(calls).touch.down, call.contacts);
    hide TouchMoves, SettleAll, Pointers, Touched;
  }

  /** The same report made `n` more times. */
  function Again(calls: seq<Call>, call: Call, n: nat): seq<Call> {
    if n == 0 then calls else Again(calls, call, n - 1) + [call]
  }

  /** A report with more than ten fingers to move stays refused however often it is made, since nothing is learnt from it. */
  lemma {:induction false} RefusedStaysRefused(calls: seq<Call>, call: Call, n: nat)
    requires AllDistinct(calls) && DistinctIds(call.contacts) && |call.contacts| <= MAX_CONTACTS
    requires TenPointerDevice(Run(calls).touch, call)
    requires |Touched(Run(calls).touch.down, call.contacts)| > MAX_CONTACTS
    ensures AllDistinct(Again(calls, call, n))
    ensures var t := Run(Again(calls, call, n)).touch;
            t.down == Run(calls).touch.down && TenPointerDevice(t, call) && !Report(t, call).ok
    decreases n
  {
    hide *;
    AgainUnfolds(calls, call, n);
    if n == 0 {
      SucceedsExactlyWhenTenFit(calls, call);
    } else {
      var before := Again(calls, call, n - 1);
      RefusedStaysRefused(calls, call, n - 1);
      RefusalTeachesNothing(before, call);
      SucceedsExactlyWhenTenFit(before + [call], call);
    }
  }

  lemma AgainUnfolds(calls: seq<Call>, call: Call, n: nat)
    ensures Again(calls, call, n) == if n == 0 then calls else Again(calls, call, n - 1) + [call]
  {
  }

  lemma RefusalTeachesNothing(before: seq<Call>, call: Call)
    requires AllDistinct(before) && DistinctIds(call.contacts)
    requires TenPointerDevice(Run(before).touch, call) && !Report(Run(before).touch, call).ok
    ensures AllDistinct(before + [call])
    ensures var t := Run(before + [call]).touch; t.down == Run(before).touch.down && TenPointerDevice(t, call)
  {
    assert DropLast(before + [call]) == before;
    FailureKeepsKnowledge(Run(before).touch, call);
    hide Report, TouchMoves;
  }

  /** Ten fingers down side by side, with ids from `first` on. */
  function TenFingers(first: byte): (c: seq<Contact>)
    requires first <= 100
    ensures |c| == 10 && forall i :: 0 <= i < 10 ==> c[i].id == first + i && c[i].down
  {
    seq(10, i requires 0 <= i < 10 => Contact(first + i, 0, 0, 0, 0, 0, true))
  }

  function Numbers(n: nat): (r: set<byte>)
    requires n <= 0x100
    ensures |r| == n && forall x: byte :: x in r <==> x < n
  {
    if n == 0 then {} else Numbers(n - 1) + {n - 1}
  }

  /** Two reports bring it about: ten fingers down, then ten others in their place, which asks for twenty pointers. */
  lemma SwapOfTenIsRefusedForGood(screen: Rescale.Screen, n: nat)
    ensures var first, swap := Call(TenFingers(0), screen, true), Call(TenFingers(10), screen, false);
            && Report(NO_TOUCH, first).ok
            && |TouchMoves(Run([first]).touch.down, swap.contacts)| == 20
            && TenPointerDevice(NO_TOUCH, first) && TenPointerDevice(Run([first]).touch, swap)
            && !Report(Run(Again([first], swap, n)).touch, swap).ok
  {
    var first, swap := Call(TenFingers(0), screen, true), Call(TenFingers(10), screen, false);
    FirstTenFit(NO_TOUCH.down, first.contacts);
    FirstReportSucceeds(first);
    SwapAsksForTwenty(first, swap.contacts);
    OneCallIsDistinct(first);
    TenAreDistinct(10);
    hide TouchMoves, Touched, TenFingers, Report, Run;
    RefusedStaysRefused([first], swap, n);
  }

  lemma TenAreDistinct(first: byte)
    requires first <= 100
    ensures DistinctIds(TenFingers(first)) && |TenFingers(first)| <= MAX_CONTACTS
  {
  }

  lemma OneCallIsDistinct(call: Call)
    requires call.contacts == TenFingers(0)
    ensures AllDistinct([call])
  {
    TenAreDistinct(0);
  }

  lemma TouchedCount(known: seq<byte>, contacts: seq<Contact>, n: nat)
    requires n <= 0x100 && forall id: byte :: id in Touched(known, contacts) <==> id < n
    ensures |Touched(known, contacts)| == n
  {
    hide Touched;
    assert Touched(known, contacts) == Numbers(n);
  }

  lemma FirstTenFit(known: seq<byte>, ten: seq<Contact>)
    requires known == [] && ten == TenFingers(0)
    ensures |TouchMoves(known, ten)| == 10
  {
    TenAreDistinct(0);
    forall id: byte
      ensures id in Touched(known, ten) <==> id < 10
    {
      TouchedTen(known, 0, id);
    }
    hide TouchMoves, Touched, TenFingers;
    OneMovePerFinger(known, ten);
    TouchedCount(known, ten, 10);
  }

  lemma SwapAsksForTwenty(first: Call, others: seq<Contact>)
    requires first.contacts == TenFingers(0) && others == TenFingers(10)
    requires Run([first]).previous == first.contacts
    ensures var down := Run([first]).touch.down;
            |TouchMoves(down, others)| == 20 && |Touched(down, others)| == 20
  {
    OneCallIsDistinct(first);
    DownIsReportedDown([first]);
    TenAreDistinct(10);
    var down := Run([first]).touch.down;
    hide Run;
    forall id: byte
      ensures id in Touched(down, others) <==> id < 20
    {
      TouchedTen(down, 10, id);
      TenAreDown(id);
    }
    hide TouchMoves, Touched, TenFingers;
    OneMovePerFinger(down, others);
    TouchedCount(down, others, 20);
  }

  lemma FirstReportSucceeds(call: Call)
    requires call.accepted && |call.contacts| <= MAX_CONTACTS
    ensures Report(NO_TOUCH, call).ok
    ensures Run([call]).previous == call.contacts
  {
    hide TouchMoves, SettleAll, Pointers;
    assert DropLast([call]) == [];
  }

  lemma TouchedTen(known: seq<byte>, first: byte, id: byte)
    requires first <= 100
    ensures id in Touched(known, TenFingers(first)) <==> id in known || first <= id < first + 10
  {
    if first <= id < first + 10 {
      assert TenFingers(first)[id - first].id == id;
    }
  }

  lemma TenAreDown(id: byte)
    ensures IsDown(TenFingers(0), id) <==> id < 10
  {
    DownIsTouched(TenFingers(0), id);
    if id < 10 {
      assert TenFingers(0)[id].id == id;
    }
  }

  lemma MovedAreTouched(known: seq<byte>, contacts: seq<Contact>)
    requires DistinctIds(contacts) && NoRepeats(known)
    ensures MovedIds(TouchMoves(known, contacts)) == Touched(known, contacts)
  {
    hide TouchMoves, Word, FindContact;
    var moves := TouchMoves(known, contacts);
    forall id: byte
      ensures id in MovedIds(moves) <==> id in Touched(known, contacts)
    {
      ReportWord(known, contacts, id);
      DownIsTouched(contacts, id);
      if id in MovedIds(moves) {
        var k :| 0 <= k < |moves| && moves[k].id == id;
        MoveIsInWord(moves, k);
      } else {
        NoMoveNoWord(moves, id);
      }
    }
  }

  lemma DownIsTouched(contacts: seq<Contact>, id: byte)
    requires DistinctIds(contacts)
    ensures IsDown(contacts, id) <==> exists i :: 0 <= i < |contacts| && contacts[i].down && contacts[i].id == id
  {
  }

  /** The reports of a run that had anything to inject, accepted or not. */
  function Attempts(calls: seq<Call>): nat
    decreases |calls|
  {
    if calls == [] then 0
    else
      var before, call := Run(DropLast(calls)), Last(calls);
      var tried := |call.contacts| <= MAX_CONTACTS && TouchMoves(before.touch.down, call.contacts) != [];
      Attempts(DropLast(calls)) + if tried then 1 else 0
  }

  /** Frame numbers count the attempts, refused ones too, and all pointers of a frame share one. */
  lemma {:induction false} FramesCountAttempts(calls: seq<Call>)
    ensures Run(calls).touch.frame == Attempts(calls) % 0x1_0000_0000
    ensures calls != [] ==>
              forall p :: p in Report(Run(DropLast(calls)).touch, Last(calls)).injected ==>
                p.frame == Attempts(calls) % 0x1_0000_0000
    decreases |calls|
  {
    if calls != [] {
      hide Report, TouchMoves;
      FramesCountAttempts(DropLast(calls));
      ReportCountsFrame(Run(DropLast(calls)).touch, Last(calls));
      NextFrame(Attempts(DropLast(calls)));
    }
  }

  lemma NextFrame(n: nat)
    ensures (n % 0x1_0000_0000 + 1) % 0x1_0000_0000 == (n + 1) % 0x1_0000_0000
  {
  }

  lemma ReportCountsFrame(t: Touch, call: Call)
    ensures var tried := |call.contacts| <= MAX_CONTACTS && TouchMoves(t.down, call.contacts) != [];
            var a := Report(t, call);
            && a.touch.frame == (if tried then (t.frame as int + 1) % 0x1_0000_0000 else t.frame as int)
            && forall p :: p in a.injected ==> p.frame == a.touch.frame
  {
    hide TouchMoves, Settle, FindContact;
    var moves := TouchMoves(t.down, call.contacts);
    SettleKeepsFrame(t.(frame := (t.frame as int + 1) % 0x1_0000_0000), call.contacts, moves);
  }

  lemma {:induction false} SettleKeepsFrame(t: Touch, contacts: seq<Contact>, moves: seq<Step>)
    ensures SettleAll(t, contacts, moves).frame == t.frame
    decreases |moves|
  {
    if moves != [] {
      SettleKeepsFrame(t, contacts, DropLast(moves));
    }
  }

  // ---------------------------------------------------------------------------
  // The digitiser in place
  // ---------------------------------------------------------------------------

  class SyntheticTouch {
    var down: seq<byte>
    var lastAt: map<byte, Position>
    var frame: u32

    ghost function View(): Touch
      reads this
    {
      Touch(down, lastAt, frame)
    }

    constructor ()
      ensures View() == NO_TOUCH
    {
      down, lastAt, frame := [], map[], 0;
    }

    method SettleMove(contacts: seq<Contact>, s: Step)
      modifies this
      ensures View() == Settle(old(View()), contacts, s)
    {
      match s.move {
        case Down =>
          down := down + [s.id];
        case Up =>
          down := Without(down, s.id);
          lastAt := lastAt - {s.id};
        case Update =>
      }
      var i := FindContact(contacts, s.id);
      if i < |contacts| {
        lastAt := lastAt[s.id := PositionOf(contacts[i])];
      }
    }

    /** The frame to inject for a report's moves. */
    method Frames(contacts: seq<Contact>, screen: Rescale.Screen, moves: seq<Step>) returns (frames: seq<Pointer>)
      ensures frames == Pointers(View(), contacts, screen, moves)
    {
      hide FindContact, Rescale.PixelOf, Rescale.PenPressure, Half;
      frames := [];
      for i := 0 to |moves|
        invariant |frames| == i
        invariant forall k :: 0 <= k < i ==> frames[k] == PointerOf(View(), contacts, screen, moves[k])
      {
        var s := moves[i];
        var c := FindContact(contacts, s.id);
        var at := if c < |contacts| then PositionOf(contacts[c]) else if s.id in lastAt then lastAt[s.id] else Position(0, 0);
        var pixel := Rescale.PixelOf(screen, at.x, at.y);
        var halfW, halfH := 2, 2;
        if c < |contacts| {
          halfW, halfH := Half(contacts[c].width), Half(contacts[c].height);
        }
        var area := Rect(pixel.x - halfW, pixel.y - halfH, pixel.x + halfW, pixel.y + halfH);
        frames := frames + [Pointer(s.id as nat + 1, frame, s.move, pixel, area,
                                    if c < |contacts| then Rescale.PenPressure(contacts[c].pressure) else 0)];
      }
    }

    /** The Touch port's report; `accepted` is what the injection answers. */
    method ReportTouch(contacts: seq<Contact>, screen: Rescale.Screen, accepted: bool) returns (ok: bool, injected: seq<Pointer>)
      modifies this
      ensures Answer(View(), ok, injected) == Report(old(View()), Call(contacts, screen, accepted))
    {
      hide TouchMoves, Settle, Pointers;
      injected := [];
      if |contacts| > MAX_CONTACTS {
        return false, [];
      }
      var moves := ComputeMoves(down, contacts);
      if moves == [] {
        return true, [];
      }
      frame := (frame as int + 1) % 0x1_0000_0000;
      ghost var bumped := View();
      var frames := Frames(contacts, screen, moves);
      if !accepted {
        return false, [];
      }
      for i := 0 to |moves|
        invariant View() == SettleAll(bumped, contacts, moves[..i])
      {
        assert DropLast(moves[..i + 1]) == moves[..i];
        SettleMove(contacts, moves[i]);
      }
      assert moves[..|moves|] == moves;
      return true, frames;
    }
  }
}
