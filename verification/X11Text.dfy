/**
 * Text typed through an X server's own keyboard mapping. A character the mapping lacks
 * borrows a spare keycode for one tap. The server applies mapping changes and key events,
 * and may refuse any request.
 */
module X11Text {
  import opened Common
  import opened Bytes

  type Keysym = u32

  /** A Unicode scalar value. */
  type Scalar = c: int | 0 <= c <= 0x10_FFFF && !(0xD800 <= c <= 0xDFFF)

  type Row = seq<Keysym>

  // ---------------------------------------------------------------------------
  // Characters as keysyms
  // ---------------------------------------------------------------------------

  const UNICODE_KEYSYM: nat := 0x0100_0000
  const XK_TAB: nat := 0xff09
  const XK_RETURN: nat := 0xff0d

  predicate IsLatin1(c: int) {
    0x20 <= c <= 0x7e || 0xa0 <= c <= 0xff
  }

  /**
   * The keysym a server types for a character: Return and Tab have their own, printable
   * ASCII and Latin-1 are their code points, and any other is its code point above 0x0100_0000.
   */
  predicate TypesAs(keysym: Keysym, c: Scalar) {
    && (c == 0x0a ==> keysym == 0xff0d)
    && (c == 0x09 ==> keysym == 0xff09)
    && (0x20 <= c < 0x7f || 0xa0 <= c < 0x100 ==> keysym == c)
    && (c < 0x09 || 0x0a < c < 0x20 || 0x7f <= c < 0xa0 || c >= 0x100 ==> keysym == 0x0100_0000 + c)
  }

  function KeysymOfChar(c: Scalar): (k: Keysym)
    ensures TypesAs(k, c)
  {
    if c == 0x0a then XK_RETURN
    else if c == 0x09 then XK_TAB
    else if IsLatin1(c) then c
    else UNICODE_KEYSYM + c
  }

  /** The sum above is the bitwise or of the source: no code point reaches bit 24. */
  lemma UnicodeKeysymIsBitwiseOr(c: bv32)
    requires c <= 0x10_FFFF
    ensures 0x0100_0000 | c == 0x0100_0000 + c
  {
  }

  /** The log grew by the characters of a text, one keysym each, in order. */
  predicate Typed(before: seq<Keysym>, after: seq<Keysym>, text: seq<Scalar>) {
    && |after| == |before| + |text| && before <= after
    && forall i :: 0 <= i < |text| ==> TypesAs(after[|before| + i], text[i])
  }

  /** No two texts are typed alike. */
  lemma TextIsRecoverable(before: seq<Keysym>, after: seq<Keysym>, text: seq<Scalar>, other: seq<Scalar>)
    requires Typed(before, after, text) && Typed(before, after, other)
    ensures text == other
  {
    forall i | 0 <= i < |text|
      ensures text[i] == other[i]
    {
      assert TypesAs(after[|before| + i], text[i]) && TypesAs(after[|before| + i], other[i]);
    }
  }

  // ---------------------------------------------------------------------------
  // The server
  // ---------------------------------------------------------------------------

  datatype Error = Unsupported | Backend

  datatype Outcome = Done | Failed(error: Error)

  /** Keycode `first + r` carries `rows[r]`; `answers` says which of the coming requests are accepted. */
  datatype Server = Server(first: nat, rows: seq<Row>, held: set<nat>, typed: seq<Keysym>, answers: seq<bool>)

  datatype Reply = Reply(server: Server, outcome: Outcome)

  predicate Has(s: Server, keycode: nat) {
    && s.first <= keycode < s.first + |s.rows|
    && s.rows[keycode - s.first] != []
  }

  /** The answer to the request `k` requests from now; after the last one the connection is gone. */
  predicate Answer(s: Server, k: nat) {
    k < |s.answers| && s.answers[k]
  }

  function Asked(s: Server): Server {
    if s.answers == [] then s else s.(answers := s.answers[1..])
  }

  /** A press of a key that is up types its unmodified keysym; one of a key already down types nothing. */
  function PressKey(s: Server, keycode: nat, pressed: bool): Reply
    requires Has(s, keycode)
  {
    var t := Asked(s);
    if !Answer(s, 0) then Reply(t, Failed(Backend))
    else if !pressed then Reply(t.(held := t.held - {keycode}), Done)
    else if keycode in t.held then Reply(t, Done)
    else Reply(t.(held := t.held + {keycode}, typed := t.typed + [t.rows[keycode - t.first][0]]), Done)
  }

  function Filled(keysym: Keysym, width: nat): (r: Row)
    ensures |r| == width
  {
    seq(width, _ => keysym)
  }

  function ChangeMapping(s: Server, keycode: nat, row: Row): Reply
    requires Has(s, keycode)
  {
    var t := Asked(s);
    if !Answer(s, 0) then Reply(t, Failed(Backend))
    else Reply(t.(rows := t.rows[keycode - t.first := row]), Done)
  }

  // ---------------------------------------------------------------------------
  // The keyboard
  // ---------------------------------------------------------------------------

  /** What the client keeps of the mapping it read when it opened the display. */
  datatype Board = Board(first: nat, rows: seq<Row>, width: nat, spare: Option<nat>)

  predicate Blank(row: Row) {
    forall i :: 0 <= i < |row| ==> row[i] == 0
  }

  function FirstBlank(rows: seq<Row>): (r: nat)
    ensures r <= |rows|
    ensures r < |rows| ==> Blank(rows[r])
    ensures forall j :: 0 <= j < r ==> !Blank(rows[j])
  {
    FirstIndex(rows, (row: Row) => Blank(row))
  }

  predicate Leads(row: Row, keysym: Keysym) {
    row != [] && row[0] == keysym
  }

  function FirstLed(rows: seq<Row>, keysym: Keysym): (r: nat)
    ensures r <= |rows|
    ensures r < |rows| ==> Leads(rows[r], keysym)
    ensures forall j :: 0 <= j < r ==> !Leads(rows[j], keysym)
  {
    FirstIndex(rows, (row: Row) => Leads(row, keysym))
  }

  function Opened(first: nat, rows: seq<Row>, width: nat): Board {
    Board(first, rows, width, if FirstBlank(rows) < |rows| then Some(first + FirstBlank(rows)) else None)
  }

  function UnshiftedKeycode(b: Board, keysym: Keysym): Option<nat> {
    var r := FirstLed(b.rows, keysym);
    if r < |b.rows| then Some(b.first + r) else None
  }

  function Tap(s: Server, keycode: nat): Reply
    requires Has(s, keycode)
  {
    var down := PressKey(s, keycode, true);
    if down.outcome != Done then down else PressKey(down.server, keycode, false)
  }

  /** The spare key is given back whatever became of the tap, and the tap's failure is the one told. */
  function Borrow(b: Board, s: Server, keysym: Keysym): Reply
    requires b.width >= 1 && (b.spare.Some? ==> Has(s, b.spare.value))
  {
    if b.spare.None? then Reply(s, Failed(Unsupported))
    else
      var lent := ChangeMapping(s, b.spare.value, Filled(keysym, b.width));
      if lent.outcome != Done then lent
      else
        var tapped := Tap(lent.server, b.spare.value);
        var restored := ChangeMapping(tapped.server, b.spare.value, Filled(0, b.width));
        Reply(restored.server, if tapped.outcome != Done then tapped.outcome else restored.outcome)
  }

  /**
   * What every request keeps: the server's mapping differs from the one the client cached
   * in the spare key's row at most.
   */
  ghost predicate Tracks(b: Board, s: Server) {
    && b.width >= 1 && s.first == b.first && |s.rows| == |b.rows|
    && (forall r :: 0 <= r < |b.rows| ==> |b.rows[r]| == b.width && |s.rows[r]| == b.width)
    && (b.spare.Some? ==> b.first <= b.spare.value < b.first + |b.rows| && Blank(b.rows[b.spare.value - b.first]))
    && (forall r :: 0 <= r < |b.rows| ==> s.rows[r] == b.rows[r] || b.spare == Some(b.first + r))
  }

  /** Some symbol of the key is bound. */
  predicate Bound(row: Row) {
    exists i :: 0 <= i < |row| && row[i] != 0
  }

  lemma BlankIsUnbound(row: Row)
    ensures Blank(row) <==> !Bound(row)
  {
  }

  /** A keyboard just opened agrees with its server; its spare key is the first with nothing bound, if there is one. */
  lemma OpenedTracks(s: Server, width: nat)
    requires width >= 1 && forall r :: 0 <= r < |s.rows| ==> |s.rows[r]| == width
    ensures var b := Opened(s.first, s.rows, width);
            && Tracks(b, s) && s.rows == b.rows
            && (b.spare.None? ==> forall r :: 0 <= r < |s.rows| ==> Bound(s.rows[r]))
            && (b.spare.Some? ==>
                  var spare := b.spare.value - b.first;
                  && 0 <= spare < |s.rows| && !Bound(s.rows[spare])
                  && forall r :: 0 <= r < spare ==> Bound(s.rows[r]))
  {
    forall r | 0 <= r < |s.rows|
      ensures Blank(s.rows[r]) <==> !Bound(s.rows[r])
    {
      BlankIsUnbound(s.rows[r]);
    }
    hide Blank, Bound, FirstBlank;
  }

  function TypeChar(b: Board, s: Server, c: Scalar): Reply
    requires Tracks(b, s)
  {
    var key := UnshiftedKeycode(b, KeysymOfChar(c));
    if key.Some? then Tap(s, key.value) else Borrow(b, s, KeysymOfChar(c))
  }

  lemma TapKeeps(s: Server, keycode: nat)
    requires Has(s, keycode)
    ensures var t := Tap(s, keycode).server;
            t.first == s.first && t.rows == s.rows && |t.answers| <= |s.answers|
  {
  }

  lemma CharKeepsTracking(b: Board, s: Server, c: Scalar)
    requires Tracks(b, s)
    ensures Tracks(b, TypeChar(b, s, c).server)
  {
    hide Tap;
    var keysym := KeysymOfChar(c);
    var key := UnshiftedKeycode(b, keysym);
    if key.Some? {
      TapKeeps(s, key.value);
    } else if b.spare.Some? {
      var lent := ChangeMapping(s, b.spare.value, Filled(keysym, b.width)).server;
      TapKeeps(lent, b.spare.value);
    }
  }

  function TypeText(b: Board, s: Server, text: seq<Scalar>): Reply
    requires Tracks(b, s)
    decreases |text|
  {
    if text == [] then Reply(s, Done)
    else
      var one := TypeChar(b, s, text[0]);
      CharKeepsTracking(b, s, text[0]);
      if one.outcome != Done then one else TypeText(b, one.server, text[1..])
  }

  // ---------------------------------------------------------------------------
  // One character
  // ---------------------------------------------------------------------------

  /** No key types the character without modifiers. */
  predicate NeedsSpare(b: Board, c: Scalar) {
    forall r :: 0 <= r < |b.rows| && b.rows[r] != [] ==> !TypesAs(b.rows[r][0], c)
  }

  lemma NeedsSpareIs(b: Board, c: Scalar)
    ensures NeedsSpare(b, c) <==> UnshiftedKeycode(b, KeysymOfChar(c)).None?
  {
    var led := FirstLed(b.rows, KeysymOfChar(c));
    if led < |b.rows| {
      assert TypesAs(b.rows[led][0], c);
    } else {
      forall r | 0 <= r < |b.rows| && b.rows[r] != []
        ensures !TypesAs(b.rows[r][0], c)
      {
        assert !Leads(b.rows[r], KeysymOfChar(c));
      }
    }
  }

  /** The key a character is typed on. */
  function KeyFor(b: Board, c: Scalar): Option<nat> {
    if NeedsSpare(b, c) then b.spare else UnshiftedKeycode(b, KeysymOfChar(c))
  }

  predicate Free(b: Board, s: Server, c: Scalar) {
    KeyFor(b, c).Some? ==> KeyFor(b, c).value !in s.held
  }

  lemma TapTypes(s: Server, keycode: nat)
    requires Has(s, keycode) && keycode !in s.held
    ensures var r := Tap(s, keycode);
            && (r.outcome == Done || r.outcome == Failed(Backend))
            && (r.outcome == Done <==> Answer(s, 0) && Answer(s, 1))
            && r.server.typed == s.typed + (if Answer(s, 0) then [s.rows[keycode - s.first][0]] else [])
            && r.server.held == (if Answer(s, 0) && !Answer(s, 1) then s.held + {keycode} else s.held)
            && r.server.answers == (if |s.answers| < 2 then [] else if s.answers[0] then s.answers[2..] else s.answers[1..])
  {
  }

  /** A keysym is never zero, so a character's own key is never the spare one. */
  lemma OwnKeyIsNotSpare(b: Board, s: Server, c: Scalar)
    requires Tracks(b, s) && !NeedsSpare(b, c)
    ensures b.spare != KeyFor(b, c)
    ensures s.rows[KeyFor(b, c).value - s.first][0] == KeysymOfChar(c)
  {
    NeedsSpareIs(b, c);
    var r := FirstLed(b.rows, KeysymOfChar(c));
    assert Leads(b.rows[r], KeysymOfChar(c));
    assert KeysymOfChar(c) != 0;
  }

  lemma CharOnOwnKey(b: Board, s: Server, c: Scalar)
    requires Tracks(b, s) && Free(b, s, c) && !NeedsSpare(b, c)
    ensures var r := TypeChar(b, s, c);
            && (r.outcome == Done <==> Answer(s, 0) && Answer(s, 1))
            && (r.outcome == Done || r.outcome == Failed(Backend))
            && r.server.typed == s.typed + (if Answer(s, 0) then [KeysymOfChar(c)] else [])
            && r.server.rows == s.rows
            && (r.outcome == Done ==> r.server.held == s.held && r.server.answers == s.answers[2..])
  {
    NeedsSpareIs(b, c);
    OwnKeyIsNotSpare(b, s, c);
    hide FirstLed, KeysymOfChar, NeedsSpare, TypesAs;
    TapTypes(s, KeyFor(b, c).value);
    TapKeeps(s, KeyFor(b, c).value);
    hide Tap;
  }

  /** Whether a borrow that was granted is also given back. */
  predicate GivenBack(s: Server) {
    if Answer(s, 1) then Answer(s, 3) else Answer(s, 2)
  }

  lemma CharOnSpareKey(b: Board, s: Server, c: Scalar)
    requires Tracks(b, s) && Free(b, s, c) && NeedsSpare(b, c) && b.spare.Some?
    ensures var r := TypeChar(b, s, c);
            && (r.outcome == Done <==> Answer(s, 0) && Answer(s, 1) && Answer(s, 2) && Answer(s, 3))
            && (r.outcome == Done || r.outcome == Failed(Backend))
            && r.server.typed == s.typed + (if Answer(s, 0) && Answer(s, 1) then [KeysymOfChar(c)] else [])
            && r.server.rows == (if !Answer(s, 0) then s.rows
                                 else if GivenBack(s) then b.rows
                                 else b.rows[b.spare.value - b.first := Filled(KeysymOfChar(c), b.width)])
            && (r.outcome == Done ==> r.server.held == s.held && r.server.answers == s.answers[4..])
  {
    NeedsSpareIs(b, c);
    hide FirstLed, KeysymOfChar, NeedsSpare, TypesAs;
    var spare, keysym := b.spare.value, KeysymOfChar(c);
    var lent := ChangeMapping(s, spare, Filled(keysym, b.width)).server;
    if Answer(s, 0) {
      TapTypes(lent, spare);
      TapKeeps(lent, spare);
      var tapped := Tap(lent, spare).server;
      BlankRowIsZeros(b.rows[spare - b.first]);
      assert lent.rows == b.rows[spare - b.first := Filled(keysym, b.width)];
      assert b.rows[spare - b.first := Filled(0, b.width)] == b.rows;
      assert lent.rows[spare - b.first := Filled(0, b.width)] == b.rows;
      hide Tap;
    }
  }

  lemma BlankRowIsZeros(row: Row)
    requires Blank(row)
    ensures row == Filled(0, |row|)
  {
  }

  // ---------------------------------------------------------------------------
  // Whole texts
  // ---------------------------------------------------------------------------

  lemma {:induction false} TextKeepsTracking(b: Board, s: Server, text: seq<Scalar>)
    requires Tracks(b, s)
    ensures Tracks(b, TypeText(b, s, text).server)
    decreases |text|
  {
    if text != [] {
      CharKeepsTracking(b, s, text[0]);
      var one := TypeChar(b, s, text[0]);
      if one.outcome == Done {
        TextKeepsTracking(b, one.server, text[1..]);
      }
    }
  }

  predicate AllFree(b: Board, s: Server, text: seq<Scalar>) {
    forall i :: 0 <= i < |text| ==> Free(b, s, text[i])
  }

  /** What one character does, whichever key it is typed on. */
  lemma CharTypes(b: Board, s: Server, c: Scalar)
    requires Tracks(b, s) && Free(b, s, c)
    ensures var r := TypeChar(b, s, c);
            && (r.outcome == Done ==> r.server.typed == s.typed + [KeysymOfChar(c)] && r.server.held == s.held)
            && (r.outcome == Done && NeedsSpare(b, c) ==> r.server.rows == b.rows)
            && (r.outcome == Done && !NeedsSpare(b, c) ==> r.server.rows == s.rows)
            && (r.server.typed == s.typed || r.server.typed == s.typed + [KeysymOfChar(c)])
            && (r.outcome == Failed(Unsupported) <==> NeedsSpare(b, c) && b.spare.None?)
            && (r.outcome == Failed(Unsupported) ==> r.server == s)
  {
    NeedsSpareIs(b, c);
    hide NeedsSpare, KeysymOfChar, FirstLed;
    if !NeedsSpare(b, c) {
      CharOnOwnKey(b, s, c);
      hide TypeChar;
    } else if b.spare.Some? {
      CharOnSpareKey(b, s, c);
      hide TypeChar;
    }
  }

  /** `r` typed the first `n` characters and nothing else; success means all of them and no key left down. */
  predicate TypedFront(s: Server, text: seq<Scalar>, r: Reply, n: nat) {
    && n <= |text|
    && Typed(s.typed, r.server.typed, text[..n])
    && (r.outcome == Done ==> n == |text| && r.server.held == s.held)
  }

  /** Character `n` is the first with neither a key of its own nor a spare one. */
  predicate StuckAt(b: Board, text: seq<Scalar>, n: nat) {
    && b.spare.None? && n < |text| && NeedsSpare(b, text[n])
    && forall i :: 0 <= i < n ==> !NeedsSpare(b, text[i])
  }

  lemma OneMoreTyped(s: Server, one: Server, text: seq<Scalar>, r: Reply, n: nat)
    requires text != [] && one.typed == s.typed + [KeysymOfChar(text[0])] && one.held == s.held
    requires TypedFront(one, text[1..], r, n)
    ensures TypedFront(s, text, r, n + 1)
  {
    hide KeysymOfChar, TypesAs;
    assert forall i :: 0 <= i < n ==> text[..n + 1][i + 1] == text[1..][..n][i];
  }

  lemma StuckLater(b: Board, text: seq<Scalar>, n: nat)
    requires text != [] && StuckAt(b, text[1..], n)
    requires b.spare.None? ==> !NeedsSpare(b, text[0])
    ensures StuckAt(b, text, n + 1)
  {
    assert forall i :: 0 < i < |text| ==> text[i] == text[1..][i - 1];
  }

  lemma StopsAtOnce(b: Board, s: Server, text: seq<Scalar>) returns (n: nat)
    requires Tracks(b, s) && AllFree(b, s, text)
    requires text != [] && TypeChar(b, s, text[0]).outcome != Done
    ensures TypedFront(s, text, TypeChar(b, s, text[0]), n)
    ensures TypeChar(b, s, text[0]).outcome == Failed(Unsupported) ==> StuckAt(b, text, n)
  {
    hide TypeChar, NeedsSpare, Free, KeysymOfChar, Tracks, TypesAs, AllFree;
    FirstIsFree(b, s, text);
    CharTypes(b, s, text[0]);
    n := if TypeChar(b, s, text[0]).server.typed == s.typed then 0 else 1;
  }

  /**
   * Text types exactly its characters in order, or a front part of them when a request is
   * refused or a character needs a spare key there is none of.
   */
  lemma {:induction false} TextTypesItself(b: Board, s: Server, text: seq<Scalar>) returns (n: nat)
    requires Tracks(b, s) && AllFree(b, s, text)
    ensures var r := TypeText(b, s, text);
            && TypedFront(s, text, r, n)
            && (r.outcome == Failed(Unsupported) ==> StuckAt(b, text, n))
    decreases |text|
  {
    if text == [] {
      n := 0;
    } else {
      hide TypeChar, NeedsSpare, Free, KeysymOfChar, Tracks, TypesAs, AllFree;
      var c := text[0];
      var one := TypeChar(b, s, c);
      if one.outcome == Done {
        FirstIsFree(b, s, text);
        CharTypes(b, s, c);
        CharKeepsTracking(b, s, c);
        hide TypedFront, StuckAt;
        AllFreeStays(b, s, one.server, text);
        var rest := TextTypesItself(b, one.server, text[1..]);
        var r := TypeText(b, one.server, text[1..]);
        OneMoreTyped(s, one.server, text, r, rest);
        if r.outcome == Failed(Unsupported) {
          StuckLater(b, text, rest);
        }
        n := 1 + rest;
      } else {
        n := StopsAtOnce(b, s, text);
      }
    }
  }

  /**
   * The mapping read at the start holds again after every text that succeeds, when it held
   * before or the text borrowed the spare key: a borrow heals what an earlier failure left.
   */
  lemma {:induction false} MappingHoldsAgain(b: Board, s: Server, text: seq<Scalar>)
    requires Tracks(b, s) && AllFree(b, s, text)
    requires TypeText(b, s, text).outcome == Done
    requires s.rows == b.rows || exists i :: 0 <= i < |text| && NeedsSpare(b, text[i])
    ensures TypeText(b, s, text).server.rows == b.rows
    decreases |text|
  {
    if text != [] {
      hide TypeChar, NeedsSpare, Free, KeysymOfChar, Tracks, AllFree;
      var c := text[0];
      var one := TypeChar(b, s, c);
      FirstIsFree(b, s, text);
      CharTypes(b, s, c);
      CharKeepsTracking(b, s, c);
      AllFreeStays(b, s, one.server, text);
      if one.server.rows != b.rows {
        var i :| 0 <= i < |text| && NeedsSpare(b, text[i]);
        assert text[1..][i - 1] == text[i];
      }
      MappingHoldsAgain(b, one.server, text[1..]);
    }
  }

  lemma FirstIsFree(b: Board, s: Server, text: seq<Scalar>)
    requires text != [] && AllFree(b, s, text)
    ensures Free(b, s, text[0])
  {
  }

  lemma AllFreeStays(b: Board, s: Server, t: Server, text: seq<Scalar>)
    requires text != [] && AllFree(b, s, text) && t.held == s.held
    ensures AllFree(b, t, text[1..])
  {
    forall i | 0 <= i < |text| - 1
      ensures Free(b, t, text[1..][i])
    {
      assert Free(b, s, text[i + 1]);
    }
  }

  predicate Reliable(s: Server, requests: nat) {
    |s.answers| >= requests && forall i :: 0 <= i < |s.answers| ==> s.answers[i]
  }

  /** On a server that refuses nothing, text succeeds exactly when no character lacks both a key and a spare. */
  lemma {:induction false} ReliableTextSucceedsExactly(b: Board, s: Server, text: seq<Scalar>)
    requires Tracks(b, s) && AllFree(b, s, text) && Reliable(s, 4 * |text|)
    ensures TypeText(b, s, text).outcome == Done
            <==> b.spare.Some? || forall i :: 0 <= i < |text| ==> !NeedsSpare(b, text[i])
    decreases |text|
  {
    if text != [] {
      hide TypeChar, NeedsSpare, Free, KeysymOfChar, Tracks;
      var c := text[0];
      var one := TypeChar(b, s, c);
      assert Answer(s, 0) && Answer(s, 1) && Answer(s, 2) && Answer(s, 3);
      hide Answer;
      CharTypes(b, s, c);
      CharKeepsTracking(b, s, c);
      if !NeedsSpare(b, c) {
        CharOnOwnKey(b, s, c);
      } else if b.spare.Some? {
        CharOnSpareKey(b, s, c);
      }
      assert text[1..] == text[1..|text|];
      if one.outcome == Done {
        AllFreeStays(b, s, one.server, text);
        ReliableTextSucceedsExactly(b, one.server, text[1..]);
        assert forall i :: 0 < i < |text| ==> text[i] == text[1..][i - 1];
      }
    }
  }

  /** The borrowed row outlives a character exactly when the loan is granted and its return refused. */
  lemma MappingStaysBorrowedExactlyWhen(b: Board, s: Server, c: Scalar)
    requires Tracks(b, s) && s.rows == b.rows && Free(b, s, c)
    ensures TypeChar(b, s, c).server.rows != b.rows
            <==> NeedsSpare(b, c) && b.spare.Some? && Answer(s, 0) && !GivenBack(s)
  {
    if !NeedsSpare(b, c) {
      CharOnOwnKey(b, s, c);
    } else if b.spare.Some? {
      CharOnSpareKey(b, s, c);
      var r := b.spare.value - b.first;
      assert b.rows[r][0] == 0 && Filled(KeysymOfChar(c), b.width)[0] != 0;
      assert b.rows[r := Filled(KeysymOfChar(c), b.width)][r] != b.rows[r];
    }
  }

  // ---------------------------------------------------------------------------
  // The keyboard in place
  // ---------------------------------------------------------------------------

  class X11Server {
    const first: nat
    var rows: seq<Row>
    var held: set<nat>
    var typed: seq<Keysym>
    var answers: seq<bool>

    ghost function View(): Server
      reads this
    {
      Server(first, rows, held, typed, answers)
    }

    constructor (first: nat, rows: seq<Row>, answers: seq<bool>)
      ensures View() == Server(first, rows, {}, [], answers)
    {
      this.first, this.rows, this.answers := first, rows, answers;
      held, typed := {}, [];
    }

    method Ask() returns (accepted: bool)
      modifies this`answers
      ensures accepted == Answer(old(View()), 0) && View() == Asked(old(View()))
    {
      accepted := answers != [] && answers[0];
      answers := if answers == [] then [] else answers[1..];
    }

    method FakeKey(keycode: nat, pressed: bool) returns (o: Outcome)
      requires Has(View(), keycode)
      modifies this
      ensures Reply(View(), o) == PressKey(old(View()), keycode, pressed)
    {
      var accepted := Ask();
      if !accepted {
        return Failed(Backend);
      }
      if !pressed {
        held := held - {keycode};
      } else if keycode !in held {
        held := held + {keycode};
        typed := typed + [rows[keycode - first][0]];
      }
      o := Done;
    }

    method ChangeKeyboardMapping(keycode: nat, row: Row) returns (o: Outcome)
      requires Has(View(), keycode)
      modifies this
      ensures Reply(View(), o) == ChangeMapping(old(View()), keycode, row)
    {
      var accepted := Ask();
      if !accepted {
        return Failed(Backend);
      }
      rows := rows[keycode - first := row];
      o := Done;
    }
  }

  class X11Keyboard {
    const server: X11Server
    const width: nat
    const rows: seq<Row>
    const spare: Option<nat>

    ghost function Cache(): Board {
      Board(server.first, rows, width, spare)
    }

    constructor (server: X11Server, width: nat)
      requires width >= 1 && forall r :: 0 <= r < |server.rows| ==> |server.rows[r]| == width
      ensures this.server == server && Cache() == Opened(server.first, server.rows, width)
      ensures Tracks(Cache(), server.View())
    {
      OpenedTracks(server.View(), width);
      this.server, this.width, this.rows := server, width, server.rows;
      var blank := FirstBlank(server.rows);
      this.spare := if blank < |server.rows| then Some(server.first + blank) else None;
    }

    method TapKey(keycode: nat) returns (o: Outcome)
      requires Has(server.View(), keycode)
      modifies server
      ensures Reply(server.View(), o) == Tap(old(server.View()), keycode)
    {
      o := server.FakeKey(keycode, true);
      if o == Done {
        o := server.FakeKey(keycode, false);
      }
    }

    method BorrowSpare(keysym: Keysym) returns (o: Outcome)
      requires width >= 1 && (spare.Some? ==> Has(server.View(), spare.value))
      modifies server
      ensures Reply(server.View(), o) == Borrow(Cache(), old(server.View()), keysym)
    {
      if spare.None? {
        return Failed(Unsupported);
      }
      o := server.ChangeKeyboardMapping(spare.value, Filled(keysym, width));
      if o != Done {
        return;
      }
      TapKeeps(server.View(), spare.value);
      o := TapKey(spare.value);
      var restored := server.ChangeKeyboardMapping(spare.value, Filled(0, width));
      if o == Done {
        o := restored;
      }
    }

    method TypeOne(c: Scalar) returns (o: Outcome)
      requires Tracks(Cache(), server.View())
      modifies server
      ensures Reply(server.View(), o) == TypeChar(Cache(), old(server.View()), c)
    {
      hide FirstLed, KeysymOfChar, Tap, Borrow;
      var keysym := KeysymOfChar(c);
      var led := FirstLed(rows, keysym);
      if led < |rows| {
        o := TapKey(server.first + led);
      } else {
        o := BorrowSpare(keysym);
      }
    }

    method Text(text: seq<Scalar>) returns (o: Outcome)
      requires Tracks(Cache(), server.View())
      modifies server
      ensures Reply(server.View(), o) == TypeText(Cache(), old(server.View()), text)
      ensures Tracks(Cache(), server.View())
    {
      hide Tracks, TypeChar;
      TextKeepsTracking(Cache(), server.View(), text);
      for i := 0 to |text|
        invariant Tracks(Cache(), server.View())
        invariant TypeText(Cache(), server.View(), text[i..]) == TypeText(Cache(), old(server.View()), text)
      {
        CharKeepsTracking(Cache(), server.View(), text[i]);
        assert text[i..][1..] == text[i + 1..];
        o := TypeOne(text[i]);
        if o != Done {
          return;
        }
      }
      o := Done;
    }
  }
}
