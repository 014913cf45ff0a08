/**
 * The feature tables of the two drivers. Windows answers with the first matching
 * entry and installs a plug's entries as they come; macOS folds every entry into the
 * table by id. Both are compared with one bounded map from ids to report bytes.
 */
module FeatureTables {
  import opened Common
  import opened Bytes
  import opened Wire
  import Delivery

  // ---------------------------------------------------------------------------
  // Tables as sequences of entries
  // ---------------------------------------------------------------------------

  /** The index the drivers' search loops stop at; |t| when no entry has the id. */
  function FirstMatch(t: seq<Feature>, id: byte): (i: nat)
    ensures i <= |t|
    ensures i < |t| ==> t[i].id == id
    ensures forall j :: 0 <= j < i ==> t[j].id != id
  {
    FirstIndex(t, (f: Feature) => f.id == id)
  }

  function Lookup(t: seq<Feature>, id: byte): Option<seq<byte>> {
    var i := FirstMatch(t, id);
    if i < |t| then Some(t[i].data) else None
  }

  /** What a GET_FEATURE with a buffer of `room` bytes is answered with. */
  function Get(t: seq<Feature>, id: byte, room: nat): Option<seq<byte>> {
    match Lookup(t, id)
    case None => None
    case Some(data) => Some(if |data| <= room then data else data[..room])
  }

  datatype SetAnswer = SetAnswer(table: seq<Feature>, ok: bool)

  /** The Windows SET_FEATURE case: search and store, else append, else refuse. */
  function ClientSet(t: seq<Feature>, data: seq<byte>): SetAnswer
    requires ReportFits(data)
  {
    var i := FirstMatch(t, data[0]);
    if i < |t| then SetAnswer(t[i := Feature(data[0], data)], true)
    else if |t| < MAX_FEATURES then SetAnswer(t + [Feature(data[0], data)], true)
    else SetAnswer(t, false)
  }

  /** A feature the Windows host sets, under the id its transfer packet names; it is never added. */
  function HostSet(t: seq<Feature>, id: byte, data: seq<byte>): seq<Feature> {
    var i := FirstMatch(t, id);
    if i < |t| then t[i := Feature(id, Delivery.Clamp(data))] else t
  }

  /** macOS addFeature: pick an entry, a new one at the end if need be, and store into it. */
  function AddFeature(t: seq<Feature>, data: seq<byte>): SetAnswer {
    if !ReportFits(data) then SetAnswer(t, false)
    else
      var found := FirstMatch(t, data[0]);
      var at := if found < |t| then Some(found) else if |t| < MAX_FEATURES then Some(|t|) else None;
      if at.None? then SetAnswer(t, false)
      else
        var grown := if at.value == |t| then t + [Feature(0, [])] else t;
        SetAnswer(grown[at.value := Feature(data[0], data)], true)
  }

  /** A feature the macOS host sets, under the id its first byte names. */
  function MacHostSet(t: seq<Feature>, data: seq<byte>): seq<Feature>
    requires data != []
  {
    var i := FirstMatch(t, data[0]);
    if i < |t| then t[i := Feature(data[0], Delivery.Clamp(data))] else t
  }

  /** A macOS plug adds the entries one by one and ignores whether each fitted. */
  function MacPlug(features: seq<Feature>): seq<Feature>
    decreases |features|
  {
    if features == [] then [] else AddFeature(MacPlug(DropLast(features)), Last(features).data).table
  }

  /** The two drivers' sets are the same search and store. */
  lemma AddFeatureIsClientSet(t: seq<Feature>, data: seq<byte>)
    requires |t| <= MAX_FEATURES && ReportFits(data)
    ensures AddFeature(t, data) == ClientSet(t, data)
  {
    if FirstMatch(t, data[0]) == |t| {
      assert (t + [Feature(0, [])])[|t| := Feature(data[0], data)] == t + [Feature(data[0], data)];
    }
  }

  // ---------------------------------------------------------------------------
  // The bounded map both refine
  // ---------------------------------------------------------------------------

  predicate Distinct(t: seq<Feature>) {
    forall i, j :: 0 <= i < j < |t| ==> t[i].id != t[j].id
  }

  function Ids(t: seq<Feature>): set<byte> {
    set i | 0 <= i < |t| :: t[i].id
  }

  function Answers(t: seq<Feature>): (m: map<byte, seq<byte>>)
    ensures m.Keys == Ids(t)
  {
    var m := map id | id in Ids(t) :: t[FirstMatch(t, id)].data;
    m
  }

  lemma AnswersAreLookups(t: seq<Feature>, id: byte)
    ensures Lookup(t, id) == if id in Answers(t) then Some(Answers(t)[id]) else None
  {
    if FirstMatch(t, id) < |t| {
      assert id in Ids(t);
    }
  }

  lemma {:induction false} DistinctSize(t: seq<Feature>)
    requires Distinct(t)
    ensures |Ids(t)| == |t|
    decreases |t|
  {
    if t != [] {
      DistinctSize(DropLast(t));
      assert Last(t).id !in Ids(DropLast(t));
      assert Ids(t) == Ids(DropLast(t)) + {Last(t).id};
    }
  }

  datatype MapAnswer = MapAnswer(answers: map<byte, seq<byte>>, ok: bool)

  /** Refused exactly when the id is new and the table is full; otherwise it is read back and nothing else moves. */
  function MapSet(m: map<byte, seq<byte>>, data: seq<byte>): MapAnswer
    requires ReportFits(data)
  {
    if data[0] !in m && |m| >= MAX_FEATURES then MapAnswer(m, false)
    else MapAnswer(m[data[0] := data], true)
  }

  function MapHostSet(m: map<byte, seq<byte>>, id: byte, data: seq<byte>): map<byte, seq<byte>> {
    if id in m then m[id := Delivery.Clamp(data)] else m
  }

  lemma AnswersExtensional(t: seq<Feature>, m: map<byte, seq<byte>>)
    requires forall id: byte :: Lookup(t, id) == if id in m then Some(m[id]) else None
    ensures Answers(t) == m
  {
    forall id: byte
      ensures id in Answers(t) <==> id in m
      ensures id in m ==> id in Answers(t) && Answers(t)[id] == m[id]
    {
      AnswersAreLookups(t, id);
    }
  }

  lemma LookupReplaced(t: seq<Feature>, i: nat, f: Feature, id: byte)
    requires i < |t| && i == FirstMatch(t, f.id)
    ensures Lookup(t[i := f], id) == if id == f.id then Some(f.data) else Lookup(t, id)
  {
    var u := t[i := f];
    FirstMatchIs(u, f.id, i);
    var j := FirstMatch(t, id);
    if id != f.id {
      FirstMatchIs(u, id, j);
    }
  }

  lemma LookupAppended(t: seq<Feature>, f: Feature, id: byte)
    requires FirstMatch(t, f.id) == |t|
    ensures Lookup(t + [f], id) == if id == f.id then Some(f.data) else Lookup(t, id)
  {
    var j := FirstMatch(t, id);
    if id == f.id {
      FirstMatchIs(t + [f], id, |t|);
    } else if j < |t| {
      FirstMatchIs(t + [f], id, j);
    } else {
      FirstMatchIs(t + [f], id, |t| + 1);
    }
  }

  lemma FirstMatchIs(t: seq<Feature>, id: byte, i: nat)
    requires i <= |t| && (i < |t| ==> t[i].id == id)
    requires forall j :: 0 <= j < i ==> t[j].id != id
    ensures FirstMatch(t, id) == i
  {
  }

  /** A set the client makes is read back, leaves every other id alone, and fails just when new and full. */
  lemma ClientSetIsReadBack(t: seq<Feature>, data: seq<byte>, id: byte)
    requires |t| <= MAX_FEATURES
    requires ReportFits(data)
    ensures var a := ClientSet(t, data);
            && (a.ok <==> Lookup(t, data[0]).Some? || |t| < MAX_FEATURES)
            && Lookup(a.table, id) == if a.ok && id == data[0] then Some(data) else Lookup(t, id)
  {
    var i := FirstMatch(t, data[0]);
    if i < |t| {
      LookupReplaced(t, i, Feature(data[0], data), id);
    } else {
      LookupAppended(t, Feature(data[0], data), id);
    }
  }

  lemma ClientSetKeepsDistinct(t: seq<Feature>, data: seq<byte>)
    requires Distinct(t) && |t| <= MAX_FEATURES
    requires ReportFits(data)
    ensures var a := ClientSet(t, data); Distinct(a.table) && |a.table| <= MAX_FEATURES && (!a.ok ==> a.table == t)
  {
  }

  lemma ClientSetRefines(t: seq<Feature>, data: seq<byte>)
    requires Distinct(t) && |t| <= MAX_FEATURES
    requires ReportFits(data)
    ensures var a := ClientSet(t, data);
            && Distinct(a.table) && |a.table| <= MAX_FEATURES
            && MapSet(Answers(t), data) == MapAnswer(Answers(a.table), a.ok)
  {
    ClientSetKeepsDistinct(t, data);
    DistinctSize(t);
    ClientSetIsReadBack(t, data, data[0]);
    AnswersAreLookups(t, data[0]);
    hide ClientSet, FirstMatch, Lookup, Ids, Distinct, Answers;
    var a := ClientSet(t, data);
    var m := MapSet(Answers(t), data);
    if a.ok {
      forall id: byte
        ensures Lookup(a.table, id) == if id in m.answers then Some(m.answers[id]) else None
      {
        AnswersAreLookups(t, id);
        ClientSetIsReadBack(t, data, id);
      }
      AnswersExtensional(a.table, m.answers);
    }
  }

  lemma HostSetRefines(t: seq<Feature>, id: byte, data: seq<byte>)
    requires Distinct(t)
    ensures var u := HostSet(t, id, data);
            && Distinct(u) && |u| == |t|
            && MapHostSet(Answers(t), id, data) == Answers(u)
  {
    var i := FirstMatch(t, id);
    var f := Feature(id, Delivery.Clamp(data));
    var u := HostSet(t, id, data);
    var m := MapHostSet(Answers(t), id, data);
    AnswersAreLookups(t, id);
    if i < |t| {
      forall other: byte
        ensures Lookup(u, other) == if other in m then Some(m[other]) else None
      {
        AnswersAreLookups(t, other);
        LookupReplaced(t, i, f, other);
      }
      hide Answers;
      AnswersExtensional(u, m);
    }
  }

  // ---------------------------------------------------------------------------
  // The drivers over whole runs
  // ---------------------------------------------------------------------------

  datatype Driver = Windows | MacOs

  /** A set by the client, or by the host under the id of its transfer. */
  datatype Op =
    | FromClient(data: seq<byte>)
    | FromHost(id: byte, data: seq<byte>)

  /** Client sets carry a report of a size the bus takes. */
  predicate ValidOp(op: Op) {
    op.FromClient? ==> ReportFits(op.data)
  }

  predicate ValidOps(ops: seq<Op>) {
    forall i :: 0 <= i < |ops| ==> ValidOp(ops[i])
  }

  /** Host sets start with their report id, by which macOS searches. */
  predicate Numbered(ops: seq<Op>) {
    forall i :: 0 <= i < |ops| && ops[i].FromHost? ==> ops[i].data != [] && ops[i].data[0] == ops[i].id
  }

  function Set(d: Driver, t: seq<Feature>, op: Op): SetAnswer
    requires ValidOp(op)
  {
    match (d, op)
    case (Windows, FromClient(data)) => ClientSet(t, data)
    case (Windows, FromHost(id, data)) => SetAnswer(HostSet(t, id, data), true)
    case (MacOs, FromClient(data)) => AddFeature(t, data)
    case (MacOs, FromHost(id, data)) => SetAnswer(if data == [] then t else MacHostSet(t, data), true)
  }

  /** The table after a run, beside the answers to it in order. */
  datatype Trace = Trace(table: seq<Feature>, oks: seq<bool>)

  datatype MapTrace = MapTrace(answers: map<byte, seq<byte>>, oks: seq<bool>)

  function Run(d: Driver, t: seq<Feature>, ops: seq<Op>): Trace
    requires ValidOps(ops)
    decreases |ops|
  {
    if ops == [] then Trace(t, [])
    else
      var before := Run(d, t, DropLast(ops));
      var a := Set(d, before.table, ops[|ops| - 1]);
      Trace(a.table, before.oks + [a.ok])
  }

  function MapRun(m: map<byte, seq<byte>>, ops: seq<Op>): MapTrace
    requires ValidOps(ops)
    decreases |ops|
  {
    if ops == [] then MapTrace(m, [])
    else
      var before := MapRun(m, DropLast(ops));
      match ops[|ops| - 1]
      case FromClient(data) =>
        var a := MapSet(before.answers, data);
        MapTrace(a.answers, before.oks + [a.ok])
      case FromHost(id, data) => MapTrace(MapHostSet(before.answers, id, data), before.oks + [true])
  }

  lemma {:induction false} RunRefinesMap(d: Driver, t: seq<Feature>, ops: seq<Op>)
    requires Distinct(t) && |t| <= MAX_FEATURES && ValidOps(ops)
    requires d == MacOs ==> Numbered(ops)
    ensures var r := Run(d, t, ops);
            && Distinct(r.table) && |r.table| <= MAX_FEATURES
            && MapRun(Answers(t), ops) == MapTrace(Answers(r.table), r.oks)
    decreases |ops|
  {
    if ops != [] {
      hide ClientSet, HostSet, AddFeature, Answers, Distinct, MapSet, MapHostSet;
      RunRefinesMap(d, t, DropLast(ops));
      var before := Run(d, t, DropLast(ops));
      assert ValidOp(ops[|ops| - 1]);
      match ops[|ops| - 1]
      case FromClient(data) =>
        ClientSetRefines(before.table, data);
        AddFeatureIsClientSet(before.table, data);
      case FromHost(id, data) => HostSetRefines(before.table, id, data);
    }
  }

  lemma {:induction false} MacPlugIsPlug(features: seq<Feature>)
    requires Distinct(features) && |features| <= MAX_FEATURES
    requires forall f :: f in features ==> IsFeature(f)
    ensures MacPlug(features) == features
    decreases |features|
  {
    if features != [] {
      MacPlugIsPlug(DropLast(features));
      assert Last(features) in features;
      AddFeatureIsClientSet(DropLast(features), Last(features).data);
      FirstMatchIs(DropLast(features), Last(features).id, |features| - 1);
      assert features == DropLast(features) + [Last(features)];
    }
  }

  function Plugged(d: Driver, features: seq<Feature>): seq<Feature> {
    match d case Windows => features case MacOs => MacPlug(features)
  }

  /** What a GET_FEATURE sees on a driver after a plug and a run of sets. */
  function Answer(d: Driver, features: seq<Feature>, ops: seq<Op>, id: byte, room: nat): Option<seq<byte>>
    requires ValidOps(ops)
  {
    Get(Run(d, Plugged(d, features), ops).table, id, room)
  }

  /** Plugged with distinct ids, either driver answers every GET_FEATURE after every run as the bounded map does. */
  lemma DriversAnswerAsMap(d: Driver, features: seq<Feature>, ops: seq<Op>, id: byte, room: nat)
    requires Distinct(features) && |features| <= MAX_FEATURES && ValidOps(ops)
    requires d == MacOs ==> Numbered(ops)
    requires forall f :: f in features ==> IsFeature(f)
    ensures var m := MapRun(Answers(features), ops).answers;
            Answer(d, features, ops, id, room)
            == if id !in m then None else Some(if |m[id]| <= room then m[id] else m[id][..room])
  {
    MacPlugIsPlug(features);
    RunRefinesMap(d, features, ops);
    AnswersAreLookups(Run(d, features, ops).table, id);
  }

  ghost predicate AnswerAlike(features: seq<Feature>) {
    forall ops, id, room | ValidOps(ops) && Numbered(ops) ::
      Answer(Windows, features, ops, id, room) == Answer(MacOs, features, ops, id, room)
  }

  /** The drivers answer every GET_FEATURE after every run alike if and only if the plug repeats no id. */
  lemma DriversAnswerAlikeExactly(features: seq<Feature>)
    requires |features| <= MAX_FEATURES && forall f :: f in features ==> IsFeature(f)
    ensures AnswerAlike(features) <==> Distinct(features)
  {
    hide Answer, MapRun, Answers;
    if Distinct(features) {
      forall ops, id, room | ValidOps(ops) && Numbered(ops)
        ensures Answer(Windows, features, ops, id, room) == Answer(MacOs, features, ops, id, room)
      {
        DriversAnswerAsMap(Windows, features, ops, id, room);
        DriversAnswerAsMap(MacOs, features, ops, id, room);
      }
    } else {
      FoldedPlugIsShorter(features);
      var ops, id := ShorterTableTakesMore(features, MacPlug(features));
      TablesDiffer(features, ops, id);
    }
  }

  lemma TablesDiffer(features: seq<Feature>, ops: seq<Op>, id: byte)
    requires ValidOps(ops) && Numbered(ops)
    requires Lookup(Run(Windows, features, ops).table, id) == None
    requires Lookup(Run(MacOs, MacPlug(features), ops).table, id).Some?
    ensures Answer(Windows, features, ops, id, 0) != Answer(MacOs, features, ops, id, 0)
  {
  }

  /** Folding a repeated id leaves a shorter table. */
  lemma {:induction false} FoldedPlugIsShorter(features: seq<Feature>)
    requires |features| <= MAX_FEATURES && forall f :: f in features ==> IsFeature(f)
    ensures |MacPlug(features)| <= |features|
    ensures !Distinct(features) ==> |MacPlug(features)| < |features|
    decreases |features|
  {
    if features != [] {
      var before, f := DropLast(features), Last(features);
      assert f in features;
      FoldedPlugIsShorter(before);
      AddFeatureIsClientSet(MacPlug(before), f.data);
      if Distinct(before) && !Distinct(features) {
        MacPlugIsPlug(before);
        RepeatedLast(features);
      }
      hide MacPlug, Distinct;
    }
  }

  lemma RepeatedLast(features: seq<Feature>)
    requires features != [] && Distinct(DropLast(features)) && !Distinct(features)
    ensures FirstMatch(DropLast(features), Last(features).id) < |features| - 1
  {
    var i, j :| 0 <= i < j < |features| && features[i].id == features[j].id;
    assert DropLast(features)[i] == features[i];
  }

  /** A client set of one byte, the shortest there is. */
  function OneByte(id: byte): Op {
    FromClient([id])
  }

  lemma {:induction false} RunCons(d: Driver, t: seq<Feature>, op: Op, ops: seq<Op>)
    requires ValidOp(op) && ValidOps(ops)
    ensures ValidOps([op] + ops)
    ensures Run(d, t, [op] + ops).table == Run(d, Set(d, t, op).table, ops).table
    decreases |ops|
  {
    var all := [op] + ops;
    assert forall i :: 0 <= i < |all| ==> ValidOp(all[i]);
    if ops == [] {
      assert DropLast(all) == [];
      assert all[|all| - 1] == op;
    } else {
      RunCons(d, t, op, DropLast(ops));
      assert DropLast(all) == [op] + DropLast(ops);
      assert all[|all| - 1] == ops[|ops| - 1];
      hide Set;
    }
  }

  /** Two tables can hold at most sixty-four ids, so some byte is new to both. */
  lemma FreshId(a: seq<Feature>, b: seq<Feature>) returns (id: byte)
    requires |a| <= MAX_FEATURES && |b| <= MAX_FEATURES
    ensures FirstMatch(a, id) == |a| && FirstMatch(b, id) == |b|
  {
    var used := Ids(a) + Ids(b);
    IdsAreFew(a);
    IdsAreFew(b);
    id := NewByte(used, 0x100);
    assert id !in Ids(a) && id !in Ids(b);
  }

  lemma {:induction false} IdsAreFew(t: seq<Feature>)
    ensures |Ids(t)| <= |t|
    decreases |t|
  {
    if t != [] {
      IdsAreFew(DropLast(t));
      assert Ids(t) == Ids(DropLast(t)) + {Last(t).id};
    }
  }

  lemma {:induction false} NewByte(used: set<byte>, n: nat) returns (id: byte)
    requires |used| < n <= 0x100
    ensures id !in used && id < n
    decreases n
  {
    var top: byte := n - 1;
    if top !in used {
      id := top;
    } else {
      id := NewByte(used - {top}, n - 1);
    }
  }

  /**
   * From a shorter macOS table, client sets of fresh ids fill the Windows table first; the
   * next one is refused there and kept here.
   */
  lemma {:induction false} ShorterTableTakesMore(w: seq<Feature>, m: seq<Feature>) returns (ops: seq<Op>, id: byte)
    requires |m| < |w| <= MAX_FEATURES
    ensures ValidOps(ops) && Numbered(ops)
    ensures Lookup(Run(Windows, w, ops).table, id) == None
    ensures Lookup(Run(MacOs, m, ops).table, id).Some?
    decreases MAX_FEATURES - |w|
  {
    id := FreshId(w, m);
    var op := OneByte(id);
    var fw, fm := Set(Windows, w, op), Set(MacOs, m, op);
    AddFeatureIsClientSet(m, [id]);
    ClientSetIsReadBack(w, [id], id);
    ClientSetIsReadBack(m, [id], id);
    ops := [];
    if |w| < MAX_FEATURES {
      ops, id := ShorterTableTakesMore(fw.table, fm.table);
    }
    RunCons(Windows, w, op, ops);
    RunCons(MacOs, m, op, ops);
    hide Lookup, ClientSet, AddFeature, FirstMatch, Run;
    ops := [op] + ops;
  }

  /** Entries with ids up to `n`, one each but for id 0, which stands there twice with the same byte. */
  function TwiceZero(n: nat): (t: seq<Feature>)
    requires n <= 30
    ensures |t| == n + 2 && forall i :: 0 <= i < |t| ==> t[i].id <= n
  {
    if n == 0 then [Feature(0, [0]), Feature(0, [0])] else TwiceZero(n - 1) + [Feature(n, [n])]
  }

  function OnceZero(n: nat): (t: seq<Feature>)
    requires n <= 30
    ensures |t| == n + 1 && forall i :: 0 <= i < |t| ==> t[i].id <= n
  {
    if n == 0 then [Feature(0, [0])] else OnceZero(n - 1) + [Feature(n, [n])]
  }

  lemma {:induction false} TwiceZeroFolds(n: nat)
    requires n <= 30
    ensures MacPlug(TwiceZero(n)) == OnceZero(n)
    decreases n
  {
    if n == 0 {
      TwoZerosFold();
    } else {
      TwiceZeroFolds(n - 1);
      assert DropLast(TwiceZero(n)) == TwiceZero(n - 1);
      AddsNewId(OnceZero(n - 1), n);
      hide TwiceZero, AddFeature;
      assert OnceZero(n) == OnceZero(n - 1) + [Feature(n, [n])];
    }
  }

  lemma AddsNewId(t: seq<Feature>, id: byte)
    requires |t| < MAX_FEATURES && forall i :: 0 <= i < |t| ==> t[i].id < id
    ensures AddFeature(t, [id]).table == t + [Feature(id, [id])]
  {
    AddFeatureIsClientSet(t, [id]);
    FirstMatchIs(t, id, |t|);
    hide FirstMatch, AddFeature;
  }

  lemma TwoZerosFold()
    ensures MacPlug(TwiceZero(0)) == OnceZero(0)
  {
    var zero := Feature(0, [0]);
    assert DropLast([zero, zero]) == [zero] && DropLast([zero]) == [];
    AddsNewId([], 0);
    FirstMatchIs([zero], 0, 0);
    AddFeatureIsClientSet([zero], [0]);
    hide FirstMatch, AddFeature;
  }

  /** A plug of 32 entries with id 0 twice alike: after one client set of id 200 Windows has no answer and macOS has. */
  lemma RepeatedIdDiverges()
    ensures var ops := [OneByte(200)];
            && |TwiceZero(30)| == MAX_FEATURES && ValidOps(ops) && Numbered(ops)
            && Answer(Windows, TwiceZero(30), ops, 200, 1) == None
            && Answer(MacOs, TwiceZero(30), ops, 200, 1) == Some([200])
  {
    hide TwiceZero, OnceZero, MacPlug, Answer;
    TwiceZeroFolds(30);
    NewIdDiverges(TwiceZero(30), 200);
  }

  lemma NewIdDiverges(features: seq<Feature>, id: byte)
    requires |features| == MAX_FEATURES && forall i :: 0 <= i < |features| ==> features[i].id < id
    requires |MacPlug(features)| < MAX_FEATURES
    requires forall i :: 0 <= i < |MacPlug(features)| ==> MacPlug(features)[i].id < id
    ensures ValidOps([OneByte(id)])
    ensures Answer(Windows, features, [OneByte(id)], id, 1) == None
    ensures Answer(MacOs, features, [OneByte(id)], id, 1) == Some([id])
  {
    hide MacPlug, Set, Run;
    var w, m, op := features, MacPlug(features), OneByte(id);
    NewIdOnFullTable(w, id);
    NewIdOnShortTable(m, id);
    RunOne(Windows, w, op);
    RunOne(MacOs, m, op);
  }

  lemma NewIdOnFullTable(t: seq<Feature>, id: byte)
    requires |t| == MAX_FEATURES && forall i :: 0 <= i < |t| ==> t[i].id < id
    ensures Lookup(Set(Windows, t, OneByte(id)).table, id) == None
  {
    FirstMatchIs(t, id, |t|);
  }

  lemma NewIdOnShortTable(t: seq<Feature>, id: byte)
    requires |t| < MAX_FEATURES && forall i :: 0 <= i < |t| ==> t[i].id < id
    ensures Lookup(Set(MacOs, t, OneByte(id)).table, id) == Some([id])
  {
    FirstMatchIs(t, id, |t|);
    AddFeatureIsClientSet(t, [id]);
    ClientSetIsReadBack(t, [id], id);
  }

  lemma RunOne(d: Driver, t: seq<Feature>, op: Op)
    requires ValidOp(op)
    ensures ValidOps([op]) && Run(d, t, [op]).table == Set(d, t, op).table
  {
    assert DropLast([op]) == [];
  }

  // ---------------------------------------------------------------------------
  // Repeated ids: Windows keeps the first entry, macOS the last
  // ---------------------------------------------------------------------------

  function LastEntry(t: seq<Feature>, id: byte): Option<seq<byte>>
    decreases |t|
  {
    if t == [] then None
    else if Last(t).id == id then Some(Last(t).data)
    else LastEntry(DropLast(t), id)
  }

  lemma {:induction false} MacPlugAnswersLast(features: seq<Feature>, id: byte)
    requires |features| <= MAX_FEATURES
    requires forall f :: f in features ==> IsFeature(f)
    ensures |MacPlug(features)| <= |features|
    ensures Lookup(MacPlug(features), id) == LastEntry(features, id)
    decreases |features|
  {
    if features != [] {
      MacPlugAnswersLast(DropLast(features), id);
      assert Last(features) in features;
      var t := MacPlug(DropLast(features));
      var f := Last(features);
      AddFeatureIsClientSet(t, f.data);
      var i := FirstMatch(t, f.id);
      if i < |t| { LookupReplaced(t, i, f, id); } else { LookupAppended(t, f, id); }
    }
  }

  /** Right after a plug the drivers agree just when each id's first and last entries carry the same bytes. */
  lemma PlugsAgreeExactlyWhen(features: seq<Feature>)
    requires |features| <= MAX_FEATURES
    requires forall f :: f in features ==> IsFeature(f)
    ensures (forall id: byte :: Lookup(features, id) == Lookup(MacPlug(features), id))
            <==> forall id: byte :: id in Ids(features) ==> Lookup(features, id) == LastEntry(features, id)
  {
    forall id: byte
      ensures Lookup(MacPlug(features), id) == LastEntry(features, id)
      ensures id !in Ids(features) ==> Lookup(features, id) == None == LastEntry(features, id)
    {
      MacPlugAnswersLast(features, id);
      if id !in Ids(features) {
        NoLastEntry(features, id);
      }
    }
  }

  lemma {:induction false} NoLastEntry(t: seq<Feature>, id: byte)
    requires id !in Ids(t)
    ensures LastEntry(t, id) == None
    decreases |t|
  {
    if t != [] {
      assert Last(t).id in Ids(t);
      assert Ids(DropLast(t)) <= Ids(t);
      NoLastEntry(DropLast(t), id);
    }
  }

  // ---------------------------------------------------------------------------
  // The tables in place
  // ---------------------------------------------------------------------------

  /** The Features array and FeatureCount of a slot, on either driver. */
  class Table {
    const entries: array<Feature>
    var count: nat

    ghost predicate Valid()
      reads this, entries
    {
      entries.Length == MAX_FEATURES && count <= MAX_FEATURES
    }

    ghost function Contents(): seq<Feature>
      requires Valid()
      reads this, entries
    {
      entries[..count]
    }

    constructor ()
      ensures Valid() && Contents() == [] && fresh(entries)
    {
      entries := new Feature[MAX_FEATURES](_ => Feature(0, []));
      count := 0;
    }

    method Find(id: byte) returns (i: nat)
      requires Valid()
      ensures i == FirstMatch(Contents(), id)
    {
      i := 0;
      while i < count && entries[i].id != id
        invariant i <= count
        invariant forall j :: 0 <= j < i ==> entries[j].id != id
      {
        i := i + 1;
      }
      FirstMatchIs(Contents(), id, i);
    }

    method GetFeature(id: byte, room: nat) returns (answer: Option<seq<byte>>)
      requires Valid()
      ensures answer == Get(Contents(), id, room)
    {
      var i := Find(id);
      if i == count {
        return None;
      }
      var data := entries[i].data;
      answer := Some(if |data| <= room then data else data[..room]);
    }

    /** The Windows SET_FEATURE case. */
    method SetFromClient(data: seq<byte>) returns (ok: bool)
      requires Valid() && ReportFits(data)
      modifies this, entries
      ensures Valid()
      ensures SetAnswer(Contents(), ok) == ClientSet(old(Contents()), data)
    {
      var i := Find(data[0]);
      if i < count {
        entries[i] := Feature(data[0], data);
        return true;
      }
      if count < MAX_FEATURES {
        entries[count] := Feature(data[0], data);
        count := count + 1;
        assert Contents() == old(Contents()) + [Feature(data[0], data)];
        return true;
      }
      return false;
    }

    method SetFromHost(id: byte, data: seq<byte>)
      requires Valid()
      modifies this, entries
      ensures Valid() && Contents() == HostSet(old(Contents()), id, data)
    {
      var i := Find(id);
      if i < count {
        entries[i] := Feature(id, Delivery.Clamp(data));
      }
    }

    /** macOS addFeature. */
    method Add(data: seq<byte>) returns (ok: bool)
      requires Valid()
      modifies this, entries
      ensures Valid()
      ensures SetAnswer(Contents(), ok) == AddFeature(old(Contents()), data)
    {
      if data == [] || |data| > MAX_REPORT {
        return false;
      }
      var at := Find(data[0]);
      if at == count {
        if count == MAX_FEATURES {
          return false;
        }
        count := count + 1;
      }
      entries[at] := Feature(data[0], data);
      ok := true;
    }

    method SetFromMacHost(data: seq<byte>)
      requires Valid() && data != []
      modifies this, entries
      ensures Valid() && Contents() == MacHostSet(old(Contents()), data)
    {
      var i := Find(data[0]);
      if i < count {
        entries[i] := Feature(data[0], Delivery.Clamp(data));
      }
    }

    /** A Windows plug stores its next entry without looking at the others. */
    method Append(f: Feature)
      requires Valid() && count < MAX_FEATURES
      modifies this, entries
      ensures Valid() && Contents() == old(Contents()) + [f]
    {
      entries[count] := f;
      count := count + 1;
    }

    method Clear()
      requires Valid()
      modifies this
      ensures Valid() && Contents() == []
    {
      count := 0;
    }
  }

  /** The macOS plug loop: the table ends up as MacPlug, repeated ids folded. */
  method PlugOnMac(t: Table, features: seq<Feature>)
    requires t.Valid() && t.Contents() == []
    modifies t, t.entries
    ensures t.Valid() && t.Contents() == MacPlug(features)
  {
    for i := 0 to |features|
      invariant t.Valid() && t.Contents() == MacPlug(features[..i])
    {
      assert DropLast(features[..i + 1]) == features[..i];
      var _ := t.Add(features[i].data);
    }
    assert features[..|features|] == features;
  }
}
