/**
 * What a device on the Windows bus answers the HID stack with, from plug to unplug: its
 * features as the run of its own sets leaves them, and the input report it took last.
 */
module VhidReports {
  import opened Common
  import opened Bytes
  import opened Wire
  import opened VhidBus
  import opened VhidLifetime
  import Tables = FeatureTables
  import XusbPipe

  // ---------------------------------------------------------------------------
  // One slot's share of a step
  // ---------------------------------------------------------------------------

  /** The feature sets slot `j` is given in one step: its owner's, and its HID stack's. */
  function Sets(bus: seq<Slot>, e: Event, j: nat): (ops: seq<Tables.Op>)
    ensures Tables.ValidOps(ops)
  {
    match e
    case SetFeature(handle, buffer) =>
      (match ReadReportIn(buffer)
       case Err(_) => []
       case Ok(r) =>
         if SlotFor(bus, r.slot, handle) == Some(j) && bus[j].kind == KIND_HID then [Tables.FromClient(r.report)] else [])
    case HostSetFeature(index, id, data) =>
      if index == j && j < |bus| && bus[j].vhf.Some? then [Tables.FromHost(id, data)] else []
    case _ => []
  }

  /** The input reports slot `j` takes in one step, whether or not the HID stack wants them; an Xbox one has twenty bytes. */
  function Inputs(bus: seq<Slot>, e: Event, j: nat): seq<seq<byte>> {
    match e
    case Input(handle, buffer, submitted) =>
      (match ReadReportIn(buffer)
       case Err(_) => []
       case Ok(r) =>
         if SlotFor(bus, r.slot, handle) == Some(j) && (bus[j].kind == KIND_XUSB ==> |r.report| == 20)
         then [r.report] else [])
    case _ => []
  }

  /** The sets and inputs of slot `j` over a run, beside whether the bus granted each set. */
  datatype Memory = Memory(sets: seq<Tables.Op>, oks: seq<bool>, inputs: seq<seq<byte>>)

  function MemoryOf(bus: seq<Slot>, events: seq<Event>, j: nat): (m: Memory)
    ensures Tables.ValidOps(m.sets)
    decreases |events|
  {
    if events == [] then Memory([], [], [])
    else
      var m, b, e := MemoryOf(bus, DropLast(events), j), Run(bus, DropLast(events)), Last(events);
      var sets := Sets(b, e, j);
      Memory(m.sets + sets, m.oks + (if sets == [] then [] else [Step(b, e).status == Success]), m.inputs + Inputs(b, e, j))
  }

  // ---------------------------------------------------------------------------
  // One step
  // ---------------------------------------------------------------------------

  /** One step moves the table, and answers, as the slot's own set does. */
  ghost predicate MovesTable(bus: seq<Slot>, e: Event, j: nat)
    requires j < |bus|
  {
    var o, sets := Step(bus, e), Sets(bus, e, j);
    && |sets| <= 1
    && (sets == [] ==> o.bus[j].features == bus[j].features)
    && (sets != [] ==>
          Tables.SetAnswer(o.bus[j].features, o.status == Success) == Tables.Set(Tables.Windows, bus[j].features, sets[0]))
  }

  lemma SetMovesTable(bus: seq<Slot>, e: Event, j: nat)
    requires Inv(bus) && j < |bus| && (e.SetFeature? || e.HostSetFeature?)
    ensures MovesTable(bus, e, j)
  {
    hide ReadReportIn, Tables.ClientSet, Tables.HostSet, Delivery.Deliver;
  }

  lemma OthersKeepTable(bus: seq<Slot>, e: Event, j: nat)
    requires j < |bus| && (e.Input? || e.WaitOutput? || e.HostWrite? || e.XusbOut? || e.XusbIn? || e.XusbAbort?)
    ensures Step(bus, e).bus[j].features == bus[j].features
  {
    hide ReadReportIn, XusbPipe.Apply, XusbPipe.SubmitInput, Delivery.Deliver, Delivery.Wait, OutPacket;
  }

  lemma StepMovesTable(bus: seq<Slot>, e: Event, j: nat)
    requires Inv(bus) && j < |bus| && bus[j].used && Step(bus, e).bus[j].used
    ensures MovesTable(bus, e, j)
  {
    if e.SetFeature? || e.HostSetFeature? {
      SetMovesTable(bus, e, j);
    } else {
      if e.Plug? || e.Unplug? || e.Close? {
        OwnerStepsKeepSlot(bus, e, j);
      } else {
        OthersKeepTable(bus, e, j);
      }
      hide Step, Inv;
      assert Sets(bus, e, j) == [];
    }
  }

  lemma StepRemembersInput(bus: seq<Slot>, e: Event, j: nat)
    requires Inv(bus) && j < |bus| && bus[j].used && Step(bus, e).bus[j].used
    ensures var inputs := Inputs(bus, e, j);
            && |inputs| <= 1
            && Step(bus, e).bus[j].lastInput == if inputs == [] then bus[j].lastInput else inputs[0]
  {
    if e.Input? {
      InputIsTaken(bus, e, j);
    } else {
      if e.Plug? || e.Unplug? || e.Close? {
        OwnerStepsKeepSlot(bus, e, j);
      } else {
        OthersKeepInput(bus, e, j);
      }
      hide Step, Inv;
      assert Inputs(bus, e, j) == [];
    }
  }

  lemma InputIsTaken(bus: seq<Slot>, e: Event, j: nat)
    requires Inv(bus) && j < |bus| && bus[j].used && e.Input?
    ensures var inputs := Inputs(bus, e, j);
            && |inputs| <= 1
            && Step(bus, e).bus[j].lastInput == if inputs == [] then bus[j].lastInput else inputs[0]
  {
    assert SlotInv(bus[j]);
    hide ReadReportIn, XusbPipe.SubmitInput, Inv;
  }

  lemma OthersKeepInput(bus: seq<Slot>, e: Event, j: nat)
    requires j < |bus| && !e.Input? && !e.Plug? && !e.Unplug? && !e.Close?
    ensures Step(bus, e).bus[j].lastInput == bus[j].lastInput
  {
    hide ReadReportIn, XusbPipe.Apply, Delivery.Deliver, Delivery.Wait, OutPacket, Tables.ClientSet, Tables.HostSet;
  }

  // ---------------------------------------------------------------------------
  // A whole lifetime
  // ---------------------------------------------------------------------------

  lemma TableTakesOne(t: seq<Feature>, ops: seq<Tables.Op>, more: seq<Tables.Op>)
    requires Tables.ValidOps(ops) && Tables.ValidOps(more) && |more| <= 1
    ensures Tables.ValidOps(ops + more)
    ensures var r := Tables.Run(Tables.Windows, t, ops);
            Tables.Run(Tables.Windows, t, ops + more)
            == if more == [] then r
               else
                 var a := Tables.Set(Tables.Windows, r.table, more[0]);
                 Tables.Trace(a.table, r.oks + [a.ok])
  {
    if more == [] {
      assert ops + more == ops;
    } else {
      assert DropLast(ops + more) == ops && (ops + more)[|ops + more| - 1] == more[0];
      hide Tables.Set;
    }
  }

  /** While a device stays plugged, its table and the answers to its sets are those of its own sets, in order. */
  lemma {:induction false} LifetimeIsAFeatureRun(bus: seq<Slot>, events: seq<Event>, j: nat)
    requires Inv(bus) && j < |bus| && bus[j].used && PluggedThroughout(bus, events, j)
    ensures Inv(Run(bus, events)) && j < |Run(bus, events)|
    ensures var m := MemoryOf(bus, events, j);
            Tables.Run(Tables.Windows, bus[j].features, m.sets) == Tables.Trace(Run(bus, events)[j].features, m.oks)
    decreases |events|
  {
    if events != [] {
      hide Inv, Step, Sets, Inputs, PluggedThroughout;
      var before, e := DropLast(events), Last(events);
      PluggedBefore(bus, events, j);
      LifetimeIsAFeatureRun(bus, before, j);
      var b := Run(bus, before);
      StepKeepsInv(b, e);
      StepMovesTable(b, e, j);
      TableTakesOne(bus[j].features, MemoryOf(bus, before, j).sets, Sets(b, e, j));
      hide Tables.Run, Tables.Set;
      assert MemoryOf(bus, before, j).oks + [] == MemoryOf(bus, before, j).oks;
    }
  }

  /** While a device stays plugged, it remembers the input it took last. */
  lemma {:induction false} LifetimeRemembersInput(bus: seq<Slot>, events: seq<Event>, j: nat)
    requires Inv(bus) && j < |bus| && bus[j].used && PluggedThroughout(bus, events, j)
    ensures Inv(Run(bus, events)) && j < |Run(bus, events)|
    ensures var inputs := MemoryOf(bus, events, j).inputs;
            Run(bus, events)[j].lastInput == if inputs == [] then bus[j].lastInput else Last(inputs)
    decreases |events|
  {
    if events != [] {
      hide Inv, Step, Sets, Inputs, PluggedThroughout;
      var before, e := DropLast(events), Last(events);
      PluggedBefore(bus, events, j);
      LifetimeRemembersInput(bus, before, j);
      StepKeepsInv(Run(bus, before), e);
      StepRemembersInput(Run(bus, before), e, j);
      hide Run;
    }
  }

  lemma PlugForgets(bus: seq<Slot>, e: Event, j: nat)
    requires Inv(bus) && e.Plug? && Step(bus, e).slot == Some(j)
    ensures ParsePlug(e.buffer).Ok?
    ensures var after := Step(bus, e).bus;
            && Inv(after) && j < |after| && after[j].used
            && after[j].features == ParsePlug(e.buffer).value.features && after[j].lastInput == []
  {
    StepKeepsInv(bus, e);
    PlugOutcome(bus, e.handle, e.buffer, e.room, e.resources);
    PlugTakesNoInput(bus, e, j);
    hide PlugStep, ParsePlug, Inv;
  }

  lemma PlugTakesNoInput(bus: seq<Slot>, e: Event, j: nat)
    requires e.Plug? && Step(bus, e).slot == Some(j)
    ensures Step(bus, e).status == Success && j == FirstFree(bus) && Step(bus, e).bus[j].lastInput == []
  {
    hide CheckHeader, ParseFeatures, FirstFree;
  }

  /**
   * Over every lifetime in every run of a device plugged with distinct feature ids: a
   * GET_FEATURE is answered by the bounded map that starts with the plug's entries and takes
   * the owner's and the host's sets in order, and each set is granted when the map grants it.
   */
  lemma FeaturesReachTheHost(before: seq<Event>, plug: Event, events: seq<Event>, j: nat, id: byte, room: nat)
    requires IsLifetime(before, plug, events, j)
    requires ParsePlug(plug.buffer).Ok? ==> Tables.Distinct(ParsePlug(plug.buffer).value.features)
    ensures ParsePlug(plug.buffer).Ok? && j < |Run(Born(before, plug), events)|
    ensures var memory := MemoryOf(Born(before, plug), events, j);
            var m := Tables.MapRun(Tables.Answers(ParsePlug(plug.buffer).value.features), memory.sets);
            && memory.oks == m.oks
            && Tables.Get(Run(Born(before, plug), events)[j].features, id, room)
               == if id !in m.answers then None
                  else Some(if |m.answers[id]| <= room then m.answers[id] else m.answers[id][..room])
  {
    var start := Born(before, plug);
    RunKeepsInv(before);
    PlugForgets(Run(EMPTY_BUS, before), plug, j);
    hide Run, Step, PluggedThroughout, MemoryOf, ParsePlug, Tables.Run, Tables.MapRun, Tables.Answers;
    LifetimeIsAFeatureRun(start, events, j);
    var t, sets := start[j].features, MemoryOf(start, events, j).sets;
    assert SlotInv(start[j]);
    hide Inv;
    Tables.RunRefinesMap(Tables.Windows, t, sets);
    Tables.AnswersAreLookups(Tables.Run(Tables.Windows, t, sets).table, id);
  }

  /** Over every lifetime in every run, a GET_REPORT sees the input its owner's last accepted report left, and none before the first. */
  lemma LastInputIsTheNewest(before: seq<Event>, plug: Event, events: seq<Event>, j: nat)
    requires IsLifetime(before, plug, events, j)
    ensures j < |Run(Born(before, plug), events)|
    ensures var inputs := MemoryOf(Born(before, plug), events, j).inputs;
            Run(Born(before, plug), events)[j].lastInput == if inputs == [] then [] else Last(inputs)
  {
    RunKeepsInv(before);
    PlugForgets(Run(EMPTY_BUS, before), plug, j);
    hide Inv, Run, Step, PluggedThroughout, MemoryOf;
    LifetimeRemembersInput(Born(before, plug), events, j);
  }

  // ---------------------------------------------------------------------------
  // How a plug is refused
  // ---------------------------------------------------------------------------

  /** The answer to a plug, in the order the driver meets its reasons; only a success has a slot and four bytes of output. */
  lemma PlugIsAnswered(bus: seq<Slot>, e: Event)
    requires e.Plug?
    ensures var o, b, res := Step(bus, e), e.buffer, e.resources;
            && o.status == (if e.room < 4 then BufferTooSmall
                            else if CheckHeader(b) != Success then CheckHeader(b)
                            else if forall i :: 0 <= i < |bus| ==> bus[i].used then InsufficientResources
                            else if HeaderOf(b).kind == 1 then (if res.pdo then Success else res.failure)
                            else if !res.pool then InsufficientResources
                            else
                              match ParsePlug(b)
                              case Err(status) => status
                              case Ok(_) => if res.create && res.start then Success else res.failure)
            && (o.status == Success ==> o.information == 4 && o.slot.Some?)
            && (o.status != Success ==> o.information == 0 && o.slot == None)
            && o.done == [] && o.served == [] && o.cancelled == []
  {
    hide ParseFeatures, CheckHeader, HeaderOf;
    assert FirstFree(bus) == |bus| <==> forall i :: 0 <= i < |bus| ==> bus[i].used;
    hide FirstFree;
  }

  // ---------------------------------------------------------------------------
  // One request after any run
  // ---------------------------------------------------------------------------

  lemma RequestIsRead(slot: u32, report: seq<byte>)
    requires ReportFits(report)
    ensures ReadReportIn(ReportBytes(slot, report)) == Ok(ReportIn(slot, report))
  {
    ReportRoundTrip(slot, report, []);
    assert ReportBytes(slot, report) + [] == ReportBytes(slot, report);
  }

  /**
   * After any run, the owner's set of `data` on a HID slot is granted exactly when its id is
   * known or there is room, and from then on `data` answers for that id, cut to the room
   * given; every other id, and everything else on the bus, stays as it was. An Xbox slot
   * supports no features.
   */
  lemma GrantedSetIsAnswered(events: seq<Event>, j: nat, data: seq<byte>, id: byte, room: nat)
    requires ReportFits(data)
    requires var bus := Run(EMPTY_BUS, events); j < |bus| && bus[j].used
    ensures var bus := Run(EMPTY_BUS, events);
            && bus[j].owner.Some? && j < MAX_DEVICES
            && var o := Step(bus, SetFeature(bus[j].owner.value, ReportBytes(j, data)));
               if bus[j].kind == KIND_XUSB then o == Refused(bus, NotSupported) else SetOutcome(bus, o, j, data, id, room)
  {
    var bus := Run(EMPTY_BUS, events);
    RunKeepsInv(events);
    assert SlotInv(bus[j]);
    hide Inv, Run, SetOutcome, Step;
    if bus[j].kind == KIND_HID {
      SetIsAnswered(bus, j, data, id, room);
    } else {
      XboxSetIsRefused(bus, j, data);
    }
  }

  lemma XboxSetIsRefused(bus: seq<Slot>, j: nat, data: seq<byte>)
    requires ReportFits(data) && j < |bus| == MAX_DEVICES
    requires bus[j].used && bus[j].kind == KIND_XUSB && IsPlugged(bus[j])
    ensures Step(bus, SetFeature(bus[j].owner.value, ReportBytes(j, data))) == Refused(bus, NotSupported)
  {
    RequestIsRead(j, data);
    hide ReadReportIn, ReportBytes;
  }

  ghost predicate SetOutcome(bus: seq<Slot>, o: Outcome, j: nat, data: seq<byte>, id: byte, room: nat)
    requires j < |bus| == |o.bus| && ReportFits(data)
  {
    && (o.status == Success <==> (exists f :: f in bus[j].features && f.id == data[0]) || |bus[j].features| < 32)
    && (o.status != Success ==> o.status == InsufficientResources)
    && o == Refused(bus[j := bus[j].(features := o.bus[j].features)], o.status)
    && Tables.Get(o.bus[j].features, id, room)
       == if o.status == Success && id == data[0] then Some(if |data| <= room then data else data[..room])
          else Tables.Get(bus[j].features, id, room)
  }

  lemma SetIsAnswered(bus: seq<Slot>, j: nat, data: seq<byte>, id: byte, room: nat)
    requires ReportFits(data) && j < |bus| == MAX_DEVICES
    requires bus[j].used && bus[j].kind == KIND_HID && IsPlugged(bus[j])
    ensures SetOutcome(bus, Step(bus, SetFeature(bus[j].owner.value, ReportBytes(j, data))), j, data, id, room)
  {
    var t := bus[j].features;
    RequestIsRead(j, data);
    Tables.ClientSetIsReadBack(t, data, id);
    Tables.ClientSetIsReadBack(t, data, data[0]);
    KnownIsFound(t, data[0]);
    hide ReadReportIn, ReportBytes, Tables.ClientSet, Tables.Lookup, Tables.FirstMatch;
  }

  lemma KnownIsFound(t: seq<Feature>, id: byte)
    ensures Tables.Lookup(t, id).Some? <==> exists f :: f in t && f.id == id
  {
    var i := Tables.FirstMatch(t, id);
    if i < |t| {
      assert t[i] in t;
    }
  }

  /**
   * After any run, an owner's input is answered and remembered: an Xbox slot takes twenty
   * bytes and no other length, a HID slot takes any and answers what the HID stack does.
   */
  lemma InputIsAnswered(events: seq<Event>, j: nat, data: seq<byte>, submitted: Option<Failure>)
    requires ReportFits(data)
    requires var bus := Run(EMPTY_BUS, events); j < |bus| && bus[j].used
    ensures var bus := Run(EMPTY_BUS, events);
            && bus[j].owner.Some? && j < MAX_DEVICES
            && var o := Step(bus, Input(bus[j].owner.value, ReportBytes(j, data), submitted));
               && (bus[j].kind == KIND_XUSB && |data| != 20 ==>
                     o.status == InvalidParameter && o.information == 0 && o.bus == bus && o.served == [])
               && (bus[j].kind == KIND_XUSB && |data| == 20 ==>
                     && o.status == Success && o.information == 20
                     && o.bus == bus[j := bus[j].(lastInput := data, pdo := o.bus[j].pdo)])
               && (bus[j].kind != KIND_XUSB ==>
                     && o.status == (if submitted.Some? then submitted.value else Success)
                     && o.information == (if submitted.Some? then 0 else |data|)
                     && o.bus == bus[j := bus[j].(lastInput := data)] && o.served == [])
  {
    var bus := Run(EMPTY_BUS, events);
    RunKeepsInv(events);
    assert SlotInv(bus[j]);
    hide Inv, Run;
    RequestIsRead(j, data);
    hide ReadReportIn, ReportBytes, XusbPipe.SubmitInput;
  }

  // ---------------------------------------------------------------------------
  // One report of the host after any run
  // ---------------------------------------------------------------------------

  /** What a host's event tells the client of slot `j`: a kind byte and the bytes that follow it. */
  function Told(e: Event): Option<(byte, seq<byte>)> {
    match e
    case HostWrite(_, data) => Some((0, if |data| > 512 then data[..512] else data))
    case HostSetFeature(_, _, data) => Some((1, if |data| > 512 then data[..512] else data))
    case XusbOut(_, data) =>
      if |data| >= 3 && data[..2] == [0x01, 0x03] then Some((0, data[..3]))
      else if |data| >= 8 && data[..2] == [0x00, 0x08] then Some((0, data[..8]))
      else None
    case _ => None
  }

  /** The completion a wait reads a report from: its kind, a zero, its length low byte first, and its bytes. */
  function Answer(w: Delivery.Waiter, kind: byte, data: seq<byte>): Delivery.Completion
    requires |data| <= 512
  {
    if w.room < 4 + |data| then Delivery.Completion(w.id, BufferTooSmall, [])
    else Delivery.Completion(w.id, Success, [kind, 0, |data| % 0x100, |data| / 0x100] + data)
  }

  lemma AnswerBytes(kind: byte, data: seq<byte>)
    requires |data| <= 512
    ensures OutputBytes(Report(kind, data)) == [kind, 0, |data| % 0x100, |data| / 0x100] + data
  {
  }

  /** A callback of the right kind of node. */
  predicate FromNode(s: Slot, e: Event) {
    match e
    case HostWrite(_, _) => s.vhf.Some?
    case HostSetFeature(_, _, _) => s.vhf.Some?
    case XusbOut(_, _) => s.pdo.Some?
    case _ => false
  }

  function Target(e: Event): Option<nat> {
    match e
    case HostWrite(index, _) => Some(index)
    case HostSetFeature(index, _, _) => Some(index)
    case XusbOut(index, _) => Some(index)
    case _ => None
  }

  /**
   * A report of the host is what its client is told: the slot holds it, the oldest wait is
   * completed with it, and it stays pending unless that wait had room. No other slot, and
   * nothing of this one but its features, moves.
   */
  lemma HostReportIsTold(bus: seq<Slot>, e: Event, j: nat)
    requires j < |bus| && Target(e) == Some(j) && FromNode(bus[j], e)
    ensures var o := Step(bus, e);
            match Told(e)
            case None => o == Refused(bus, Success)
            case Some((kind, data)) =>
              var waiters, s := bus[j].box.waiters, o.bus[j];
              && o.bus == bus[j := bus[j].(box := s.box, features := s.features)]
              && s.box.output == Report(kind, data)
              && s.box.waiters == (if waiters == [] then [] else waiters[1..])
              && (s.box.pending <==> waiters == [] || waiters[0].room < 4 + |data|)
              && o == Outcome(o.bus, Success, 0, None, if waiters == [] then [] else [Answer(waiters[0], kind, data)], [], [])
  {
    var told := Told(e);
    if told.Some? {
      AnswerBytes(told.value.0, told.value.1);
      DeliveryIsTold(bus[j].box, told.value.0, told.value.1);
    }
    hide OutputBytes, Tables.HostSet, Delivery.Deliver, Answer;
  }

  /** A delivery takes no more of a report than the driver's buffer holds. */
  lemma DeliveryIsTold(m: Delivery.Mailbox, kind: byte, data: seq<byte>)
    requires |data| <= 512
    ensures var a, waiters := Delivery.Deliver(m, kind, data), m.waiters;
            && a.box.output == Report(kind, data)
            && a.box.waiters == (if waiters == [] then [] else waiters[1..])
            && (a.box.pending <==> waiters == [] || waiters[0].room < 4 + |data|)
            && a.done == if waiters == [] then [] else [Answer(waiters[0], kind, data)]
    ensures forall more :: data <= more && (|data| == 512 || more == data) ==>
              Delivery.Deliver(m, kind, more) == Delivery.Deliver(m, kind, data)
  {
    AnswerBytes(kind, data);
    hide OutputBytes;
    forall more | data <= more && (|data| == 512 || more == data)
      ensures Delivery.Clamp(more) == data
    {
      assert Delivery.Clamp(more) == more[..|data|];
    }
  }

  /**
   * An owner's wait joins the queue, and reads a pending report at once if it is the oldest;
   * without room for the header, or when its forward is refused, nothing happens.
   */
  lemma WaitIsAnswered(bus: seq<Slot>, j: nat, w: Delivery.Waiter, forwarded: Option<Failure>)
    requires Inv(bus) && j < |bus| && bus[j].used
    ensures j < MAX_DEVICES && bus[j].owner.Some?
    ensures var o := Step(bus, WaitOutput(bus[j].owner.value, Le32(j), w, forwarded));
            var queue, box := bus[j].box.waiters + [w], bus[j].box;
            if w.room < 4 then o == Refused(bus, BufferTooSmall)
            else if forwarded.Some? then o == Refused(bus, forwarded.value)
            else
              && o == Outcome(bus[j := bus[j].(box := o.bus[j].box)], Pending, 0, None, o.done, [], [])
              && o.bus[j].box.output == box.output
              && o.bus[j].box.waiters == (if box.pending then queue[1..] else queue)
              && (o.bus[j].box.pending <==> box.pending && queue[0].room < 4 + |box.output.data|)
              && o.done == if box.pending then [Answer(queue[0], box.output.kind, box.output.data)] else []
  {
    assert SlotInv(bus[j]);
    AnswerBytes(bus[j].box.output.kind, bus[j].box.output.data);
    Le32RoundTrip(j, Le32(j), 0);
    assert Le32(j)[0..4] == Le32(j);
    hide OutputBytes, Inv;
  }

  /** An in transfer is served at once, queued as the youngest, or refused without a trace; an abort cancels all that wait. */
  lemma TransferIsAnswered(bus: seq<Slot>, j: nat, t: XusbPipe.Transfer, accepted: bool)
    requires j < |bus| && bus[j].pdo.Some?
    ensures var o, waiting := Step(bus, XusbIn(j, t, accepted)), bus[j].pdo.value.pipe.pendingIn;
            && o.bus == bus[j := bus[j].(pdo := o.bus[j].pdo)] && o.done == [] && o.cancelled == []
            && o.bus[j].pdo.Some? && o.bus[j].pdo.value.identity == bus[j].pdo.value.identity
            && (o.status == Success ==> |o.served| == 1 && o.served[0].transfer == t && o.bus[j].pdo.value.pipe.pendingIn == waiting)
            && (o.status == Pending ==> accepted && o.served == [] && o.bus[j].pdo.value.pipe.pendingIn == waiting + [t])
            && (o.status != Success && o.status != Pending ==> o == Refused(bus, InvalidRequest) && !accepted)
    ensures var o := Step(bus, XusbAbort(j));
            o.status == Success && o.cancelled == bus[j].pdo.value.pipe.pendingIn && o.served == [] && o.done == []
  {
    if !accepted {
      var p := bus[j].pdo.value.pipe;
      assert bus[j].(pdo := Some(bus[j].pdo.value.(pipe := p))) == bus[j];
    }
  }

  // ---------------------------------------------------------------------------
  // The end of a lifetime
  // ---------------------------------------------------------------------------

  function Failed(waiters: seq<Delivery.Waiter>): seq<Delivery.Completion> {
    if waiters == [] then [] else [Delivery.Completion(waiters[0].id, Cancelled, [])] + Failed(waiters[1..])
  }

  /** What a handle's devices leave waiting, slot by slot: waits to fail, and transfers to cancel. */
  function LeftWaiting(bus: seq<Slot>, handle: Handle): (seq<Delivery.Completion>, seq<XusbPipe.Transfer>) {
    if bus == [] then ([], [])
    else
      var rest := LeftWaiting(bus[1..], handle);
      if bus[0].owner == Some(handle) then
        (Failed(bus[0].box.waiters) + rest.0, (if bus[0].pdo.Some? then bus[0].pdo.value.pipe.pendingIn else []) + rest.1)
      else rest
  }

  lemma {:induction false} PurgedFails(waiters: seq<Delivery.Waiter>)
    ensures Purged(waiters) == Failed(waiters)
  {
    if waiters != [] {
      PurgedFails(waiters[1..]);
      assert Purged(waiters) == [Purged(waiters)[0]] + Purged(waiters[1..]);
    }
  }

  lemma {:induction false} CloseLeavesNobodyWaiting(bus: seq<Slot>, i: nat, handle: Handle)
    requires Inv(bus) && i <= |bus|
    ensures var o := CloseFrom(bus, i, handle); (o.done, o.cancelled) == LeftWaiting(bus[i..], handle)
    decreases |bus| - i
  {
    if i < |bus| {
      var now := UnplugStep(bus, i, handle);
      assert SlotInv(bus[i]);
      PurgedFails(bus[i].box.waiters);
      UnplugKeepsInv(bus, i, handle);
      CloseLeavesNobodyWaiting(now.bus, i + 1, handle);
      assert now.bus[i + 1..] == bus[i + 1..] == bus[i..][1..];
      var rest := CloseFrom(now.bus, i + 1, handle);
      assert [] + rest.done == rest.done && [] + rest.cancelled == rest.cancelled;
      hide Purged, Inv;
    }
  }

  lemma UnplugKeepsInv(bus: seq<Slot>, i: nat, handle: Handle)
    requires Inv(bus)
    ensures Inv(UnplugStep(bus, i, handle).bus)
  {
  }

  /** Closing a handle fails every wait and cancels every transfer on its devices, in order, and no other. */
  lemma CloseCancelsAll(events: seq<Event>, handle: Handle)
    ensures var o := Step(Run(EMPTY_BUS, events), Close(handle));
            && o.status == Success && o.information == 0 && o.slot == None && o.served == []
            && (o.done, o.cancelled) == LeftWaiting(Run(EMPTY_BUS, events), handle)
  {
    RunKeepsInv(events);
    hide Run;
    var bus := Run(EMPTY_BUS, events);
    CloseLeavesNobodyWaiting(bus, 0, handle);
    assert bus[0..] == bus;
    CloseSucceeds(bus, 0, handle);
  }

  lemma {:induction false} CloseSucceeds(bus: seq<Slot>, i: nat, handle: Handle)
    ensures var o := CloseFrom(bus, i, handle);
            o.status == Success && o.information == 0 && o.slot == None && o.served == []
    decreases |bus| - i
  {
    if i < |bus| {
      CloseSucceeds(UnplugStep(bus, i, handle).bus, i + 1, handle);
    }
  }

  /** An owner's unplug fails every wait and cancels every transfer on that device, in order. */
  lemma UnplugCancelsAll(bus: seq<Slot>, j: nat)
    requires Inv(bus) && j < |bus| && bus[j].used
    ensures j < MAX_DEVICES && bus[j].owner.Some?
    ensures var o, s := Step(bus, Unplug(bus[j].owner.value, Le32(j))), bus[j];
            && o.status == Success && o.information == 0 && o.slot == None && o.served == []
            && o.done == Failed(s.box.waiters)
            && o.cancelled == (if s.pdo.Some? then s.pdo.value.pipe.pendingIn else [])
  {
    assert SlotInv(bus[j]);
    PurgedFails(bus[j].box.waiters);
    Le32RoundTrip(j, Le32(j), 0);
    assert Le32(j)[0..4] == Le32(j);
    hide Purged, Inv;
  }
}
