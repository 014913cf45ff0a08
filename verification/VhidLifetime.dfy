/**
 * What the Windows bus means to one device from plug to unplug: its mailbox and its pipe
 * run as if the other slots were not there, and what they complete is what the bus
 * completes for it. And what the bus owes to every wait it ever pended.
 */
module VhidLifetime {
  import opened Common
  import opened Bytes
  import opened Wire
  import opened VhidBus
  import Delivery
  import FeatureTables
  import XusbPipe

  // ---------------------------------------------------------------------------
  // One slot's share of a step
  // ---------------------------------------------------------------------------

  /** The delivery events of slot `j` in one step. */
  function BoxEvents(bus: seq<Slot>, e: Event, j: nat): seq<Delivery.Event> {
    match e
    case WaitOutput(handle, buffer, w, forwarded) =>
      if |buffer| >= 4 && w.room >= OUTPUT_HEADER && forwarded.None? && SlotFor(bus, Le32At(buffer, 0), handle) == Some(j)
      then [Delivery.Waited(w)] else []
    case HostWrite(index, data) =>
      if index == j && j < |bus| && bus[j].vhf.Some? then [Delivery.Delivered(OUTPUT_KIND_REPORT, data)] else []
    case HostSetFeature(index, id, data) =>
      if index == j && j < |bus| && bus[j].vhf.Some? then [Delivery.Delivered(OUTPUT_KIND_FEATURE, data)] else []
    case XusbOut(index, data) =>
      if index == j && j < |bus| && bus[j].pdo.Some? && OutPacket(data).Some?
      then [Delivery.Delivered(OUTPUT_KIND_REPORT, OutPacket(data).value)] else []
    case _ => []
  }

  /** The pipe events of slot `j` in one step. */
  function PipeEvents(bus: seq<Slot>, e: Event, j: nat): seq<XusbPipe.Event> {
    match e
    case Input(handle, buffer, submitted) =>
      (match ReadReportIn(buffer)
       case Err(_) => []
       case Ok(r) =>
         if SlotFor(bus, r.slot, handle) == Some(j) && bus[j].kind == KIND_XUSB && bus[j].pdo.Some?
         then [XusbPipe.Submit(r.report)] else [])
    case XusbIn(index, transfer, accepted) =>
      if index == j && j < |bus| && bus[j].pdo.Some? then [XusbPipe.InTransfer(transfer, accepted)] else []
    case XusbAbort(index) =>
      if index == j && j < |bus| && bus[j].pdo.Some? then [XusbPipe.Abort] else []
    case _ => []
  }

  /** What happened to slot `j` over a run, and what the bus completed for it meanwhile. */
  datatype Life = Life(
    box: seq<Delivery.Event>,
    pipe: seq<XusbPipe.Event>,
    done: seq<Delivery.Completion>,
    served: seq<XusbPipe.Served>,
    cancelled: seq<XusbPipe.Transfer>)

  function LifeOf(bus: seq<Slot>, events: seq<Event>, j: nat): Life
    decreases |events|
  {
    if events == [] then Life([], [], [], [], [])
    else LiveOn(LifeOf(bus, DropLast(events), j), Run(bus, DropLast(events)), Last(events), j)
  }

  function LiveOn(l: Life, bus: seq<Slot>, e: Event, j: nat): Life {
    var o := Step(bus, e);
    var box, pipe := BoxEvents(bus, e, j), PipeEvents(bus, e, j);
    Life(l.box + box, l.pipe + pipe,
         if box == [] then l.done else l.done + o.done,
         if pipe == [] then l.served else l.served + o.served,
         if pipe == [] then l.cancelled else l.cancelled + o.cancelled)
  }

  /** Slot `j` stays plugged from the start to the end of the run. */
  ghost predicate PluggedThroughout(bus: seq<Slot>, events: seq<Event>, j: nat) {
    forall k :: 0 <= k <= |events| ==>
      var b := Run(bus, events[..k]);
      j < |b| && b[j].used
  }

  lemma PluggedBefore(bus: seq<Slot>, events: seq<Event>, j: nat)
    requires events != [] && PluggedThroughout(bus, events, j)
    ensures PluggedThroughout(bus, DropLast(events), j)
    ensures var b := Run(bus, DropLast(events)); j < |b| && b[j].used
    ensures var b := Run(bus, events); j < |b| && b[j].used
  {
    var before := DropLast(events);
    assert forall k :: 0 <= k <= |before| ==> before[..k] == events[..k];
    assert before[..|before|] == before && events[..|events|] == events;
  }

  // ---------------------------------------------------------------------------
  // Steps that leave a slot's mailbox and pipe alone
  // ---------------------------------------------------------------------------

  /** Requests of owners: while slot `j` stays plugged they touch neither its mailbox nor its pipe. */
  lemma OwnerStepsKeepSlot(bus: seq<Slot>, e: Event, j: nat)
    requires j < |bus| && bus[j].used && Step(bus, e).bus[j].used
    requires e.Plug? || e.Unplug? || e.Close?
    ensures Step(bus, e).bus[j] == bus[j]
  {
    hide VhidBus.Publish, CheckHeader, CloseFrom;
    if e.Close? {
      CloseReleasesOwned(bus, 0, e.handle);
    }
  }

  lemma RequestsKeepBox(bus: seq<Slot>, e: Event, j: nat)
    requires j < |bus|
    requires e.Input? || e.SetFeature? || e.XusbIn? || e.XusbAbort?
    ensures Step(bus, e).bus[j].box == bus[j].box
  {
    hide ReadReportIn, FeatureTables.ClientSet, XusbPipe.Apply, XusbPipe.SubmitInput;
  }

  lemma CallbacksKeepPipe(bus: seq<Slot>, e: Event, j: nat)
    requires j < |bus|
    requires e.WaitOutput? || e.SetFeature? || e.HostWrite? || e.HostSetFeature? || e.XusbOut?
    ensures Step(bus, e).bus[j].pdo == bus[j].pdo
  {
    hide ReadReportIn, FeatureTables.ClientSet, FeatureTables.HostSet, Delivery.Deliver, Delivery.Wait, OutPacket;
  }

  // ---------------------------------------------------------------------------
  // The mailbox
  // ---------------------------------------------------------------------------

  lemma OneDelivery(h: Delivery.History, e: Delivery.Event)
    ensures Delivery.Run(h, [e]) == Delivery.Step(h, e)
  {
    assert DropLast([e]) == [];
  }

  lemma WaitMovesBox(bus: seq<Slot>, e: Event, j: nat, h: Delivery.History)
    requires e.WaitOutput? && j < |bus| && h.box == bus[j].box
    ensures MovesBox(bus, e, j, h)
  {
    hide Delivery.Wait, SlotFor;
    OneDelivery(h, Delivery.Waited(e.waiter));
  }

  lemma WriteMovesBox(bus: seq<Slot>, e: Event, j: nat, h: Delivery.History)
    requires (e.HostWrite? || e.HostSetFeature? || e.XusbOut?) && j < |bus| && h.box == bus[j].box
    ensures MovesBox(bus, e, j, h)
  {
    hide Delivery.Deliver, OutPacket, FeatureTables.HostSet;
    var events := BoxEvents(bus, e, j);
    if events != [] {
      OneDelivery(h, events[0]);
      assert events == [events[0]];
    }
  }

  /** One step moves the mailbox, and completes for the slot, as its own delivery events do. */
  ghost predicate MovesBox(bus: seq<Slot>, e: Event, j: nat, h: Delivery.History)
    requires j < |bus|
  {
    var o, k := Step(bus, e), Delivery.Run(h, BoxEvents(bus, e, j));
    && k.box == o.bus[j].box
    && k.done == if BoxEvents(bus, e, j) == [] then h.done else h.done + o.done
  }

  lemma StepMovesBox(bus: seq<Slot>, e: Event, j: nat, h: Delivery.History)
    requires j < |bus| && bus[j].used && h.box == bus[j].box
    requires Step(bus, e).bus[j].used
    ensures MovesBox(bus, e, j, h)
  {
    if e.WaitOutput? {
      WaitMovesBox(bus, e, j, h);
    } else if e.HostWrite? || e.HostSetFeature? || e.XusbOut? {
      WriteMovesBox(bus, e, j, h);
    } else {
      if e.Plug? || e.Unplug? || e.Close? {
        OwnerStepsKeepSlot(bus, e, j);
      } else {
        RequestsKeepBox(bus, e, j);
      }
      hide Step;
      assert BoxEvents(bus, e, j) == [];
    }
  }

  // ---------------------------------------------------------------------------
  // The pipe
  // ---------------------------------------------------------------------------

  lemma OnePipeEvent(h: XusbPipe.History, e: XusbPipe.Event)
    ensures XusbPipe.StepAll(h, [e]) == XusbPipe.Step(h, e)
  {
    assert DropLast([e]) == [];
  }

  /** One step moves the pipe, and serves its transfers, as its own pipe events do. */
  ghost predicate MovesPipe(bus: seq<Slot>, e: Event, j: nat, h: XusbPipe.History)
    requires j < |bus|
  {
    var o, k := Step(bus, e), XusbPipe.StepAll(h, PipeEvents(bus, e, j));
    && o.bus[j].pdo.Some? && k.pipe == o.bus[j].pdo.value.pipe
    && k.served == (if PipeEvents(bus, e, j) == [] then h.served else h.served + o.served)
    && k.cancelled == (if PipeEvents(bus, e, j) == [] then h.cancelled else h.cancelled + o.cancelled)
  }

  lemma InputMovesPipe(bus: seq<Slot>, e: Event, j: nat, h: XusbPipe.History)
    requires e.Input? && j < |bus| && bus[j].pdo.Some? && h.pipe == bus[j].pdo.value.pipe
    ensures MovesPipe(bus, e, j, h)
  {
    hide ReadReportIn, SlotFor;
    var events := PipeEvents(bus, e, j);
    if events != [] {
      OnePipeEvent(h, events[0]);
      assert events == [events[0]];
    }
  }

  lemma HostMovesPipe(bus: seq<Slot>, e: Event, j: nat, h: XusbPipe.History)
    requires (e.XusbIn? || e.XusbAbort?) && j < |bus| && bus[j].pdo.Some? && h.pipe == bus[j].pdo.value.pipe
    ensures MovesPipe(bus, e, j, h)
  {
    hide XusbPipe.Apply;
    var events := PipeEvents(bus, e, j);
    if events != [] {
      OnePipeEvent(h, events[0]);
      assert events == [events[0]];
    }
  }

  lemma StepMovesPipe(bus: seq<Slot>, e: Event, j: nat, h: XusbPipe.History)
    requires j < |bus| && bus[j].used && bus[j].pdo.Some? && h.pipe == bus[j].pdo.value.pipe
    requires Step(bus, e).bus[j].used
    ensures MovesPipe(bus, e, j, h)
  {
    if e.Input? {
      InputMovesPipe(bus, e, j, h);
    } else if e.XusbIn? || e.XusbAbort? {
      HostMovesPipe(bus, e, j, h);
    } else {
      if e.Plug? || e.Unplug? || e.Close? {
        OwnerStepsKeepSlot(bus, e, j);
      } else {
        CallbacksKeepPipe(bus, e, j);
      }
      hide Step;
      assert PipeEvents(bus, e, j) == [];
    }
  }

  // ---------------------------------------------------------------------------
  // A whole lifetime
  // ---------------------------------------------------------------------------

  /** A slot as a successful plug leaves it: nothing pending, nobody waiting, an unbooted pipe. */
  ghost predicate JustPlugged(s: Slot) {
    && s.used && !s.box.pending && s.box.waiters == []
    && (s.pdo.Some? ==> s.pdo.value.pipe == XusbPipe.PLUGGED.pipe)
  }

  lemma PlugStartsALife(bus: seq<Slot>, e: Event, j: nat)
    requires Inv(bus) && e.Plug? && Step(bus, e).slot == Some(j)
    ensures Inv(Step(bus, e).bus) && j < |bus| && JustPlugged(Step(bus, e).bus[j])
    ensures Step(bus, e).bus[j].pdo.Some? <==> Step(bus, e).bus[j].kind == KIND_XUSB
  {
    StepKeepsInv(bus, e);
    hide ParseFeatures;
  }

  /** While a device stays plugged, its mailbox and what it completes are those of its own delivery events. */
  lemma {:induction false} LifetimeIsADeliveryRun(bus: seq<Slot>, events: seq<Event>, j: nat)
    requires Inv(bus) && j < |bus| && JustPlugged(bus[j]) && PluggedThroughout(bus, events, j)
    ensures Inv(Run(bus, events)) && j < |Run(bus, events)|
    ensures var l, h := LifeOf(bus, events, j), Delivery.Run(Delivery.Fresh(bus[j].box.output), LifeOf(bus, events, j).box);
            h.box == Run(bus, events)[j].box && h.done == l.done
    decreases |events|
  {
    if events != [] {
      hide Inv, Step, BoxEvents, PipeEvents, PluggedThroughout;
      var before, e := DropLast(events), Last(events);
      PluggedBefore(bus, events, j);
      LifetimeIsADeliveryRun(bus, before, j);
      var b, l := Run(bus, before), LifeOf(bus, before, j);
      var h := Delivery.Run(Delivery.Fresh(bus[j].box.output), l.box);
      StepKeepsInv(b, e);
      StepMovesBox(b, e, j, h);
      Delivery.RunAppends(Delivery.Fresh(bus[j].box.output), l.box, BoxEvents(b, e, j));
      hide Delivery.Run;
    }
  }

  /** While an Xbox device stays plugged, its pipe and what it serves are those of its own inputs and transfers. */
  lemma {:induction false} LifetimeIsAPipeRun(bus: seq<Slot>, events: seq<Event>, j: nat)
    requires Inv(bus) && j < |bus| && JustPlugged(bus[j]) && bus[j].pdo.Some? && PluggedThroughout(bus, events, j)
    ensures Inv(Run(bus, events)) && j < |Run(bus, events)| && Run(bus, events)[j].pdo.Some?
    ensures var l, h := LifeOf(bus, events, j), XusbPipe.Run(LifeOf(bus, events, j).pipe);
            h.pipe == Run(bus, events)[j].pdo.value.pipe && h.served == l.served && h.cancelled == l.cancelled
    decreases |events|
  {
    if events != [] {
      hide Inv, Step, BoxEvents, PipeEvents, PluggedThroughout;
      var before, e := DropLast(events), Last(events);
      PluggedBefore(bus, events, j);
      LifetimeIsAPipeRun(bus, before, j);
      var b, l := Run(bus, before), LifeOf(bus, before, j);
      StepKeepsInv(b, e);
      StepMovesPipe(b, e, j, XusbPipe.Run(l.pipe));
      XusbPipe.RunAppends(l.pipe, PipeEvents(b, e, j));
    }
  }

  /** Slot `j` was plugged by `plug` after the run `before`, and stayed so over `events`. */
  ghost predicate IsLifetime(before: seq<Event>, plug: Event, events: seq<Event>, j: nat) {
    var bus := Run(EMPTY_BUS, before);
    plug.Plug? && Step(bus, plug).slot == Some(j) && PluggedThroughout(Step(bus, plug).bus, events, j)
  }

  function Born(before: seq<Event>, plug: Event): seq<Slot> {
    Step(Run(EMPTY_BUS, before), plug).bus
  }

  /**
   * Over every lifetime in every run: the client reads an in-order, at-most-once choice of
   * the reports written to its device, the newest is pending or was read last, its waits
   * complete in order and once, and with client-sized buffers none of them fails or starves.
   */
  lemma OutputReachesTheClient(before: seq<Event>, plug: Event, events: seq<Event>, j: nat)
    requires IsLifetime(before, plug, events, j)
    ensures j < |Run(Born(before, plug), events)|
    ensures var l, box := LifeOf(Born(before, plug), events, j), Run(Born(before, plug), events)[j].box;
            var written, read := Delivery.Reports(l.box), Delivery.Received(l.done);
            && Subsequence(read, Delivery.Sent(written))
            && (written != [] ==>
                  if box.pending then box.output == Last(written) else read != [] && Last(read) == Some(Last(written)))
            && Delivery.CompletedIds(l.done) + Delivery.Ids(box.waiters) == Delivery.Ids(Delivery.Waits(l.box))
            && (Delivery.ClientSized(l.box) ==>
                  !(box.pending && box.waiters != []) && forall c :: c in l.done ==> c.status == Status.Success)
  {
    var start := Born(before, plug);
    RunKeepsInv(before);
    PlugStartsALife(Run(EMPTY_BUS, before), plug, j);
    assert SlotInv(start[j]);
    hide Inv, Run, Step, PluggedThroughout, JustPlugged, LifeOf;
    LifetimeIsADeliveryRun(start, events, j);
    var l, output := LifeOf(start, events, j), start[j].box.output;
    Delivery.RunLogs(output, l.box);
    Delivery.NewestReportIsNeverLost(output, l.box);
    Delivery.EveryWaitIsQueuedOrCompletedOnce(output, l.box);
    if Delivery.ClientSized(l.box) {
      Delivery.ClientSizedWaitsNeverStarve(output, l.box);
    }
  }

  /**
   * Over every lifetime of an Xbox device in every run: its host reads the boot packets in
   * order and then an in-order, at-most-once choice of its owner's inputs, and each transfer
   * is served, cancelled, refused or still waiting, in the order they were asked for.
   */
  lemma InputReachesTheHost(before: seq<Event>, plug: Event, events: seq<Event>, j: nat)
    requires IsLifetime(before, plug, events, j)
    requires Born(before, plug)[j].kind == KIND_XUSB
    ensures j < |Run(Born(before, plug), events)| && Run(Born(before, plug), events)[j].pdo.Some?
    ensures var l := LifeOf(Born(before, plug), events, j);
            var packets := XusbPipe.Packets(l.served);
            && (|packets| <= XusbPipe.BOOT_STAGES ==> packets == XusbPipe.BOOT[..|packets|])
            && (|packets| > XusbPipe.BOOT_STAGES ==>
                  && packets[..XusbPipe.BOOT_STAGES] == XusbPipe.BOOT
                  && Subsequence(packets[XusbPipe.BOOT_STAGES..], XusbPipe.Inputs(l.pipe)))
    ensures var l, pipe := LifeOf(Born(before, plug), events, j), Run(Born(before, plug), events)[j].pdo.value.pipe;
            && multiset(XusbPipe.Requests(l.pipe))
               == multiset(XusbPipe.Transfers(l.served)) + multiset(pipe.pendingIn) + multiset(l.cancelled)
                  + multiset(XusbPipe.Run(l.pipe).refused)
            && Subsequence(XusbPipe.Transfers(l.served) + pipe.pendingIn, XusbPipe.Requests(l.pipe))
  {
    var start := Born(before, plug);
    RunKeepsInv(before);
    PlugStartsALife(Run(EMPTY_BUS, before), plug, j);
    hide Inv, Run, Step, PluggedThroughout, JustPlugged, LifeOf;
    LifetimeIsAPipeRun(start, events, j);
    var l := LifeOf(start, events, j);
    XusbPipe.RunLogs(l.pipe);
    XusbPipe.BootThenInputsInOrder(l.pipe);
    XusbPipe.EveryTransferIsAccounted(l.pipe);
    XusbPipe.TransfersAreServedInOrder(l.pipe);
  }

  // ---------------------------------------------------------------------------
  // Every wait of the whole bus
  // ---------------------------------------------------------------------------

  /** How often a request is among the completed ones. */
  function Times(done: seq<Delivery.Completion>, id: nat): nat {
    multiset(Delivery.CompletedIds(done))[id]
  }

  /** How often a request waits on a slot. */
  function Waiting(s: Slot, id: nat): nat {
    multiset(Delivery.Ids(s.box.waiters))[id]
  }

  /** How often a request waits on the bus. */
  function Queued(bus: seq<Slot>, id: nat): nat {
    if bus == [] then 0 else Queued(DropLast(bus), id) + Waiting(Last(bus), id)
  }

  /** Whether a step pends this wait. */
  function Pends(bus: seq<Slot>, e: Event, id: nat): nat {
    if e.WaitOutput? && e.waiter.id == id && Step(bus, e).status == Pending then 1 else 0
  }

  lemma TimesAppends(a: seq<Delivery.Completion>, b: seq<Delivery.Completion>, id: nat)
    ensures Times(a + b, id) == Times(a, id) + Times(b, id)
    ensures Times([], id) == 0
  {
    assert Delivery.CompletedIds(a + b) == Delivery.CompletedIds(a) + Delivery.CompletedIds(b);
  }

  lemma {:induction false} QueuedUpdate(bus: seq<Slot>, i: nat, s: Slot, id: nat)
    requires i < |bus|
    ensures Queued(bus[i := s], id) + Waiting(bus[i], id) == Queued(bus, id) + Waiting(s, id)
    decreases |bus|
  {
    hide Waiting;
    if i < |bus| - 1 {
      QueuedUpdate(DropLast(bus), i, s, id);
      assert DropLast(bus[i := s]) == DropLast(bus)[i := s];
    } else {
      assert DropLast(bus[i := s]) == DropLast(bus);
    }
  }

  lemma PurgedAccounts(s: Slot, id: nat)
    ensures Times(Purged(s.box.waiters), id) == Waiting(s, id)
    ensures Waiting(Released(s), id) == 0
  {
    assert Delivery.CompletedIds(Purged(s.box.waiters)) == Delivery.Ids(s.box.waiters);
    assert Delivery.Ids([]) == [];
  }

  lemma UnplugAccounts(bus: seq<Slot>, i: nat, handle: Handle, id: nat)
    ensures var o := UnplugStep(bus, i, handle); Queued(bus, id) == Times(o.done, id) + Queued(o.bus, id)
  {
    hide Queued, Waiting, Times, Released, Purged;
    TimesAppends([], [], id);
    if UnplugStep(bus, i, handle).status == Success {
      QueuedUpdate(bus, i, Released(bus[i]), id);
      PurgedAccounts(bus[i], id);
    }
  }

  lemma {:induction false} CloseAccounts(bus: seq<Slot>, i: nat, handle: Handle, id: nat)
    requires i <= |bus|
    ensures var o := CloseFrom(bus, i, handle); Queued(bus, id) == Times(o.done, id) + Queued(o.bus, id)
    decreases |bus| - i
  {
    hide Queued, Times;
    TimesAppends([], [], id);
    if i < |bus| {
      var now := UnplugStep(bus, i, handle);
      assert |now.bus| == |bus|;
      UnplugAccounts(bus, i, handle, id);
      CloseAccounts(now.bus, i + 1, handle, id);
      TimesAppends(now.done, CloseFrom(now.bus, i + 1, handle).done, id);
      hide UnplugStep;
    }
  }

  lemma CompletingAccounts(m: Delivery.Mailbox, id: nat)
    ensures var a := Delivery.CompleteWaiter(m);
            multiset(Delivery.Ids(m.waiters))[id] == Times(a.done, id) + multiset(Delivery.Ids(a.box.waiters))[id]
  {
    var a := Delivery.CompleteWaiter(m);
    Delivery.CompleteKeepsIds(m, []);
    assert [] + a.done == a.done;
    assert Delivery.CompletedIds([]) == [];
    assert Delivery.CompletedIds(a.done) + Delivery.Ids(a.box.waiters) == Delivery.Ids(m.waiters);
  }

  lemma DeliveryAccounts(s: Slot, kind: byte, data: seq<byte>, id: nat)
    ensures var a := Delivery.Deliver(s.box, kind, data);
            Waiting(s, id) == Times(a.done, id) + Waiting(s.(box := a.box), id)
  {
    CompletingAccounts(s.box.(pending := true, output := Report(kind, Delivery.Clamp(data))), id);
  }

  lemma WaitAccounts(s: Slot, w: Delivery.Waiter, id: nat)
    ensures var a := Delivery.Wait(s.box, w);
            Waiting(s, id) + (if w.id == id then 1 else 0) == Times(a.done, id) + Waiting(s.(box := a.box), id)
  {
    var queued := s.box.(waiters := s.box.waiters + [w]);
    assert Delivery.Ids(queued.waiters) == Delivery.Ids(s.box.waiters) + [w.id];
    CompletingAccounts(queued, id);
    TimesAppends([], [], id);
  }

  ghost predicate Accounts(bus: seq<Slot>, e: Event, id: nat) {
    Queued(bus, id) + Pends(bus, e, id) == Times(Step(bus, e).done, id) + Queued(Step(bus, e).bus, id)
  }

  lemma UnplugAndCloseAccount(bus: seq<Slot>, e: Event, id: nat)
    requires e.Unplug? || e.Close?
    ensures Accounts(bus, e, id)
  {
    hide Queued, Times, UnplugStep, CloseFrom;
    TimesAppends([], [], id);
    match e
    case Unplug(handle, buffer) =>
      if |buffer| >= 4 {
        UnplugAccounts(bus, Le32At(buffer, 0), handle, id);
      }
    case Close(handle) => CloseAccounts(bus, 0, handle, id);
  }

  lemma PlugAccounts(bus: seq<Slot>, e: Event, id: nat)
    requires Inv(bus) && e.Plug?
    ensures Accounts(bus, e, id)
  {
    TimesAppends([], [], id);
    PlugLeavesWaiters(bus, e);
    var i := FirstFree(bus);
    if i < |bus| {
      QueuedUpdate(bus, i, Step(bus, e).bus[i], id);
    }
    hide Queued, Inv, PlugStep, Times;
  }

  /** A plug, failed or not, leaves nobody waiting on the slot it tries. */
  lemma PlugLeavesWaiters(bus: seq<Slot>, e: Event)
    requires Inv(bus) && e.Plug?
    ensures var i, o := FirstFree(bus), Step(bus, e);
            && o.done == []
            && if i < |bus| then o.bus == bus[i := o.bus[i]] && o.bus[i].box.waiters == [] == bus[i].box.waiters else o.bus == bus
  {
    hide CheckHeader, VhidBus.Publish, Reserved;
    var i := FirstFree(bus);
    if i < |bus| {
      assert SlotInv(bus[i]);
      if CheckHeader(e.buffer) == Status.Success {
        PublishLeavesWaiters(bus[i], e.handle, e.buffer, e.resources);
      }
      hide Inv, SlotInv;
      assert bus == bus[i := bus[i]];
    }
  }

  lemma PublishLeavesWaiters(s: Slot, handle: Handle, buffer: seq<byte>, res: Resources)
    requires CheckHeader(buffer) == Status.Success && s.box.waiters == []
    ensures VhidBus.Publish(Reserved(s, handle, HeaderOf(buffer).kind), buffer, res).slot.box.waiters == []
  {
    hide ParseFeatures, CheckHeader;
  }

  lemma RequestAccounts(bus: seq<Slot>, e: Event, id: nat)
    requires e.Input? || e.SetFeature? || e.XusbIn? || e.XusbAbort?
    ensures Accounts(bus, e, id)
  {
    TimesAppends([], [], id);
    QuietSteps(bus, e);
    hide Step;
    QueuedByWaiters(bus, Step(bus, e).bus, id);
  }

  lemma QuietSteps(bus: seq<Slot>, e: Event)
    requires e.Input? || e.SetFeature? || e.XusbIn? || e.XusbAbort?
    ensures Step(bus, e).done == []
    ensures forall j :: 0 <= j < |bus| ==> Step(bus, e).bus[j].box == bus[j].box
  {
    hide ReadReportIn, FeatureTables.ClientSet, XusbPipe.Apply, XusbPipe.SubmitInput;
  }

  lemma {:induction false} QueuedByWaiters(bus: seq<Slot>, after: seq<Slot>, id: nat)
    requires |bus| == |after| && forall j :: 0 <= j < |bus| ==> after[j].box == bus[j].box
    ensures Queued(bus, id) == Queued(after, id)
    decreases |bus|
  {
    if bus != [] {
      QueuedByWaiters(DropLast(bus), DropLast(after), id);
    }
  }

  lemma WaitStepAccounts(bus: seq<Slot>, e: Event, id: nat)
    requires e.WaitOutput?
    ensures Accounts(bus, e, id)
  {
    hide Queued, Delivery.Wait, Waiting, Times;
    TimesAppends([], [], id);
    var o := Step(bus, e);
    if o.status == Pending {
      var i := SlotFor(bus, Le32At(e.buffer, 0), e.handle).value;
      WaitAccounts(bus[i], e.waiter, id);
      QueuedUpdate(bus, i, o.bus[i], id);
    }
  }

  lemma CallbackAccounts(bus: seq<Slot>, e: Event, id: nat)
    requires e.HostWrite? || e.HostSetFeature? || e.XusbOut?
    ensures Accounts(bus, e, id)
  {
    hide Queued, Delivery.Deliver, OutPacket, FeatureTables.HostSet, Waiting, Times;
    TimesAppends([], [], id);
    var o := Step(bus, e);
    var events := BoxEvents(bus, e, e.index);
    if events != [] {
      DeliveryAccounts(bus[e.index], events[0].kind, events[0].data, id);
      SameWaiters(bus[e.index].(box := o.bus[e.index].box), o.bus[e.index], id);
      QueuedUpdate(bus, e.index, o.bus[e.index], id);
    }
  }

  lemma SameWaiters(s: Slot, t: Slot, id: nat)
    requires s.box == t.box
    ensures Waiting(s, id) == Waiting(t, id)
  {
  }

  lemma StepAccounts(bus: seq<Slot>, e: Event, id: nat)
    requires Inv(bus)
    ensures Accounts(bus, e, id)
  {
    hide Accounts, Inv, Step;
    if e.Plug? {
      PlugAccounts(bus, e, id);
    } else if e.Unplug? || e.Close? {
      UnplugAndCloseAccount(bus, e, id);
    } else if e.WaitOutput? {
      WaitStepAccounts(bus, e, id);
    } else if e.HostWrite? || e.HostSetFeature? || e.XusbOut? {
      CallbackAccounts(bus, e, id);
    } else {
      RequestAccounts(bus, e, id);
    }
  }

  /** Every completion of a run, cancellations by unplug and file cleanup included. */
  function Completions(events: seq<Event>): seq<Delivery.Completion>
    decreases |events|
  {
    if events == [] then [] else Completions(DropLast(events)) + Step(Run(EMPTY_BUS, DropLast(events)), Last(events)).done
  }

  /** How often a run pended this wait. */
  function Pended(events: seq<Event>, id: nat): nat
    decreases |events|
  {
    if events == [] then 0 else Pended(DropLast(events), id) + Pends(Run(EMPTY_BUS, DropLast(events)), Last(events), id)
  }

  /** Over every run of the whole bus each pended wait is completed or still queued, exactly as often as it was pended. */
  lemma {:induction false} EveryWaitIsAccounted(events: seq<Event>, id: nat)
    ensures Pended(events, id) == Times(Completions(events), id) + Queued(Run(EMPTY_BUS, events), id)
    decreases |events|
  {
    TimesAppends([], [], id);
    if events == [] {
      NobodyWaits(EMPTY_BUS, id);
    } else {
      hide Queued, Step, Pends, Times, Inv;
      var before, e := DropLast(events), Last(events);
      EveryWaitIsAccounted(before, id);
      RunKeepsInv(before);
      StepAccounts(Run(EMPTY_BUS, before), e, id);
      TimesAppends(Completions(before), Step(Run(EMPTY_BUS, before), e).done, id);
    }
  }

  lemma {:induction false} NobodyWaits(bus: seq<Slot>, id: nat)
    requires forall i :: 0 <= i < |bus| ==> bus[i].box.waiters == []
    ensures Queued(bus, id) == 0
    decreases |bus|
  {
    if bus != [] {
      NobodyWaits(DropLast(bus), id);
      assert Last(bus) == bus[|bus| - 1];
      assert Delivery.Ids([]) == [];
    }
  }
}
