/**
 * The Windows AllunoVHID bus: sixteen slots, each with an owning file handle. One step
 * is one IOCTL, one file cleanup or one callback from the HID stack, taken as atomic.
 */
module VhidBus {
  import opened Common
  import opened Bytes
  import opened Wire
  import opened Delivery
  import FeatureTables
  import XusbPipe

  type Handle = nat

  type Failure = s: Status | s != Success && s != Pending witness Cancelled

  /** The child device an Xbox slot publishes, with its interrupt pipe. */
  datatype Pdo = Pdo(identity: Identity, pipe: XusbPipe.Pipe)

  /** The record the driver keeps per slot; a HID node is known by the identity it was created with. */
  datatype Slot = Slot(
    used: bool,
    started: bool,
    kind: u16,
    owner: Option<Handle>,
    vhf: Option<Identity>,
    pdo: Option<Pdo>,
    descriptor: Option<seq<byte>>,
    features: seq<Feature>,
    lastInput: seq<byte>,
    box: Mailbox)

  const EMPTY_SLOT := Slot(false, false, KIND_HID, None, None, None, None, [], [], Mailbox(false, Report(0, []), []))

  const EMPTY_BUS: seq<Slot> := [
    EMPTY_SLOT, EMPTY_SLOT, EMPTY_SLOT, EMPTY_SLOT,
    EMPTY_SLOT, EMPTY_SLOT, EMPTY_SLOT, EMPTY_SLOT,
    EMPTY_SLOT, EMPTY_SLOT, EMPTY_SLOT, EMPTY_SLOT,
    EMPTY_SLOT, EMPTY_SLOT, EMPTY_SLOT, EMPTY_SLOT
  ]

  /** Which of the foreign calls inside a plug succeed, and the status a failing one returns. */
  datatype Resources = Resources(pool: bool, pdo: bool, create: bool, start: bool, failure: Failure)

  datatype Event =
    | Plug(handle: Handle, buffer: seq<byte>, room: nat, resources: Resources)
    | Unplug(handle: Handle, buffer: seq<byte>)
    | Input(handle: Handle, buffer: seq<byte>, submitted: Option<Failure>)
    | WaitOutput(handle: Handle, buffer: seq<byte>, waiter: Waiter, forwarded: Option<Failure>)
    | SetFeature(handle: Handle, buffer: seq<byte>)
    | Close(handle: Handle)
    | HostWrite(index: nat, data: seq<byte>)
    | HostSetFeature(index: nat, id: byte, data: seq<byte>)
    | XusbOut(index: nat, data: seq<byte>)
    | XusbIn(index: nat, transfer: XusbPipe.Transfer, accepted: bool)
    | XusbAbort(index: nat)

  /** The bus after a step, the request's answer, and every other request and transfer the step completes. */
  datatype Outcome = Outcome(
    bus: seq<Slot>,
    status: Status,
    information: nat,
    slot: Option<nat>,
    done: seq<Completion>,
    served: seq<XusbPipe.Served>,
    cancelled: seq<XusbPipe.Transfer>)

  function Refused(bus: seq<Slot>, status: Status): Outcome {
    Outcome(bus, status, 0, None, [], [], [])
  }

  // ---------------------------------------------------------------------------
  // Slot transitions
  // ---------------------------------------------------------------------------

  function Reserved(s: Slot, handle: Handle, kind: u16): Slot {
    s.(used := true, started := false, kind := kind, owner := Some(handle), vhf := None, pdo := None,
       features := [], lastInput := [], box := s.box.(pending := false, output := Report(s.box.output.kind, [])))
  }

  function Released(s: Slot): Slot {
    s.(used := false, started := false, owner := None, vhf := None, pdo := None,
       descriptor := None, features := [], box := s.box.(pending := false, waiters := []))
  }

  /** Purging the queue completes every waiter with a cancellation. */
  function Purged(waiters: seq<Waiter>): (done: seq<Completion>)
    ensures |done| == |waiters|
  {
    seq(|waiters|, i requires 0 <= i < |waiters| => Completion(waiters[i].id, Cancelled, []))
  }

  /** The transfers still waiting in a child device's pipe, which unplugging purges. */
  function WaitingTransfers(s: Slot): seq<XusbPipe.Transfer> {
    if s.pdo.Some? then s.pdo.value.pipe.pendingIn else []
  }

  function FirstFree(bus: seq<Slot>): (i: nat)
    ensures i <= |bus|
    ensures i < |bus| ==> !bus[i].used
    ensures forall j :: 0 <= j < i ==> bus[j].used
  {
    FirstIndex(bus, (s: Slot) => !s.used)
  }

  // ---------------------------------------------------------------------------
  // One step
  // ---------------------------------------------------------------------------

  datatype Published = Published(slot: Slot, status: Status)

  /** What becomes of a freshly reserved slot: the published device, or a slot released again. */
  function Publish(s: Slot, buffer: seq<byte>, res: Resources): Published
    requires CheckHeader(buffer) == Success
  {
    var h := HeaderOf(buffer);
    if h.kind == KIND_XUSB then
      if !res.pdo then Published(Released(s), res.failure)
      else Published(s.(pdo := Some(Pdo(h.identity, XusbPipe.PLUGGED.pipe)), started := true), Success)
    else if !res.pool then Published(Released(s), InsufficientResources)
    else
      var at := PLUG_HEADER + h.descriptorLength as int;
      match ParseFeatures(buffer, at, h.featureCount)
      case Err(e) => Published(Released(s), e)
      case Ok(features) =>
        if !res.create || !res.start then Published(Released(s), res.failure)
        else
          Published(s.(descriptor := Some(buffer[PLUG_HEADER..at]), features := features,
                       vhf := Some(h.identity), started := true), Success)
  }

  function PlugStep(bus: seq<Slot>, handle: Handle, buffer: seq<byte>, room: nat, res: Resources): Outcome {
    if room < 4 then Refused(bus, BufferTooSmall)
    else if CheckHeader(buffer) != Success then Refused(bus, CheckHeader(buffer))
    else
      var i := FirstFree(bus);
      if i == |bus| then Refused(bus, InsufficientResources)
      else
        var p := Publish(Reserved(bus[i], handle, HeaderOf(buffer).kind), buffer, res);
        if p.status == Success then Outcome(bus[i := p.slot], Success, 4, Some(i), [], [], [])
        else Refused(bus[i := p.slot], p.status)
  }

  function UnplugStep(bus: seq<Slot>, index: nat, handle: Handle): Outcome {
    if index >= |bus| || !bus[index].used || bus[index].owner != Some(handle) then Refused(bus, InvalidParameter)
    else
      Outcome(bus[index := Released(bus[index])], Success, 0, None,
              Purged(bus[index].box.waiters), [], WaitingTransfers(bus[index]))
  }

  /** File cleanup: unplug by index, for every index from `i` on, whatever each answers. */
  function CloseFrom(bus: seq<Slot>, i: nat, handle: Handle): (o: Outcome)
    ensures |o.bus| == |bus|
    decreases |bus| - i
  {
    if i >= |bus| then Outcome(bus, Success, 0, None, [], [], [])
    else
      var now := UnplugStep(bus, i, handle);
      var rest := CloseFrom(now.bus, i + 1, handle);
      rest.(done := now.done + rest.done, cancelled := now.cancelled + rest.cancelled)
  }

  /** The slot a request may touch: plugged, started, and owned by the requesting handle. */
  function SlotFor(bus: seq<Slot>, index: nat, handle: Handle): (i: Option<nat>)
    ensures i.Some? ==> i.value < |bus|
  {
    if index >= |bus| then None
    else
      var s := bus[index];
      if !s.used || !s.started || s.owner != Some(handle) then None else Some(index)
  }

  datatype Taken = Taken(slot: Slot, status: Status, information: nat, served: seq<XusbPipe.Served>)

  /**
   * An input report on a plugged slot. An Xbox one goes to the child device's pipe; the HID
   * stack may refuse a HID one after it was remembered.
   */
  function TakeInput(s: Slot, report: seq<byte>, submitted: Option<Failure>): Taken {
    if s.kind == KIND_XUSB then
      if |report| != XusbPipe.INPUT_LENGTH then Taken(s, InvalidParameter, 0, [])
      else if s.pdo.None? then Taken(s, NotConnected, 0, [])
      else
        var a := XusbPipe.SubmitInput(s.pdo.value.pipe, report);
        Taken(s.(lastInput := report, pdo := Some(s.pdo.value.(pipe := a.pipe))), Success, |report|, a.served)
    else if s.vhf.None? then Taken(s, NotConnected, 0, [])
    else
      match submitted
      case None => Taken(s.(lastInput := report), Success, |report|, [])
      case Some(status) => Taken(s.(lastInput := report), status, 0, [])
  }

  function InputStep(bus: seq<Slot>, handle: Handle, buffer: seq<byte>, submitted: Option<Failure>): Outcome {
    match ReadReportIn(buffer)
    case Err(status) => Refused(bus, status)
    case Ok(r) =>
      match SlotFor(bus, r.slot, handle)
      case None => Refused(bus, NotConnected)
      case Some(i) =>
        var t := TakeInput(bus[i], r.report, submitted);
        Outcome(bus[i := t.slot], t.status, t.information, None, [], t.served, [])
  }

  function WaitStep(bus: seq<Slot>, handle: Handle, buffer: seq<byte>, w: Waiter, forwarded: Option<Failure>): Outcome {
    if |buffer| < 4 || w.room < OUTPUT_HEADER then Refused(bus, BufferTooSmall)
    else
      match SlotFor(bus, Le32At(buffer, 0), handle)
      case None => Refused(bus, NotConnected)
      case Some(i) =>
        if forwarded.Some? then Refused(bus, forwarded.value)
        else
          var a := Wait(bus[i].box, w);
          Outcome(bus[i := bus[i].(box := a.box)], Pending, 0, None, a.done, [], [])
  }

  function SetFeatureStep(bus: seq<Slot>, handle: Handle, buffer: seq<byte>): Outcome {
    match ReadReportIn(buffer)
    case Err(status) => Refused(bus, status)
    case Ok(r) =>
      match SlotFor(bus, r.slot, handle)
      case None => Refused(bus, NotConnected)
      case Some(i) =>
        if bus[i].kind == KIND_XUSB then Refused(bus, NotSupported)
        else
          var a := FeatureTables.ClientSet(bus[i].features, r.report);
          Refused(bus[i := bus[i].(features := a.table)], if a.ok then Success else InsufficientResources)
  }

  function DeliverStep(bus: seq<Slot>, index: nat, kind: byte, data: seq<byte>): Outcome
    requires index < |bus|
  {
    var a := Deliver(bus[index].box, kind, data);
    Outcome(bus[index := bus[index].(box := a.box)], Success, 0, None, a.done, [], [])
  }

  /** A feature the host sets changes the table first, then is delivered like an output report. */
  function HostFeatureStep(bus: seq<Slot>, index: nat, id: byte, data: seq<byte>): Outcome
    requires index < |bus|
  {
    var s := bus[index];
    var a := Deliver(s.box, OUTPUT_KIND_FEATURE, data);
    var changed := s.(features := FeatureTables.HostSet(s.features, id, data), box := a.box);
    Outcome(bus[index := changed], Success, 0, None, a.done, [], [])
  }

  const XUSB_OUTPUT: nat := 8

  /** The part of an interrupt-out transfer that is passed on: a lamp packet or a rumble packet. */
  function OutPacket(data: seq<byte>): (p: Option<seq<byte>>)
    ensures p.Some? ==> |p.value| <= MAX_REPORT
  {
    if |data| >= 3 && data[0] == 0x01 && data[1] == 0x03 then Some(data[..3])
    else if |data| >= XUSB_OUTPUT && data[0] == 0x00 && data[1] == 0x08 then Some(data[..XUSB_OUTPUT])
    else None
  }

  /** A slot whose child device's pipe took one event. */
  function Piped(s: Slot, e: XusbPipe.Event): Slot
    requires s.pdo.Some?
  {
    s.(pdo := Some(s.pdo.value.(pipe := XusbPipe.Apply(s.pdo.value.pipe, e).pipe)))
  }

  /** What xusb22 asks of a child device's pipe. */
  function PipeStep(bus: seq<Slot>, index: nat, e: XusbPipe.Event): Outcome
    requires index < |bus| && bus[index].pdo.Some?
  {
    var a := XusbPipe.Apply(bus[index].pdo.value.pipe, e);
    Outcome(bus[index := Piped(bus[index], e)], a.status, 0, None, [], a.served, a.cancelled)
  }

  /** Callbacks come only from a node the slot still publishes; any other index is no step at all. */
  function Step(bus: seq<Slot>, e: Event): (o: Outcome)
    ensures |o.bus| == |bus|
  {
    match e
    case Plug(handle, buffer, room, res) => PlugStep(bus, handle, buffer, room, res)
    case Unplug(handle, buffer) =>
      if |buffer| < 4 then Refused(bus, BufferTooSmall) else UnplugStep(bus, Le32At(buffer, 0), handle)
    case Input(handle, buffer, submitted) => InputStep(bus, handle, buffer, submitted)
    case WaitOutput(handle, buffer, w, forwarded) => WaitStep(bus, handle, buffer, w, forwarded)
    case SetFeature(handle, buffer) => SetFeatureStep(bus, handle, buffer)
    case Close(handle) => CloseFrom(bus, 0, handle)
    case HostWrite(index, data) =>
      if index < |bus| && bus[index].vhf.Some? then DeliverStep(bus, index, OUTPUT_KIND_REPORT, data) else Refused(bus, Success)
    case HostSetFeature(index, id, data) =>
      if index < |bus| && bus[index].vhf.Some? then HostFeatureStep(bus, index, id, data) else Refused(bus, Success)
    case XusbOut(index, data) =>
      if index < |bus| && bus[index].pdo.Some? && OutPacket(data).Some? then
        DeliverStep(bus, index, OUTPUT_KIND_REPORT, OutPacket(data).value)
      else Refused(bus, Success)
    case XusbIn(index, transfer, accepted) =>
      if index < |bus| && bus[index].pdo.Some? then PipeStep(bus, index, XusbPipe.InTransfer(transfer, accepted))
      else Refused(bus, Success)
    case XusbAbort(index) =>
      if index < |bus| && bus[index].pdo.Some? then PipeStep(bus, index, XusbPipe.Abort) else Refused(bus, Success)
  }

  function Run(bus: seq<Slot>, events: seq<Event>): seq<Slot>
    decreases |events|
  {
    if events == [] then bus else Step(Run(bus, DropLast(events)), Last(events)).bus
  }

  // ---------------------------------------------------------------------------
  // What every run keeps
  // ---------------------------------------------------------------------------

  /** A free slot holds nothing of the device that left it. */
  ghost predicate IsFree(s: Slot) {
    && !s.started && s.owner == None && s.vhf == None && s.pdo == None
    && s.descriptor == None && s.features == []
    && !s.box.pending && s.box.waiters == []
  }

  ghost predicate IsPlugged(s: Slot) {
    && s.started && s.owner.Some?
    && (s.kind == KIND_HID ==>
          s.vhf.Some? && s.pdo == None && s.descriptor.Some? && 1 <= |s.descriptor.value| <= MAX_DESCRIPTOR)
    && (s.kind == KIND_XUSB ==> s.vhf == None && s.pdo.Some? && s.descriptor == None && s.features == [])
    && (s.kind == KIND_HID || s.kind == KIND_XUSB)
    && |s.features| <= MAX_FEATURES
  }

  ghost predicate SlotInv(s: Slot) {
    (if s.used then IsPlugged(s) else IsFree(s)) && |s.box.output.data| <= MAX_REPORT
  }

  ghost predicate Inv(bus: seq<Slot>) {
    |bus| == MAX_DEVICES && forall i :: 0 <= i < |bus| ==> SlotInv(bus[i])
  }

  lemma PlugKeepsInv(bus: seq<Slot>, handle: Handle, buffer: seq<byte>, room: nat, res: Resources)
    requires Inv(bus)
    ensures Inv(PlugStep(bus, handle, buffer, room, res).bus)
  {
  }

  lemma {:induction false} CloseKeepsInv(bus: seq<Slot>, i: nat, handle: Handle)
    requires Inv(bus)
    ensures Inv(CloseFrom(bus, i, handle).bus)
    decreases |bus| - i
  {
    if i < |bus| {
      CloseKeepsInv(UnplugStep(bus, i, handle).bus, i + 1, handle);
    }
  }

  lemma RequestKeepsInv(bus: seq<Slot>, e: Event)
    requires Inv(bus)
    requires e.Input? || e.WaitOutput? || e.SetFeature? || e.Unplug?
    ensures Inv(Step(bus, e).bus)
  {
    hide ReadReportIn;
  }

  lemma CallbackKeepsInv(bus: seq<Slot>, e: Event)
    requires Inv(bus)
    requires e.HostWrite? || e.HostSetFeature? || e.XusbOut? || e.XusbIn? || e.XusbAbort?
    ensures Inv(Step(bus, e).bus)
  {
  }

  lemma StepKeepsInv(bus: seq<Slot>, e: Event)
    requires Inv(bus)
    ensures Inv(Step(bus, e).bus)
  {
    hide Inv, PlugStep, CloseFrom, UnplugStep, InputStep, WaitStep, SetFeatureStep, DeliverStep, HostFeatureStep, PipeStep;
    match e
    case Plug(handle, buffer, room, res) => PlugKeepsInv(bus, handle, buffer, room, res);
    case Close(handle) => CloseKeepsInv(bus, 0, handle);
    case HostWrite(_, _) => CallbackKeepsInv(bus, e);
    case HostSetFeature(_, _, _) => CallbackKeepsInv(bus, e);
    case XusbOut(_, _) => CallbackKeepsInv(bus, e);
    case XusbIn(_, _, _) => CallbackKeepsInv(bus, e);
    case XusbAbort(_) => CallbackKeepsInv(bus, e);
    case _ => RequestKeepsInv(bus, e);
  }

  lemma {:induction false} RunKeepsInv(events: seq<Event>)
    ensures Inv(Run(EMPTY_BUS, events))
    decreases |events|
  {
    if events != [] {
      RunKeepsInv(DropLast(events));
      StepKeepsInv(Run(EMPTY_BUS, DropLast(events)), Last(events));
    }
  }

  // ---------------------------------------------------------------------------
  // The partial map of owned devices
  // ---------------------------------------------------------------------------

  datatype Device = Device(owner: Handle, kind: u16, identity: Identity, descriptor: seq<byte>)

  /** The identity of the node a slot publishes. */
  function NodeIdentity(s: Slot): Option<Identity> {
    if s.vhf.Some? then s.vhf else if s.pdo.Some? then Some(s.pdo.value.identity) else None
  }

  function DeviceOf(s: Slot): Device
    requires s.owner.Some? && NodeIdentity(s).Some?
  {
    Device(s.owner.value, s.kind, NodeIdentity(s).value, if s.descriptor.Some? then s.descriptor.value else [])
  }

  ghost function Devices(bus: seq<Slot>): map<nat, Device>
    requires Inv(bus)
  {
    map i: nat | i < |bus| && bus[i].used :: DeviceOf(bus[i])
  }

  /** The lowest index of the sixteen that `m` does not use; MAX_DEVICES when it uses all. */
  function LowestFree(m: map<nat, Device>, i: nat := 0): (r: nat)
    requires i <= MAX_DEVICES
    ensures i <= r <= MAX_DEVICES
    ensures r < MAX_DEVICES ==> r !in m
    ensures forall j :: i <= j < r ==> j in m
    decreases MAX_DEVICES - i
  {
    if i == MAX_DEVICES || i !in m then i else LowestFree(m, i + 1)
  }

  /** What a plug needs from outside, by kind. */
  predicate Granted(kind: u16, res: Resources) {
    if kind == KIND_XUSB then res.pdo else res.pool && res.create && res.start
  }

  function DeviceStep(m: map<nat, Device>, e: Event): map<nat, Device> {
    match e
    case Plug(handle, buffer, room, res) =>
      (match ParsePlug(buffer)
       case Err(_) => m
       case Ok(r) =>
         var i := LowestFree(m);
         if room < 4 || i == MAX_DEVICES || !Granted(r.kind, res) then m
         else m[i := Device(handle, r.kind, r.identity, r.descriptor)])
    case Unplug(handle, buffer) =>
      if |buffer| < 4 then m
      else
        var i := Le32At(buffer, 0);
        if i in m && m[i].owner == handle then m - {i} else m
    case Close(handle) => map i | i in m && m[i].owner != handle :: m[i]
    case _ => m
  }

  function DeviceRun(m: map<nat, Device>, events: seq<Event>): map<nat, Device>
    decreases |events|
  {
    if events == [] then m else DeviceStep(DeviceRun(m, DropLast(events)), Last(events))
  }

  lemma FreeIndexAgrees(bus: seq<Slot>)
    requires Inv(bus)
    ensures LowestFree(Devices(bus)) == FirstFree(bus)
  {
    var i, j := FirstFree(bus), LowestFree(Devices(bus));
    assert i < |bus| ==> i !in Devices(bus);
    assert j < |bus| ==> !bus[j].used;
  }

  /** What becomes of a reserved slot, in terms of the whole-buffer parser. */
  lemma PublishOutcome(s: Slot, handle: Handle, buffer: seq<byte>, res: Resources)
    requires CheckHeader(buffer) == Success
    ensures var p, parsed := Publish(Reserved(s, handle, HeaderOf(buffer).kind), buffer, res), ParsePlug(buffer);
            && (p.status == Success <==> parsed.Ok? && Granted(parsed.value.kind, res))
            && (p.status != Success ==> !p.slot.used)
            && (p.status == Success ==>
                  var r := parsed.value;
                  && p.slot.used && p.slot.owner == Some(handle) && p.slot.kind == r.kind
                  && NodeIdentity(p.slot) == Some(r.identity) && p.slot.features == r.features
                  && p.slot.descriptor == if r.kind == KIND_HID then Some(r.descriptor) else s.descriptor)
  {
    var h := HeaderOf(buffer);
    var at := PLUG_HEADER + h.descriptorLength as int;
    if h.kind == KIND_XUSB {
      assert ParseFeatures(buffer, at, h.featureCount) == Ok([]);
    }
  }

  /** A plug's outcome in terms of the whole-buffer parser. */
  lemma PlugOutcome(bus: seq<Slot>, handle: Handle, buffer: seq<byte>, room: nat, res: Resources)
    ensures var o := PlugStep(bus, handle, buffer, room, res);
            var i, parsed := FirstFree(bus), ParsePlug(buffer);
            && |o.bus| == |bus|
            && (o.status == Success <==> room >= 4 && parsed.Ok? && i < |bus| && Granted(parsed.value.kind, res))
            && (forall k :: 0 <= k < |bus| && k != i ==> o.bus[k] == bus[k])
            && (o.status != Success && i < |bus| ==> !o.bus[i].used)
            && (o.status == Success ==>
                  var s, r := o.bus[i], parsed.value;
                  && o.slot == Some(i) && s.used && s.owner == Some(handle) && s.kind == r.kind
                  && NodeIdentity(s) == Some(r.identity) && s.features == r.features
                  && s.descriptor == if r.kind == KIND_HID then Some(r.descriptor) else bus[i].descriptor)
            && o.done == []
  {
    if CheckHeader(buffer) == Success && FirstFree(bus) < |bus| {
      PublishOutcome(bus[FirstFree(bus)], handle, buffer, res);
    }
    hide FirstFree, CheckHeader, Publish, Reserved;
    if ParsePlug(buffer).Ok? {
      ParsedIsChecked(buffer);
    }
    hide ParsePlug;
  }

  lemma ParsedIsChecked(buffer: seq<byte>)
    requires ParsePlug(buffer).Ok?
    ensures CheckHeader(buffer) == Success
  {
  }

  lemma PlugRefines(bus: seq<Slot>, e: Event)
    requires Inv(bus) && e.Plug?
    ensures Inv(Step(bus, e).bus)
    ensures Devices(Step(bus, e).bus) == DeviceStep(Devices(bus), e)
  {
    StepKeepsInv(bus, e);
    FreeIndexAgrees(bus);
    PlugOutcome(bus, e.handle, e.buffer, e.room, e.resources);
    var o := Step(bus, e);
    if o.status == Success {
      if ParsePlug(e.buffer).value.kind == KIND_XUSB {
        XusbHasNoDescriptor(e.buffer);
      }
      hide PlugStep, ParsePlug;
      assert bus[FirstFree(bus)].descriptor == None;
      PlugAddsDevice(bus, o.bus, FirstFree(bus));
      hide Devices, Inv;
    } else {
      hide PlugStep, ParsePlug;
      FailedPlugKeepsDevices(bus, o.bus);
      hide Devices, Inv;
    }
  }

  lemma FailedPlugKeepsDevices(bus: seq<Slot>, after: seq<Slot>)
    requires Inv(bus) && Inv(after)
    requires forall k :: 0 <= k < |bus| ==> after[k] == bus[k] || (!after[k].used && !bus[k].used)
    ensures Devices(after) == Devices(bus)
  {
  }

  lemma PlugAddsDevice(bus: seq<Slot>, after: seq<Slot>, i: nat)
    requires Inv(bus) && Inv(after) && i < |bus| && after[i].used
    requires forall k :: 0 <= k < |bus| && k != i ==> after[k] == bus[k]
    ensures Devices(after) == Devices(bus)[i := DeviceOf(after[i])]
  {
  }

  lemma XusbHasNoDescriptor(buffer: seq<byte>)
    requires ParsePlug(buffer).Ok? && ParsePlug(buffer).value.kind == KIND_XUSB
    ensures ParsePlug(buffer).value.descriptor == []
  {
  }

  lemma {:induction false} CloseReleasesOwned(bus: seq<Slot>, i: nat, handle: Handle)
    requires i <= |bus|
    ensures var after := CloseFrom(bus, i, handle).bus;
            && |after| == |bus|
            && forall j :: 0 <= j < |bus| ==>
                 after[j] == if i <= j && bus[j].used && bus[j].owner == Some(handle) then Released(bus[j]) else bus[j]
    decreases |bus| - i
  {
    if i < |bus| {
      CloseReleasesOwned(UnplugStep(bus, i, handle).bus, i + 1, handle);
    }
  }

  /** Every slot publishes the same node to the same owner. */
  ghost predicate SameDevicesIn(bus: seq<Slot>, after: seq<Slot>) {
    && |bus| == |after|
    && forall j :: 0 <= j < |bus| ==>
         var s, t := bus[j], after[j];
         && s.used == t.used && s.owner == t.owner && s.kind == t.kind
         && NodeIdentity(s) == NodeIdentity(t) && s.descriptor == t.descriptor
  }

  lemma OtherStepsKeepDevices(bus: seq<Slot>, e: Event)
    requires !e.Plug? && !e.Unplug? && !e.Close?
    ensures SameDevicesIn(bus, Step(bus, e).bus)
  {
    hide ReadReportIn, Deliver, Wait, OutPacket, FeatureTables.ClientSet, FeatureTables.HostSet, XusbPipe.Apply, XusbPipe.SubmitInput;
  }

  lemma CloseRefines(bus: seq<Slot>, handle: Handle)
    requires Inv(bus)
    ensures var after := CloseFrom(bus, 0, handle).bus;
            && Inv(after)
            && Devices(after) == map i | i in Devices(bus) && Devices(bus)[i].owner != handle :: Devices(bus)[i]
  {
    CloseKeepsInv(bus, 0, handle);
    CloseReleasesOwned(bus, 0, handle);
    hide CloseFrom;
    var after, m := CloseFrom(bus, 0, handle).bus, Devices(bus);
    forall j: nat
      ensures j in Devices(after) <==> j in m && m[j].owner != handle
      ensures j in Devices(after) ==> Devices(after)[j] == m[j]
    {
    }
  }

  lemma UnplugRefines(bus: seq<Slot>, index: nat, handle: Handle)
    requires Inv(bus)
    ensures var o, m := UnplugStep(bus, index, handle), Devices(bus);
            && Inv(o.bus)
            && (o.status == Success <==> index in m && m[index].owner == handle)
            && Devices(o.bus) == if o.status == Success then m - {index} else m
  {
    var o := UnplugStep(bus, index, handle);
    if o.status == Success {
      assert Devices(o.bus) == Devices(bus) - {index};
    }
  }

  lemma SameDevices(bus: seq<Slot>, after: seq<Slot>)
    requires Inv(bus) && Inv(after)
    requires SameDevicesIn(bus, after)
    ensures Devices(bus) == Devices(after)
  {
  }

  /** One driver step is one step of the map: every plug, failed plug, unplug and file cleanup. */
  lemma StepRefinesMap(bus: seq<Slot>, e: Event)
    requires Inv(bus)
    ensures Inv(Step(bus, e).bus)
    ensures Devices(Step(bus, e).bus) == DeviceStep(Devices(bus), e)
  {
    hide PlugStep, CloseFrom, UnplugStep, InputStep, WaitStep, SetFeatureStep, DeliverStep, Devices, ParsePlug, Inv;
    StepKeepsInv(bus, e);
    match e
    case Plug(_, _, _, _) => PlugRefines(bus, e);
    case Close(handle) => CloseRefines(bus, handle);
    case Unplug(handle, buffer) =>
      if |buffer| >= 4 {
        UnplugRefines(bus, Le32At(buffer, 0), handle);
      }
    case _ =>
      OtherStepsKeepDevices(bus, e);
      SameDevices(bus, Step(bus, e).bus);
  }

  lemma NothingPlugged()
    ensures Inv(EMPTY_BUS) && Devices(EMPTY_BUS) == map[]
  {
    assert forall i :: 0 <= i < |EMPTY_BUS| ==> EMPTY_BUS[i] == EMPTY_SLOT;
  }

  lemma {:induction false} RunRefinesMap(events: seq<Event>)
    ensures Inv(Run(EMPTY_BUS, events))
    ensures Devices(Run(EMPTY_BUS, events)) == DeviceRun(map[], events)
    decreases |events|
  {
    if events == [] {
      NothingPlugged();
    } else {
      hide Step, DeviceStep, Inv, Devices;
      RunRefinesMap(DropLast(events));
      StepRefinesMap(Run(EMPTY_BUS, DropLast(events)), Last(events));
    }
  }

  /**
   * With its foreign calls granted, a plug succeeds just when the buffer is a request
   * within the limits and some index is free; it takes the lowest one and stores exactly
   * what the client serialised.
   */
  lemma PlugAcceptsExactly(bus: seq<Slot>, handle: Handle, buffer: seq<byte>, res: Resources)
    requires Inv(bus)
    requires res.pool && res.pdo && res.create && res.start
    ensures var o := PlugStep(bus, handle, buffer, 4, res);
            && (o.status == Success
                <==> (exists r :: WithinLimits(r) && PlugBytes(r) <= buffer) && exists i :: 0 <= i < |bus| && !bus[i].used)
            && (forall r :: WithinLimits(r) && PlugBytes(r) <= buffer && o.status == Success ==>
                  && o.slot.Some? && o.slot.value < |bus|
                  && !bus[o.slot.value].used && (forall j :: 0 <= j < o.slot.value ==> bus[j].used)
                  && var s := o.bus[o.slot.value];
                     && s.owner == Some(handle) && s.kind == r.kind && NodeIdentity(s) == Some(r.identity)
                     && s.features == r.features
                     && s.descriptor == if r.kind == KIND_HID then Some(r.descriptor) else None)
  {
    PlugAcceptance(buffer);
    PlugOutcome(bus, handle, buffer, 4, res);
    assert FirstFree(bus) < |bus| <==> exists i :: 0 <= i < |bus| && !bus[i].used;
    hide PlugStep, ParsePlug, PlugBytes, WithinLimits;
    forall r | WithinLimits(r) && PlugBytes(r) <= buffer
      ensures ParsePlug(buffer) == Ok(r)
    {
      PlugParserIsInverse(buffer, r);
    }
  }

  // ---------------------------------------------------------------------------
  // Ownership
  // ---------------------------------------------------------------------------

  /** The file handle an event acts for; None for the HID stack. */
  function Actor(e: Event): Option<Handle> {
    match e
    case Plug(h, _, _, _) => Some(h)
    case Unplug(h, _) => Some(h)
    case Input(h, _, _) => Some(h)
    case WaitOutput(h, _, _, _) => Some(h)
    case SetFeature(h, _) => Some(h)
    case Close(h) => Some(h)
    case _ => None
  }

  /** Whatever a handle asks for, a slot another handle owns is left bit for bit as it was. */
  lemma ForeignSlotsAreUntouched(bus: seq<Slot>, e: Event, j: nat)
    requires Inv(bus) && j < |bus| && bus[j].used
    requires Actor(e).Some? && bus[j].owner != Actor(e)
    ensures Step(bus, e).bus[j] == bus[j]
  {
    match e
    case Close(handle) => CloseReleasesOwned(bus, 0, handle);
    case _ =>
  }

  /** A wait with room for the header is pended if and only if it names a slot its own handle plugged. */
  lemma WaitPendsExactly(bus: seq<Slot>, handle: Handle, slot: u32, w: Waiter, forwarded: Option<Failure>)
    requires Inv(bus) && w.room >= OUTPUT_HEADER
    ensures Step(bus, WaitOutput(handle, Le32(slot), w, forwarded)).status == Pending
            <==> slot < |bus| && bus[slot].used && bus[slot].owner == Some(handle) && forwarded.None?
  {
    Le32RoundTrip(slot, Le32(slot), 0);
    assert Le32(slot)[0..4] == Le32(slot);
  }

  predicate NeverPlugs(events: seq<Event>, handle: Handle) {
    forall i :: 0 <= i < |events| && events[i].Plug? ==> events[i].handle != handle
  }

  lemma {:induction false} NeverPlugsOwnsNothing(events: seq<Event>, handle: Handle)
    requires NeverPlugs(events, handle)
    ensures forall i :: i in DeviceRun(map[], events) ==> DeviceRun(map[], events)[i].owner != handle
    decreases |events|
  {
    if events != [] {
      hide ParsePlug, LowestFree, Granted;
      var e := Last(events);
      assert e == events[|events| - 1];
      NeverPlugsOwnsNothing(DropLast(events), handle);
    }
  }

  predicate OwnsNothing(bus: seq<Slot>, handle: Handle) {
    forall i :: 0 <= i < |bus| && bus[i].used ==> bus[i].owner != Some(handle)
  }

  lemma RunOwnsNothing(events: seq<Event>, handle: Handle)
    requires NeverPlugs(events, handle)
    ensures OwnsNothing(Run(EMPTY_BUS, events), handle)
  {
    RunRefinesMap(events);
    NeverPlugsOwnsNothing(events, handle);
    var bus := Run(EMPTY_BUS, events);
    hide DeviceRun, Run, NeverPlugs, Inv;
    forall i | 0 <= i < |bus| && bus[i].used
      ensures bus[i].owner != Some(handle)
    {
      assert i in Devices(bus);
    }
  }

  lemma WaitOfStrangerIsRefused(
    bus: seq<Slot>, handle: Handle, buffer: seq<byte>, w: Waiter, forwarded: Option<Failure>)
    requires OwnsNothing(bus, handle)
    ensures Step(bus, WaitOutput(handle, buffer, w, forwarded))
            == Refused(bus, if |buffer| < 4 || w.room < OUTPUT_HEADER then BufferTooSmall else NotConnected)
  {
  }

  /**
   * Over every run, a handle that never plugs hears nothing: none of its waits is pended,
   * none completes anything, and none changes the bus. The client's output thread waits on
   * a handle of its own, which plugs nothing.
   */
  lemma HandleThatNeverPlugsHearsNothing(
    events: seq<Event>, handle: Handle, buffer: seq<byte>, w: Waiter, forwarded: Option<Failure>)
    requires NeverPlugs(events, handle)
    ensures var bus := Run(EMPTY_BUS, events);
            var o := Step(bus, WaitOutput(handle, buffer, w, forwarded));
            o == Refused(bus, if |buffer| < 4 || w.room < OUTPUT_HEADER then BufferTooSmall else NotConnected)
  {
    RunOwnsNothing(events, handle);
    hide Run, Step, OwnsNothing;
    WaitOfStrangerIsRefused(Run(EMPTY_BUS, events), handle, buffer, w, forwarded);
  }
}
