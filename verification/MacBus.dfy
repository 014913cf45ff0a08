/**
 * The macOS AllunoVHID bus: sixteen slots with owning user clients, one external method or
 * callback from the HID stack at a time. It keeps the same devices for the same owners as
 * the Windows bus.
 */
module MacBus {
  import opened Common
  import opened Bytes
  import opened Wire
  import Delivery
  import FeatureTables
  import Ring = MacOutputRing
  import VhidBus

  type Client = VhidBus.Handle

  datatype IoReturn =
    | Done
    | BadArgument
    | NoResources
    | NotAttached
    | Refusal(code: nat)

  /** The node a plug publishes; its feature table and output queue are its own. */
  datatype Node = Node(identity: Identity, descriptor: seq<byte>, features: seq<Feature>, lastInput: seq<byte>, queue: seq<Report>)

  datatype Slot = Slot(used: bool, owner: Option<Client>, device: Option<Node>)

  const NO_DEVICE := Slot(false, None, None)

  const EMPTY_BUS: seq<Slot> := [
    NO_DEVICE, NO_DEVICE, NO_DEVICE, NO_DEVICE,
    NO_DEVICE, NO_DEVICE, NO_DEVICE, NO_DEVICE,
    NO_DEVICE, NO_DEVICE, NO_DEVICE, NO_DEVICE,
    NO_DEVICE, NO_DEVICE, NO_DEVICE, NO_DEVICE
  ]

  /** Whether the node is created and starts, and the code of whichever fails. */
  datatype Resources = Resources(create: bool, start: bool, code: nat)

  datatype Event =
    | Plug(client: Client, request: seq<byte>, resources: Resources)
    | Unplug(client: Client, index: u32)
    | Input(client: Client, bytes: seq<byte>, submitted: Option<nat>)
    | SetFeature(client: Client, bytes: seq<byte>)
    | Poll(client: Client, index: u32, capacity: nat)
    | Close(client: Client)
    | HostReport(node: nat, kind: byte, data: seq<byte>)

  datatype Outcome = Outcome(bus: seq<Slot>, status: IoReturn, slot: Option<nat>, polled: seq<byte>)

  function Refused(bus: seq<Slot>, status: IoReturn): Outcome {
    Outcome(bus, status, None, [])
  }

  // ---------------------------------------------------------------------------
  // One step
  // ---------------------------------------------------------------------------

  function FirstFree(bus: seq<Slot>): (i: nat)
    ensures i <= |bus|
    ensures i < |bus| ==> !bus[i].used
    ensures forall j :: 0 <= j < i ==> bus[j].used
  {
    FirstIndex(bus, (s: Slot) => !s.used)
  }

  /** The checks made before a slot is reserved; there is no kind word to check. */
  predicate HeaderFits(b: seq<byte>) {
    && |b| >= PLUG_HEADER
    && var h := HeaderOf(b);
       && 1 <= h.descriptorLength <= MAX_DESCRIPTOR
       && h.featureCount <= MAX_FEATURES
       && PLUG_HEADER + h.descriptorLength as int <= |b|
  }

  datatype Built = Built(status: IoReturn, device: Option<Node>)

  /** The node a request asks for, up to its start. */
  function Build(b: seq<byte>, res: Resources): (n: Built)
    requires HeaderFits(b)
    ensures n.status == Done <==> n.device.Some?
  {
    var h := HeaderOf(b);
    var at := PLUG_HEADER + h.descriptorLength as int;
    if !res.create then Built(Refusal(res.code), None)
    else
      match ParseFeatures(b, at, h.featureCount)
      case Err(_) => Built(BadArgument, None)
      case Ok(features) =>
        if !res.start then Built(Refusal(res.code), None)
        else Built(Done, Some(Node(h.identity, b[PLUG_HEADER..at], FeatureTables.MacPlug(features), [], [])))
  }

  function PlugStep(bus: seq<Slot>, client: Client, b: seq<byte>, res: Resources): Outcome {
    if !HeaderFits(b) then Refused(bus, BadArgument)
    else
      var i := FirstFree(bus);
      if i == |bus| then Refused(bus, NoResources)
      else
        var n := Build(b, res);
        if n.device.None? then Refused(bus[i := NO_DEVICE], n.status)
        else Outcome(bus[i := Slot(true, Some(client), n.device)], Done, Some(i), [])
  }

  function UnplugStep(bus: seq<Slot>, index: nat, client: Client): Outcome {
    if index >= |bus| || !bus[index].used || bus[index].owner != Some(client) then Refused(bus, BadArgument)
    else Outcome(bus[index := NO_DEVICE], Done, None, [])
  }

  function UnplugOwnedFrom(bus: seq<Slot>, i: nat, client: Client): (after: seq<Slot>)
    ensures |after| == |bus|
    decreases |bus| - i
  {
    if i >= |bus| then bus else UnplugOwnedFrom(UnplugStep(bus, i, client).bus, i + 1, client)
  }

  /** The slot a client's method may touch: its own, with a node in it. */
  function DeviceFor(bus: seq<Slot>, index: nat, client: Client): (i: Option<nat>)
    ensures i.Some? ==> i.value < |bus| && bus[i.value].device.Some?
  {
    if index >= |bus| then None
    else
      var s := bus[index];
      if s.used && s.owner == Some(client) && s.device.Some? then Some(index) else None
  }

  function WithDevice(bus: seq<Slot>, i: nat, device: Node): (after: seq<Slot>)
    requires i < |bus|
    ensures |after| == |bus|
  {
    bus[i := bus[i].(device := Some(device))]
  }

  function InputStep(bus: seq<Slot>, client: Client, bytes: seq<byte>, submitted: Option<nat>): Outcome {
    match ReadReportIn(bytes)
    case Err(_) => Refused(bus, BadArgument)
    case Ok(r) =>
      match DeviceFor(bus, r.slot, client)
      case None => Refused(bus, NotAttached)
      case Some(i) =>
        var d := bus[i].device.value;
        Outcome(WithDevice(bus, i, d.(lastInput := r.report)),
                if submitted.None? then Done else Refusal(submitted.value), None, [])
  }

  function SetFeatureStep(bus: seq<Slot>, client: Client, bytes: seq<byte>): Outcome {
    match ReadReportIn(bytes)
    case Err(_) => Refused(bus, BadArgument)
    case Ok(r) =>
      match DeviceFor(bus, r.slot, client)
      case None => Refused(bus, NotAttached)
      case Some(i) =>
        var d := bus[i].device.value;
        var a := FeatureTables.AddFeature(d.features, r.report);
        Refused(WithDevice(bus, i, d.(features := a.table)), if a.ok then Done else NoResources)
  }

  function PollStep(bus: seq<Slot>, client: Client, index: nat, capacity: nat): Outcome {
    if capacity < OUTPUT_HEADER then Refused(bus, BadArgument)
    else
      match DeviceFor(bus, index, client)
      case None => Refused(bus, NotAttached)
      case Some(i) =>
        var d := bus[i].device.value;
        Outcome(WithDevice(bus, i, d.(queue := Ring.Rest(d.queue))), Done, None, Ring.PollBytes(d.queue, capacity).value)
  }

  /** A report the host sets: a feature changes the table first, and every report is queued. */
  function HostStep(d: Node, kind: byte, data: seq<byte>): Node {
    d.(features := if kind == OUTPUT_KIND_FEATURE && data != [] then FeatureTables.MacHostSet(d.features, data) else d.features,
       queue := Ring.Push(d.queue, Report(kind, Delivery.Clamp(data))))
  }

  function Step(bus: seq<Slot>, e: Event): (o: Outcome)
    ensures |o.bus| == |bus|
  {
    match e
    case Plug(client, request, res) => PlugStep(bus, client, request, res)
    case Unplug(client, index) => UnplugStep(bus, index, client)
    case Input(client, bytes, submitted) => InputStep(bus, client, bytes, submitted)
    case SetFeature(client, bytes) => SetFeatureStep(bus, client, bytes)
    case Poll(client, index, capacity) => PollStep(bus, client, index, capacity)
    case Close(client) => Outcome(UnplugOwnedFrom(bus, 0, client), Done, None, [])
    case HostReport(index, kind, data) =>
      if index < |bus| && bus[index].device.Some? then
        Outcome(WithDevice(bus, index, HostStep(bus[index].device.value, kind, data)), Done, None, [])
      else Refused(bus, Done)
  }

  function Run(bus: seq<Slot>, events: seq<Event>): seq<Slot>
    decreases |events|
  {
    if events == [] then bus else Step(Run(bus, DropLast(events)), Last(events)).bus
  }

  // ---------------------------------------------------------------------------
  // What every run keeps
  // ---------------------------------------------------------------------------

  /** Between steps a used slot has an owner and a published node, and a free one nothing at all. */
  ghost predicate SlotInv(s: Slot) {
    if s.used then
      && s.owner.Some? && s.device.Some?
      && var d := s.device.value;
         && 1 <= |d.descriptor| <= MAX_DESCRIPTOR && |d.queue| <= Ring.OUTPUT_QUEUE && AllFit(d.queue)
    else s == NO_DEVICE
  }

  ghost predicate AllFit(queue: seq<Report>) {
    forall i :: 0 <= i < |queue| ==> |queue[i].data| <= MAX_REPORT
  }

  ghost predicate Inv(bus: seq<Slot>) {
    |bus| == MAX_DEVICES && forall i :: 0 <= i < |bus| ==> SlotInv(bus[i])
  }

  lemma {:induction false} UnplugOwnedReleases(bus: seq<Slot>, i: nat, client: Client)
    requires i <= |bus|
    ensures var after := UnplugOwnedFrom(bus, i, client);
            forall j :: 0 <= j < |bus| ==>
              after[j] == if i <= j && bus[j].used && bus[j].owner == Some(client) then NO_DEVICE else bus[j]
    decreases |bus| - i
  {
    if i < |bus| {
      UnplugOwnedReleases(UnplugStep(bus, i, client).bus, i + 1, client);
    }
  }

  lemma OwnerStepsKeepInv(bus: seq<Slot>, e: Event)
    requires Inv(bus) && (e.Plug? || e.Unplug? || e.Close?)
    ensures Inv(Step(bus, e).bus)
  {
    hide ReadReportIn, ParseFeatures, FeatureTables.MacPlug;
    if e.Close? {
      UnplugOwnedReleases(bus, 0, e.client);
    }
  }

  lemma DeviceStepsKeepInv(bus: seq<Slot>, e: Event)
    requires Inv(bus) && !e.Plug? && !e.Unplug? && !e.Close?
    ensures Inv(Step(bus, e).bus)
  {
    hide ReadReportIn, FeatureTables.AddFeature, FeatureTables.MacHostSet, Ring.PollBytes;
  }

  lemma StepKeepsInv(bus: seq<Slot>, e: Event)
    requires Inv(bus)
    ensures Inv(Step(bus, e).bus)
  {
    hide Inv, Step;
    if e.Plug? || e.Unplug? || e.Close? {
      OwnerStepsKeepInv(bus, e);
    } else {
      DeviceStepsKeepInv(bus, e);
    }
  }

  // ---------------------------------------------------------------------------
  // The two buses side by side
  // ---------------------------------------------------------------------------

  function DeviceOf(s: Slot): VhidBus.Device
    requires s.owner.Some? && s.device.Some?
  {
    VhidBus.Device(s.owner.value, KIND_HID, s.device.value.identity, s.device.value.descriptor)
  }

  ghost function Devices(bus: seq<Slot>): map<nat, VhidBus.Device>
    requires Inv(bus)
  {
    map i: nat | i < |bus| && bus[i].used :: DeviceOf(bus[i])
  }

  /** The request a Windows client would make; requests that touch no slot's owner become empty ones. */
  function OnWindows(e: Event): VhidBus.Event {
    match e
    case Plug(client, request, res) =>
      VhidBus.Plug(client, request, 4, VhidBus.Resources(true, true, res.create, res.start, InsufficientResources))
    case Unplug(client, index) => VhidBus.Unplug(client, Le32(index))
    case Close(client) => VhidBus.Close(client)
    case Input(client, bytes, _) => VhidBus.Input(client, bytes, None)
    case SetFeature(client, bytes) => VhidBus.SetFeature(client, bytes)
    case Poll(client, _, _) => VhidBus.SetFeature(client, [])
    case HostReport(index, kind, data) =>
      if kind == OUTPUT_KIND_FEATURE && data != [] then VhidBus.HostSetFeature(index, data[0], data)
      else VhidBus.HostWrite(index, data)
  }

  function AllOnWindows(events: seq<Event>): (w: seq<VhidBus.Event>)
    ensures |w| == |events|
  {
    seq(|events|, i requires 0 <= i < |events| => OnWindows(events[i]))
  }

  /** macOS reads the kind word as reserved, so the comparison is over requests that leave it at HID. */
  predicate IsHid(e: Event) {
    e.Plug? && |e.request| >= PLUG_HEADER ==> HeaderOf(e.request).kind == KIND_HID
  }

  /** Over all byte strings whose kind word says HID, the two parsers accept the same and read the same. */
  lemma ParsersAgree(b: seq<byte>)
    requires |b| >= PLUG_HEADER ==> HeaderOf(b).kind == KIND_HID
    ensures MacParsePlug(b) == match ParsePlug(b) case Ok(r) => Some(r) case Err(_) => None
    ensures HeaderFits(b) <==> CheckHeader(b) == Status.Success
  {
  }

  lemma FreeIndexAgrees(bus: seq<Slot>)
    requires Inv(bus)
    ensures VhidBus.LowestFree(Devices(bus)) == FirstFree(bus)
  {
    var i, j := FirstFree(bus), VhidBus.LowestFree(Devices(bus));
    assert i < |bus| ==> i !in Devices(bus);
    assert j < |bus| ==> !bus[j].used;
  }

  /** A plug's outcome in terms of the whole-request parser. */
  lemma PlugOutcome(bus: seq<Slot>, client: Client, b: seq<byte>, res: Resources)
    requires Inv(bus)
    ensures var o, i, parsed := PlugStep(bus, client, b, res), FirstFree(bus), MacParsePlug(b);
            && (o.status == Done <==> parsed.Some? && i < |bus| && res.create && res.start)
            && (o.status == Done ==>
                  && o.slot == Some(i) && o.bus[i].device.Some?
                  && o.bus == bus[i := Slot(true, Some(client), o.bus[i].device)]
                  && o.bus[i].device.value.descriptor == parsed.value.descriptor
                  && o.bus[i].device.value.identity == parsed.value.identity
                  && o.bus[i].device.value.features == FeatureTables.MacPlug(parsed.value.features)
                  && o.bus[i].device.value.lastInput == [] && o.bus[i].device.value.queue == [])
            && (o.status != Done ==> o.bus == bus)
  {
    hide ParseFeatures, FeatureTables.MacPlug;
    var i := FirstFree(bus);
    if i < |bus| {
      assert SlotInv(bus[i]);
      assert bus[i := NO_DEVICE] == bus;
    }
  }

  lemma PlugRefines(bus: seq<Slot>, e: Event)
    requires Inv(bus) && e.Plug? && IsHid(e)
    ensures Inv(Step(bus, e).bus)
    ensures Devices(Step(bus, e).bus) == VhidBus.DeviceStep(Devices(bus), OnWindows(e))
  {
    StepKeepsInv(bus, e);
    PlugOutcome(bus, e.client, e.request, e.resources);
    ParsersAgree(e.request);
    FreeIndexAgrees(bus);
    var o, i := Step(bus, e), FirstFree(bus);
    if o.status == Done {
      HidParsesAsHid(e.request);
      PlugAddsDevice(bus, i, o.bus[i]);
    }
    hide PlugStep, ParsePlug, MacParsePlug, Devices, Inv, FirstFree, HeaderOf;
  }

  lemma PlugAddsDevice(bus: seq<Slot>, i: nat, s: Slot)
    requires Inv(bus) && i < |bus| && s.used && SlotInv(s)
    ensures Inv(bus[i := s]) && Devices(bus[i := s]) == Devices(bus)[i := DeviceOf(s)]
  {
  }

  lemma HidParsesAsHid(b: seq<byte>)
    requires MacParsePlug(b).Some?
    ensures MacParsePlug(b).value.kind == KIND_HID
  {
  }

  lemma CloseRefines(bus: seq<Slot>, client: Client)
    requires Inv(bus)
    ensures var after, m := UnplugOwnedFrom(bus, 0, client), Devices(bus);
            && Inv(after)
            && Devices(after) == map i | i in m && m[i].owner != client :: m[i]
  {
    StepKeepsInv(bus, Close(client));
    UnplugOwnedReleases(bus, 0, client);
    hide UnplugOwnedFrom;
    var after, m := UnplugOwnedFrom(bus, 0, client), Devices(bus);
    forall j: nat
      ensures j in Devices(after) <==> j in m && m[j].owner != client
      ensures j in Devices(after) ==> Devices(after)[j] == m[j]
    {
    }
  }

  lemma UnplugRefines(bus: seq<Slot>, e: Event)
    requires Inv(bus) && e.Unplug?
    ensures Inv(Step(bus, e).bus)
    ensures Devices(Step(bus, e).bus) == VhidBus.DeviceStep(Devices(bus), OnWindows(e))
  {
    StepKeepsInv(bus, e);
    Le32RoundTrip(e.index, Le32(e.index), 0);
    assert Le32(e.index)[0..4] == Le32(e.index);
    hide Le32, Le32At;
    var o := Step(bus, e);
    if o.status == Done {
      assert Devices(o.bus) == Devices(bus) - {e.index};
    }
  }

  /** Same use, owner and descriptor in every slot. */
  ghost predicate SameOwners(bus: seq<Slot>, after: seq<Slot>) {
    && |bus| == |after|
    && forall j :: 0 <= j < |bus| ==>
         && after[j].used == bus[j].used && after[j].owner == bus[j].owner
         && after[j].device.Some? == bus[j].device.Some?
         && (bus[j].device.Some? ==>
               && after[j].device.value.identity == bus[j].device.value.identity
               && after[j].device.value.descriptor == bus[j].device.value.descriptor)
  }

  lemma SameOwnersSameDevices(bus: seq<Slot>, after: seq<Slot>)
    requires Inv(bus) && Inv(after) && SameOwners(bus, after)
    ensures Devices(bus) == Devices(after)
  {
  }

  lemma OtherStepsKeepDevices(bus: seq<Slot>, e: Event)
    requires Inv(bus) && !e.Plug? && !e.Unplug? && !e.Close?
    ensures Inv(Step(bus, e).bus)
    ensures Devices(Step(bus, e).bus) == Devices(bus)
  {
    hide Step, Inv, Devices, SameOwners;
    OtherStepsKeepOwners(bus, e);
    StepKeepsInv(bus, e);
    SameOwnersSameDevices(bus, Step(bus, e).bus);
  }

  lemma OtherStepsKeepOwners(bus: seq<Slot>, e: Event)
    requires !e.Plug? && !e.Unplug? && !e.Close?
    ensures SameOwners(bus, Step(bus, e).bus)
  {
    hide ReadReportIn, FeatureTables.AddFeature, FeatureTables.MacHostSet, Ring.PollBytes, Ring.Push, Ring.Rest;
  }

  lemma StepRefinesMap(bus: seq<Slot>, e: Event)
    requires Inv(bus) && IsHid(e)
    ensures Inv(Step(bus, e).bus)
    ensures Devices(Step(bus, e).bus) == VhidBus.DeviceStep(Devices(bus), OnWindows(e))
  {
    hide Inv, Devices, PlugStep, UnplugStep, UnplugOwnedFrom, InputStep, SetFeatureStep, PollStep, HostStep, ParsePlug, IsHid;
    match e
    case Plug(_, _, _) => PlugRefines(bus, e);
    case Unplug(_, _) => UnplugRefines(bus, e);
    case Close(client) => CloseRefines(bus, client);
    case _ => OtherStepsKeepDevices(bus, e);
  }

  lemma NothingPlugged()
    ensures Inv(EMPTY_BUS) && Devices(EMPTY_BUS) == map[]
  {
    assert forall i :: 0 <= i < |EMPTY_BUS| ==> EMPTY_BUS[i] == NO_DEVICE;
  }

  predicate AllHid(events: seq<Event>) {
    forall i :: 0 <= i < |events| ==> IsHid(events[i])
  }

  /**
   * Over every run of HID requests the two buses keep the same devices: after the same
   * requests the same owners hold the same descriptors at the same indices.
   */
  lemma {:induction false} BusesKeepTheSameDevices(events: seq<Event>)
    requires AllHid(events)
    ensures Inv(Run(EMPTY_BUS, events)) && VhidBus.Inv(VhidBus.Run(VhidBus.EMPTY_BUS, AllOnWindows(events)))
    ensures Devices(Run(EMPTY_BUS, events)) == VhidBus.Devices(VhidBus.Run(VhidBus.EMPTY_BUS, AllOnWindows(events)))
    decreases |events|
  {
    if events == [] {
      NothingPlugged();
      VhidBus.NothingPlugged();
    } else {
      hide Inv, Devices, VhidBus.Inv, VhidBus.Devices, Step, VhidBus.Step, VhidBus.DeviceStep, IsHid;
      var before, e := DropLast(events), Last(events);
      BusesKeepTheSameDevices(before);
      assert DropLast(AllOnWindows(events)) == AllOnWindows(before);
      assert Last(AllOnWindows(events)) == OnWindows(e);
      StepRefinesMap(Run(EMPTY_BUS, before), e);
      VhidBus.StepRefinesMap(VhidBus.Run(VhidBus.EMPTY_BUS, AllOnWindows(before)), OnWindows(e));
    }
  }

  /** Wherever the two buses stand alike, a plug or unplug succeeds on one exactly when it succeeds on the other. */
  lemma RequestsSucceedAlike(mac: seq<Slot>, windows: seq<VhidBus.Slot>, e: Event)
    requires Inv(mac) && VhidBus.Inv(windows) && Devices(mac) == VhidBus.Devices(windows)
    requires (e.Plug? || e.Unplug?) && IsHid(e)
    ensures var m, w := Step(mac, e), VhidBus.Step(windows, OnWindows(e));
            && (m.status == Done <==> w.status == Status.Success)
            && (e.Plug? ==> m.slot == w.slot)
  {
    match e
    case Plug(client, request, res) =>
      PlugOutcome(mac, client, request, res);
      ParsersAgree(request);
      FreeIndexAgrees(mac);
      VhidBus.FreeIndexAgrees(windows);
      var w := OnWindows(e);
      VhidBus.PlugOutcome(windows, client, request, 4, w.resources);
      if MacParsePlug(request).Some? {
        HidParsesAsHid(request);
      }
      PlugSlotOnlyOnSuccess(mac, client, request, res);
      WindowsSlotOnlyOnSuccess(windows, client, request, w.resources);
      hide PlugStep, VhidBus.PlugStep, ParsePlug, MacParsePlug, Devices, VhidBus.Devices, Inv, VhidBus.Inv;
    case Unplug(client, index) =>
      Le32RoundTrip(index, Le32(index), 0);
      assert Le32(index)[0..4] == Le32(index);
      hide Le32, Le32At;
      VhidBus.UnplugRefines(windows, index, client);
      assert UnplugStep(mac, index, client).status == Done <==> index in Devices(mac) && Devices(mac)[index].owner == client;
  }

  lemma PlugSlotOnlyOnSuccess(bus: seq<Slot>, client: Client, b: seq<byte>, res: Resources)
    ensures var o := PlugStep(bus, client, b, res); o.slot.Some? <==> o.status == Done
  {
    hide ParseFeatures, FeatureTables.MacPlug;
  }

  lemma WindowsSlotOnlyOnSuccess(bus: seq<VhidBus.Slot>, client: Client, b: seq<byte>, res: VhidBus.Resources)
    ensures var o := VhidBus.PlugStep(bus, client, b, 4, res); o.slot.Some? <==> o.status == Status.Success
  {
    hide VhidBus.Publish;
  }

  // ---------------------------------------------------------------------------
  // Ownership
  // ---------------------------------------------------------------------------

  /** Whatever a client asks for, a slot another client owns is left as it was. */
  lemma ForeignSlotsAreUntouched(bus: seq<Slot>, e: Event, j: nat)
    requires Inv(bus) && j < |bus| && bus[j].used
    requires !e.HostReport? && bus[j].owner != Some(e.client)
    ensures Step(bus, e).bus[j] == bus[j]
  {
    hide ReadReportIn, Build, FeatureTables.AddFeature, Ring.PollBytes, Ring.Rest, FirstFree, HeaderFits;
    if e.Close? {
      UnplugOwnedReleases(bus, 0, e.client);
    }
  }

  // ---------------------------------------------------------------------------
  // The output queue of one plug lifetime
  // ---------------------------------------------------------------------------

  /** The queue events of slot `j` in one step. */
  function QueueEvents(bus: seq<Slot>, e: Event, j: nat): seq<Ring.Event> {
    match e
    case Poll(client, index, capacity) =>
      if capacity >= OUTPUT_HEADER && DeviceFor(bus, index, client) == Some(j) then [Ring.Poll(capacity - OUTPUT_HEADER)] else []
    case HostReport(node, kind, data) =>
      if node == j && j < |bus| && bus[j].device.Some? then [Ring.SetReport(Report(kind, data))] else []
    case _ => []
  }

  /** What the owner of slot `j` reads in one step, through its own parser, when there is anything to read. */
  function Reads(bus: seq<Slot>, e: Event, j: nat): seq<Option<Report>> {
    match e
    case Poll(client, index, capacity) =>
      if capacity >= OUTPUT_HEADER && DeviceFor(bus, index, client) == Some(j) && bus[j].device.value.queue != []
      then [ParseOutput(Step(bus, e).polled)] else []
    case _ => []
  }

  /** What happened to the queue of slot `j` over a run, and what its owner read meanwhile. */
  datatype Life = Life(queue: seq<Ring.Event>, heard: seq<Option<Report>>)

  function LifeOf(bus: seq<Slot>, events: seq<Event>, j: nat): Life
    decreases |events|
  {
    if events == [] then Life([], [])
    else
      var l, b := LifeOf(bus, DropLast(events), j), Run(bus, DropLast(events));
      Life(l.queue + QueueEvents(b, Last(events), j), l.heard + Reads(b, Last(events), j))
  }

  /** Slot `j` keeps a node from the start to the end of the run. */
  ghost predicate PluggedThroughout(bus: seq<Slot>, events: seq<Event>, j: nat) {
    forall k :: 0 <= k <= |events| ==>
      var b := Run(bus, events[..k]);
      j < |b| && b[j].device.Some?
  }

  /** Every poll has the buffer the user client polls with. */
  predicate ClientPolls(events: seq<Event>) {
    forall i :: 0 <= i < |events| && events[i].Poll? ==> events[i].capacity >= OUTPUT_HEADER + MAX_REPORT
  }

  lemma OneQueueEvent(h: Ring.History, e: Ring.Event)
    ensures Ring.StepAll(h, [e]) == Ring.Step(h, e)
  {
    assert DropLast([e]) == [];
  }

  /** One step moves the queue, and takes from it what the owner reads, as its own queue events do. */
  ghost predicate MovesQueue(bus: seq<Slot>, e: Event, j: nat, h: Ring.History)
    requires j < |bus|
  {
    var k := Ring.StepAll(h, QueueEvents(bus, e, j));
    && Step(bus, e).bus[j].device.Some? && k.queue == Step(bus, e).bus[j].device.value.queue
    && ((e.Poll? ==> e.capacity >= OUTPUT_HEADER + MAX_REPORT) ==>
          Delivery.Sent(k.taken) == Delivery.Sent(h.taken) + Reads(bus, e, j))
  }

  lemma PollMovesQueue(bus: seq<Slot>, e: Event, j: nat, h: Ring.History)
    requires Inv(bus) && e.Poll? && j < |bus| && bus[j].device.Some? && h.queue == bus[j].device.value.queue
    ensures MovesQueue(bus, e, j, h)
  {
    var queue := h.queue;
    assert SlotInv(bus[j]);
    hide Inv, DeviceFor;
    assert Delivery.Sent(h.taken) + [] == Delivery.Sent(h.taken);
    if QueueEvents(bus, e, j) != [] {
      OneQueueEvent(h, Ring.Poll(e.capacity - OUTPUT_HEADER));
      if queue != [] && e.capacity >= OUTPUT_HEADER + MAX_REPORT {
        WideClientPolls(queue, e.capacity);
        assert Delivery.Sent(h.taken + [queue[0]]) == Delivery.Sent(h.taken) + [Some(queue[0])];
      }
      hide Ring.PollBytes, ParseOutput;
    }
  }

  /** Room beyond the largest report makes no difference to a poll. */
  lemma WideClientPolls(queue: seq<Report>, capacity: nat)
    requires AllFit(queue) && queue != [] && capacity >= OUTPUT_HEADER + MAX_REPORT
    ensures Ring.PollBytes(queue, capacity).Some? && ParseOutput(Ring.PollBytes(queue, capacity).value) == Some(queue[0])
  {
    Ring.PollReadsBack(queue);
    hide OutputBytes, ParseOutput, Ring.Oldest;
  }

  lemma HostMovesQueue(bus: seq<Slot>, e: Event, j: nat, h: Ring.History)
    requires e.HostReport? && j < |bus| && bus[j].device.Some? && h.queue == bus[j].device.value.queue
    ensures MovesQueue(bus, e, j, h)
  {
    hide Ring.Push, FeatureTables.MacHostSet;
    assert Delivery.Sent(h.taken) + [] == Delivery.Sent(h.taken);
    if QueueEvents(bus, e, j) != [] {
      OneQueueEvent(h, Ring.SetReport(Report(e.kind, e.data)));
    }
  }

  lemma OthersKeepQueue(bus: seq<Slot>, e: Event, j: nat)
    requires !e.Poll? && !e.HostReport? && j < |bus| && bus[j].used && bus[j].device.Some?
    requires Step(bus, e).bus[j].device.Some?
    ensures Step(bus, e).bus[j].device.value.queue == bus[j].device.value.queue
  {
    hide ReadReportIn, Build, FeatureTables.AddFeature;
    if e.Close? {
      UnplugOwnedReleases(bus, 0, e.client);
    }
  }

  lemma StepMovesQueue(bus: seq<Slot>, e: Event, j: nat, h: Ring.History)
    requires Inv(bus) && j < |bus| && bus[j].device.Some? && h.queue == bus[j].device.value.queue
    requires Step(bus, e).bus[j].device.Some?
    ensures MovesQueue(bus, e, j, h)
  {
    assert SlotInv(bus[j]);
    if e.Poll? {
      PollMovesQueue(bus, e, j, h);
    } else if e.HostReport? {
      HostMovesQueue(bus, e, j, h);
    } else {
      OthersKeepQueue(bus, e, j);
      hide Step, Inv;
      assert Delivery.Sent(h.taken) + [] == Delivery.Sent(h.taken);
    }
  }

  lemma RunPrefix(bus: seq<Slot>, events: seq<Event>, j: nat)
    requires events != [] && PluggedThroughout(bus, events, j)
    ensures PluggedThroughout(bus, DropLast(events), j)
    ensures var b := Run(bus, DropLast(events)); j < |b| && b[j].device.Some?
    ensures var b := Run(bus, events); j < |b| && b[j].device.Some?
  {
    var before := DropLast(events);
    assert forall k :: 0 <= k <= |before| ==> before[..k] == events[..k];
    assert before[..|before|] == before && events[..|events|] == events;
  }

  /** While a node stays plugged, its queue and what its owner reads are those of its own polls and host reports. */
  lemma {:induction false} LifetimeIsAQueueRun(bus: seq<Slot>, events: seq<Event>, j: nat)
    requires Inv(bus) && j < |bus| && bus[j].device.Some? && bus[j].device.value.queue == []
    requires PluggedThroughout(bus, events, j)
    ensures Inv(Run(bus, events)) && j < |Run(bus, events)| && Run(bus, events)[j].device.Some?
    ensures var l, h := LifeOf(bus, events, j), Ring.Run(LifeOf(bus, events, j).queue);
            && h.queue == Run(bus, events)[j].device.value.queue
            && (ClientPolls(events) ==> Delivery.Sent(h.taken) == l.heard)
    decreases |events|
  {
    if events == [] {
      assert Delivery.Sent([]) == [];
    } else {
      hide Inv, Step, QueueEvents, Reads, PluggedThroughout;
      var before, e := DropLast(events), Last(events);
      RunPrefix(bus, events, j);
      LifetimeIsAQueueRun(bus, before, j);
      var b, l := Run(bus, before), LifeOf(bus, before, j);
      StepKeepsInv(b, e);
      StepMovesQueue(b, e, j, Ring.Run(l.queue));
      Ring.RunAppends(l.queue, QueueEvents(b, e, j));
      assert e == events[|events| - 1];
      assert ClientPolls(events) ==> ClientPolls(before);
      hide Ring.Run, Delivery.Sent;
    }
  }

  /** Slot `j` was plugged by `plug` after the run `before`, and stayed so over `events`. */
  ghost predicate IsLifetime(before: seq<Event>, plug: Event, events: seq<Event>, j: nat) {
    var bus := Run(EMPTY_BUS, before);
    plug.Plug? && Step(bus, plug).slot == Some(j) && PluggedThroughout(Step(bus, plug).bus, events, j)
  }

  function Born(before: seq<Event>, plug: Event): seq<Slot> {
    Step(Run(EMPTY_BUS, before), plug).bus
  }

  lemma {:induction false} RunKeepsInv(events: seq<Event>)
    ensures Inv(Run(EMPTY_BUS, events))
    decreases |events|
  {
    if events == [] {
      NothingPlugged();
    } else {
      hide Inv, Step;
      RunKeepsInv(DropLast(events));
      StepKeepsInv(Run(EMPTY_BUS, DropLast(events)), Last(events));
    }
  }

  lemma PlugStartsALife(bus: seq<Slot>, e: Event, j: nat)
    requires Inv(bus) && e.Plug? && Step(bus, e).slot == Some(j)
    ensures var after := Step(bus, e).bus;
            Inv(after) && j < |after| && after[j].device.Some? && after[j].device.value.queue == []
  {
    StepKeepsInv(bus, e);
    PlugOutcome(bus, e.client, e.request, e.resources);
    PlugSlotOnlyOnSuccess(bus, e.client, e.request, e.resources);
    hide PlugStep, Inv, MacParsePlug, FirstFree;
  }

  /**
   * Over every lifetime in every run polled with the user client's buffer: what the owner
   * reads is an in-order, at-most-once choice of the reports written to its node, all older
   * than the at most eight newest, which are the queue; and every write was read, dropped or
   * is still queued.
   */
  lemma OutputReachesTheClient(before: seq<Event>, plug: Event, events: seq<Event>, j: nat)
    requires IsLifetime(before, plug, events, j) && ClientPolls(events)
    ensures j < |Run(Born(before, plug), events)| && Run(Born(before, plug), events)[j].device.Some?
    ensures var l, queue := LifeOf(Born(before, plug), events, j), Run(Born(before, plug), events)[j].device.value.queue;
            var written := Ring.Writes(l.queue);
            && |queue| <= Ring.OUTPUT_QUEUE && |queue| <= |written| && queue == written[|written| - |queue|..]
            && Subsequence(l.heard, Delivery.Sent(written[..|written| - |queue|]))
            && |written| == |l.heard| + Ring.Run(l.queue).dropped + |queue|
  {
    var start := Born(before, plug);
    RunKeepsInv(before);
    PlugStartsALife(Run(EMPTY_BUS, before), plug, j);
    hide Inv, Run, Step, PluggedThroughout, LifeOf, Ring.Run, Ring.Writes, Delivery.Sent, Subsequence, ClientPolls;
    LifetimeIsAQueueRun(start, events, j);
    QueueAndReads(LifeOf(start, events, j).queue);
  }

  /** The ring's accounts, in the reports as a client reads them. */
  lemma QueueAndReads(events: seq<Ring.Event>)
    ensures var h, written := Ring.Run(events), Ring.Writes(events);
            && |h.queue| <= Ring.OUTPUT_QUEUE && |h.queue| <= |written| && h.queue == written[|written| - |h.queue|..]
            && Subsequence(Delivery.Sent(h.taken), Delivery.Sent(written[..|written| - |h.queue|]))
            && |written| == |Delivery.Sent(h.taken)| + h.dropped + |h.queue|
  {
    Ring.QueueIsTheNewestWrites(events);
    Ring.RunLogsWrites(events);
    var h := Ring.Run(events);
    hide Ring.Run, Ring.Writes;
    SentPicks(h.taken, h.written[..|h.written| - |h.queue|]);
  }

  lemma SentPicks(picked: seq<Report>, source: seq<Report>)
    requires Subsequence(picked, source)
    ensures Subsequence(Delivery.Sent(picked), Delivery.Sent(source))
  {
    var at: seq<nat> :| Picks(at, picked, source);
    assert Picks(at, Delivery.Sent(picked), Delivery.Sent(source));
  }

  lemma FirstFreeIs(bus: seq<Slot>, i: nat)
    requires i <= |bus| && (i < |bus| ==> !bus[i].used) && forall j :: 0 <= j < i ==> bus[j].used
    ensures FirstFree(bus) == i
  {
  }
}
