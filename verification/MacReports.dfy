/**
 * The two buses side by side in what their devices answer: after the same HID requests, and
 * the same reports of the host, they hold the same features and the same last inputs, and
 * they grant the same requests.
 */
module MacReports {
  import opened Common
  import opened Bytes
  import opened Wire
  import opened MacBus
  import Windows = VhidBus
  import VhidReports
  import FeatureTables

  /** Both slots are free, or hold devices of one owner that answer alike. */
  ghost predicate SameSlot(m: Slot, w: Windows.Slot) {
    && m.used == w.used
    && (m.used ==>
          && m.owner == w.owner && m.device.Some? && w.started && w.kind == KIND_HID && w.vhf.Some?
          && m.device.value.features == w.features && m.device.value.lastInput == w.lastInput)
  }

  ghost predicate Alike(mac: seq<Slot>, windows: seq<Windows.Slot>) {
    |mac| == |windows| && forall j :: 0 <= j < |mac| ==> SameSlot(mac[j], windows[j])
  }

  /** A plug that repeats no feature id, the one thing the two drivers take differently. */
  predicate IsPlain(e: Event) {
    e.Plug? && MacParsePlug(e.request).Some? ==> FeatureTables.Distinct(MacParsePlug(e.request).value.features)
  }

  /** A request is granted on one bus exactly when it is on the other. */
  predicate GrantedAlike(e: Event, m: IoReturn, w: Status) {
    match e
    case Poll(_, _, _) => true
    case Input(_, _, Some(code)) => w == Status.Success <==> m == Refusal(code)
    case _ => w == Status.Success <==> m == Done
  }

  /** One step taken on both buses leaves them alike. */
  ghost predicate StaysAlike(mac: seq<Slot>, windows: seq<Windows.Slot>, e: Event) {
    var m, w := Step(mac, e), Windows.Step(windows, OnWindows(e));
    Alike(m.bus, w.bus) && GrantedAlike(e, m.status, w.status)
  }

  lemma SlotsAgree(mac: seq<Slot>, windows: seq<Windows.Slot>, index: nat, client: Client)
    requires Inv(mac) && Alike(mac, windows)
    ensures DeviceFor(mac, index, client) == Windows.SlotFor(windows, index, client)
  {
  }

  lemma FreeSlotsAgree(mac: seq<Slot>, windows: seq<Windows.Slot>)
    requires Alike(mac, windows)
    ensures FirstFree(mac) == Windows.FirstFree(windows)
  {
    var i, j := FirstFree(mac), Windows.FirstFree(windows);
    assert i < |mac| ==> SameSlot(mac[i], windows[i]);
    assert j < |mac| ==> SameSlot(mac[j], windows[j]);
  }

  lemma PlugStaysAlike(mac: seq<Slot>, windows: seq<Windows.Slot>, e: Event)
    requires Inv(mac) && Windows.Inv(windows) && Alike(mac, windows)
    requires e.Plug? && IsHid(e) && IsPlain(e)
    ensures StaysAlike(mac, windows, e)
  {
    var f, o, w := OnWindows(e), Step(mac, e), Windows.Step(windows, OnWindows(e));
    PlugOutcome(mac, e.client, e.request, e.resources);
    ParsersAgree(e.request);
    FreeSlotsAgree(mac, windows);
    Windows.PlugOutcome(windows, f.handle, f.buffer, f.room, f.resources);
    Windows.StepKeepsInv(windows, f);
    var i := FirstFree(mac);
    if o.status == Done {
      HidParsesAsHid(e.request);
      FeatureTables.MacPlugIsPlug(MacParsePlug(e.request).value.features);
      ParsedFeatures(e.request);
      SuccessNamesTheSlot(windows, f);
      VhidReports.PlugTakesNoInput(windows, f, i);
      assert Windows.SlotInv(w.bus[i]);
      hide PlugStep, Windows.PlugStep, ParsePlug, MacParsePlug, FeatureTables.MacPlug, FeatureTables.Distinct, Windows.Inv, Inv;
      forall j | 0 <= j < |mac|
        ensures SameSlot(o.bus[j], w.bus[j])
      {
        assert SameSlot(mac[j], windows[j]);
      }
    } else {
      RefusedPlugKeepsFree(windows, f);
      hide PlugStep, Windows.PlugStep, ParsePlug, MacParsePlug, Windows.Inv, Inv;
      forall j | 0 <= j < |mac|
        ensures SameSlot(o.bus[j], w.bus[j])
      {
        assert SameSlot(mac[j], windows[j]);
      }
    }
  }

  lemma ParsedFeatures(b: seq<byte>)
    requires MacParsePlug(b).Some?
    ensures var r := MacParsePlug(b).value;
            |r.features| <= MAX_FEATURES && forall f :: f in r.features ==> IsFeature(f)
  {
  }

  lemma SuccessNamesTheSlot(bus: seq<Windows.Slot>, e: Windows.Event)
    requires e.Plug? && Windows.Step(bus, e).status == Status.Success
    ensures Windows.Step(bus, e).slot == Some(Windows.FirstFree(bus))
  {
    hide Windows.Publish, Windows.FirstFree, CheckHeader;
  }

  lemma RefusedPlugKeepsFree(bus: seq<Windows.Slot>, e: Windows.Event)
    requires e.Plug? && Windows.Step(bus, e).status != Status.Success
    ensures var after := Windows.Step(bus, e).bus;
            forall j :: 0 <= j < |bus| ==> after[j].used == bus[j].used && (bus[j].used ==> after[j] == bus[j])
  {
    hide ParseFeatures, CheckHeader;
  }

  lemma UnplugStaysAlike(mac: seq<Slot>, windows: seq<Windows.Slot>, e: Event)
    requires Inv(mac) && Windows.Inv(windows) && Alike(mac, windows) && e.Unplug?
    ensures StaysAlike(mac, windows, e)
  {
    Le32RoundTrip(e.index, Le32(e.index), 0);
    assert Le32(e.index)[0..4] == Le32(e.index);
    hide Le32, Le32At;
    assert e.index < |mac| ==> SameSlot(mac[e.index], windows[e.index]) && Windows.SlotInv(windows[e.index]);
    hide Inv, Windows.Inv;
  }

  lemma CloseStaysAlike(mac: seq<Slot>, windows: seq<Windows.Slot>, e: Event)
    requires Inv(mac) && Windows.Inv(windows) && Alike(mac, windows) && e.Close?
    ensures StaysAlike(mac, windows, e)
  {
    var client := e.client;
    UnplugOwnedReleases(mac, 0, client);
    Windows.CloseReleasesOwned(windows, 0, client);
    VhidReports.CloseSucceeds(windows, 0, client);
    hide UnplugOwnedFrom, Windows.CloseFrom;
    var after, w := UnplugOwnedFrom(mac, 0, client), Windows.CloseFrom(windows, 0, client).bus;
    forall j | 0 <= j < |mac|
      ensures SameSlot(after[j], w[j])
    {
      assert SameSlot(mac[j], windows[j]) && SlotInv(mac[j]) && Windows.SlotInv(windows[j]);
    }
  }

  lemma InputStaysAlike(mac: seq<Slot>, windows: seq<Windows.Slot>, e: Event)
    requires Inv(mac) && Windows.Inv(windows) && Alike(mac, windows) && e.Input?
    ensures StaysAlike(mac, windows, e)
  {
    var r := ReadReportIn(e.bytes);
    if r.Ok? {
      SlotsAgree(mac, windows, r.value.slot, e.client);
    }
    hide ReadReportIn, DeviceFor, Windows.SlotFor, Inv, Windows.Inv;
    assert forall j :: 0 <= j < |mac| ==> SameSlot(mac[j], windows[j]);
  }

  lemma SetStaysAlike(mac: seq<Slot>, windows: seq<Windows.Slot>, e: Event)
    requires Inv(mac) && Windows.Inv(windows) && Alike(mac, windows) && e.SetFeature?
    ensures StaysAlike(mac, windows, e)
  {
    var r := ReadReportIn(e.bytes);
    if r.Ok? {
      SlotsAgree(mac, windows, r.value.slot, e.client);
      var i := DeviceFor(mac, r.value.slot, e.client);
      if i.Some? {
        assert Windows.SlotInv(windows[i.value]) && SameSlot(mac[i.value], windows[i.value]);
        FeatureTables.AddFeatureIsClientSet(mac[i.value].device.value.features, r.value.report);
      }
    }
    hide ReadReportIn, DeviceFor, Windows.SlotFor, Inv, Windows.Inv, FeatureTables.AddFeature, FeatureTables.ClientSet;
    assert forall j :: 0 <= j < |mac| ==> SameSlot(mac[j], windows[j]);
  }

  lemma PollStaysAlike(mac: seq<Slot>, windows: seq<Windows.Slot>, e: Event)
    requires Alike(mac, windows) && e.Poll?
    ensures StaysAlike(mac, windows, e)
  {
    assert ReadReportIn([]).Err?;
    hide ReadReportIn, Ring.PollBytes, Ring.Rest;
    assert forall j :: 0 <= j < |mac| ==> SameSlot(mac[j], windows[j]);
  }

  lemma HostStaysAlike(mac: seq<Slot>, windows: seq<Windows.Slot>, e: Event)
    requires Inv(mac) && Windows.Inv(windows) && Alike(mac, windows) && e.HostReport?
    ensures StaysAlike(mac, windows, e)
  {
    var m, w := Step(mac, e), Windows.Step(windows, OnWindows(e));
    if e.node < |mac| {
      assert SameSlot(mac[e.node], windows[e.node]) && SlotInv(mac[e.node]) && Windows.SlotInv(windows[e.node]);
    }
    hide Inv, Windows.Inv, Ring.Push, Delivery.Deliver, FeatureTables.FirstMatch;
    assert e.node < |mac| ==> SameSlot(m.bus[e.node], w.bus[e.node]);
    hide FeatureTables.MacHostSet, FeatureTables.HostSet;
    forall j | 0 <= j < |mac|
      ensures SameSlot(m.bus[j], w.bus[j])
    {
      assert SameSlot(mac[j], windows[j]);
    }
  }

  lemma StepStaysAlike(mac: seq<Slot>, windows: seq<Windows.Slot>, e: Event)
    requires Inv(mac) && Windows.Inv(windows) && Alike(mac, windows) && IsHid(e) && IsPlain(e)
    ensures StaysAlike(mac, windows, e)
  {
    hide *;
    match e
    case Plug(_, _, _) => PlugStaysAlike(mac, windows, e);
    case Unplug(_, _) => UnplugStaysAlike(mac, windows, e);
    case Close(_) => CloseStaysAlike(mac, windows, e);
    case Input(_, _, _) => InputStaysAlike(mac, windows, e);
    case SetFeature(_, _) => SetStaysAlike(mac, windows, e);
    case Poll(_, _, _) => PollStaysAlike(mac, windows, e);
    case HostReport(_, _, _) => HostStaysAlike(mac, windows, e);
  }

  predicate AllPlain(events: seq<Event>) {
    forall i :: 0 <= i < |events| ==> IsHid(events[i]) && IsPlain(events[i])
  }

  lemma NothingAlike()
    ensures Alike(EMPTY_BUS, Windows.EMPTY_BUS)
  {
  }

  /**
   * Over every run of HID requests and host reports that plugs no repeated feature id, the two
   * buses hold, slot by slot, the same feature tables and the same last inputs; and whatever
   * request comes next is granted on one exactly when it is on the other.
   */
  lemma {:induction false} BusesAnswerAlike(events: seq<Event>, e: Event)
    requires AllPlain(events) && IsHid(e) && IsPlain(e)
    ensures Alike(Run(EMPTY_BUS, events), Windows.Run(Windows.EMPTY_BUS, AllOnWindows(events)))
    ensures StaysAlike(Run(EMPTY_BUS, events), Windows.Run(Windows.EMPTY_BUS, AllOnWindows(events)), e)
    decreases |events|
  {
    RunKeepsInv(events);
    Windows.RunKeepsInv(AllOnWindows(events));
    if events == [] {
      NothingAlike();
    } else {
      var before, last := DropLast(events), Last(events);
      assert DropLast(AllOnWindows(events)) == AllOnWindows(before);
      assert Last(AllOnWindows(events)) == OnWindows(last);
      hide Inv, Windows.Inv, Alike, Step, Windows.Step, GrantedAlike, OnWindows, AllOnWindows, IsHid, IsPlain;
      BusesAnswerAlike(before, last);
    }
    StepStaysAlike(Run(EMPTY_BUS, events), Windows.Run(Windows.EMPTY_BUS, AllOnWindows(events)), e);
  }

  // ---------------------------------------------------------------------------
  // The answers of the macOS bus
  // ---------------------------------------------------------------------------

  /** The answer to a plug, in the order the bus meets its reasons; one that fails leaves no trace. */
  lemma PlugIsAnswered(bus: seq<Slot>, client: Client, b: seq<byte>, res: Resources)
    requires Inv(bus)
    ensures var o := Step(bus, Plug(client, b, res));
            && o.status == (if !HeaderFits(b) then BadArgument
                            else if forall i :: 0 <= i < |bus| ==> bus[i].used then NoResources
                            else if !res.create then Refusal(res.code)
                            else if MacParsePlug(b).None? then BadArgument
                            else if !res.start then Refusal(res.code)
                            else Done)
            && (o.status != Done ==> o == Refused(bus, o.status))
  {
    PlugOutcome(bus, client, b, res);
    PlugSlotOnlyOnSuccess(bus, client, b, res);
    assert FirstFree(bus) == |bus| <==> forall i :: 0 <= i < |bus| ==> bus[i].used;
    hide ParseFeatures, FirstFree, FeatureTables.MacPlug, Inv;
  }

  /** A client's report that cannot be read, or that names no node of its own, is refused and changes nothing. */
  lemma RefusalsChangeNothing(bus: seq<Slot>, e: Event)
    requires e.Input? || e.SetFeature?
    ensures var r, o := ReadReportIn(e.bytes), Step(bus, e);
            && (r.Err? ==> o == Refused(bus, BadArgument))
            && (r.Ok? && (r.value.slot >= |bus| || !bus[r.value.slot].used || bus[r.value.slot].owner != Some(e.client)) ==>
                  o == Refused(bus, NotAttached))
            && (o.status == NoResources ==> e.SetFeature? && o.bus == bus)
  {
    hide ReadReportIn, FeatureTables.FirstMatch;
    if e.SetFeature? && ReadReportIn(e.bytes).Ok? {
      var i := DeviceFor(bus, ReadReportIn(e.bytes).value.slot, e.client);
      if i.Some? {
        var d := bus[i.value].device.value;
        assert d.(features := d.features) == d;
        assert WithDevice(bus, i.value, d) == bus;
      }
    }
  }

  /**
   * A poll by the owner: the header and as much of the oldest report as its buffer takes, an
   * empty report when nothing is queued; the oldest one leaves the queue and nothing else moves.
   */
  lemma PollIsAnswered(bus: seq<Slot>, j: u32, capacity: nat)
    requires Inv(bus) && j < |bus| && bus[j].used
    ensures bus[j].owner.Some? && bus[j].device.Some?
    ensures var d, o := bus[j].device.value, Step(bus, Poll(bus[j].owner.value, j, capacity));
            if capacity < 4 then o == Refused(bus, BadArgument)
            else
              && o.status == Done && o.slot == None && o.bus == bus[j := bus[j].(device := o.bus[j].device)]
              && (d.queue == [] ==> o.polled == [0, 0, 0, 0] && o.bus == bus)
              && (d.queue != [] ==>
                    var r := d.queue[0];
                    var n := if |r.data| <= capacity - 4 then |r.data| else capacity - 4;
                    && n <= 512 && o.polled == [r.kind, 0, n % 0x100, n / 0x100] + r.data[..n]
                    && o.bus[j].device == Some(d.(queue := d.queue[1..])))
  {
    assert SlotInv(bus[j]);
    hide Inv;
    var d := bus[j].device.value;
    if capacity >= 4 {
      PolledBytes(d.queue, capacity);
      assert d.(queue := d.queue) == d;
      assert WithDevice(bus, j, d) == bus;
    }
    hide Ring.PollBytes, AllFit;
  }

  lemma PolledBytes(queue: seq<Report>, capacity: nat)
    requires AllFit(queue) && capacity >= 4
    ensures Ring.PollBytes(queue, capacity).Some?
    ensures queue == [] ==> Ring.PollBytes(queue, capacity).value == [0, 0, 0, 0]
    ensures queue != [] ==>
              var r := queue[0];
              var n := if |r.data| <= capacity - 4 then |r.data| else capacity - 4;
              n <= 512 && Ring.PollBytes(queue, capacity).value == [r.kind, 0, n % 0x100, n / 0x100] + r.data[..n]
  {
    var room := if capacity - 4 > 512 then 512 else capacity - 4;
    var r := Ring.Oldest(queue, room);
    if queue != [] {
      assert |queue[0].data| <= 512;
      assert queue[0].data[..|queue[0].data|] == queue[0].data;
    }
    VhidReports.AnswerBytes(r.kind, r.data);
    hide OutputBytes;
  }
}
