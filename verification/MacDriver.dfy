/**
 * The macOS driver as it runs: slot records and the nodes behind them updated in place,
 * cursor and index loops, each entry point proved against the step function of MacBus.
 */
module MacDriver {
  import opened Common
  import opened Bytes
  import opened Wire
  import opened MacBus
  import Delivery
  import FeatureTables
  import Ring = MacOutputRing

  /** A slot with the storage of the node it may hold; a new node starts with that storage cleared. */
  class SlotRecord {
    var used: bool
    var owner: Option<Client>
    var live: bool
    var identity: Identity
    var descriptor: seq<byte>
    const table: FeatureTables.Table
    var lastInput: seq<byte>
    const ring: Ring.OutputRing

    ghost function Parts(): set<object> {
      {this, table, table.entries, ring, ring.outputs}
    }

    ghost predicate Valid()
      reads Parts()
    {
      table.Valid() && ring.Valid()
    }

    ghost function Stored(): Node
      requires Valid()
      reads Parts()
    {
      Node(identity, descriptor, table.Contents(), lastInput, ring.Contents())
    }

    ghost function View(): Slot
      requires Valid()
      reads Parts()
    {
      Slot(used, owner, if live then Some(Stored()) else None)
    }

    constructor ()
      ensures Valid() && View() == NO_DEVICE && fresh(Parts())
    {
      used, owner, live := false, None, false;
      identity, descriptor, lastInput := Identity(0, 0, 0), [], [];
      table := new FeatureTables.Table();
      ring := new Ring.OutputRing();
    }

    /** The entry at the cursor, or nothing when it does not fit, and the cursor after it. */
    method NextEntry(b: seq<byte>, at: nat, n: nat) returns (data: Option<seq<byte>>, end: nat)
      requires at <= |b| && n > 0
      ensures end <= |b|
      ensures data.None? ==> ParseFeatures(b, at, n).Err?
      ensures data.Some? ==>
                && data.value != []
                && ParseFeatures(b, at, n)
                   == Prepended([Feature(data.value[0], data.value)], ParseFeatures(b, end, n - 1))
    {
      end := at;
      if |b| - at < 2 {
        return None, at;
      }
      var length := Le16At(b, at);
      if length == 0 || length > MAX_REPORT || |b| - (at + 2) < length as int {
        return None, at;
      }
      end := at + 2 + length as int;
      data := Some(b[at + 2..end]);
    }

    /** addFeature for every entry the cursor finds. */
    method AddFeatures(b: seq<byte>, at: nat, n: nat) returns (ok: bool)
      requires Valid() && at <= |b| && table.Contents() == []
      modifies table, table.entries
      ensures Valid()
      ensures ok <==> ParseFeatures(b, at, n).Ok?
      ensures ok ==> table.Contents() == FeatureTables.MacPlug(ParseFeatures(b, at, n).value)
    {
      hide FeatureTables.AddFeature, FeatureTables.MacPlug, Prepended, ParseFeatures;
      NothingAdded();
      PrependedNothing(ParseFeatures(b, at, n));
      ghost var front: seq<Feature> := [];
      var cursor: nat, k: nat := at, 0;
      while k < n
        invariant k <= n && cursor <= |b| && Valid()
        invariant ParseFeatures(b, at, n) == Prepended(front, ParseFeatures(b, cursor, n - k))
        invariant table.Contents() == FeatureTables.MacPlug(front)
      {
        FailsWhenRestFails(front, ParseFeatures(b, cursor, n - k));
        var data, end := NextEntry(b, cursor, n - k);
        if data.None? {
          return false;
        }
        ghost var f := Feature(data.value[0], data.value);
        PrependedTwice(front, f, ParseFeatures(b, end, n - k - 1));
        AddedNext(front, f);
        front := front + [f];
        var _ := table.Add(data.value);
        cursor, k := end, k + 1;
      }
      ParseStops(b, cursor, 0, front);
      ok := true;
    }

    /** A node created, configured and filled, up to its start. */
    method BuildNode(b: seq<byte>, res: Resources) returns (status: IoReturn)
      requires Valid() && HeaderFits(b)
      modifies Parts()
      ensures Valid() && used == old(used) && owner == old(owner) && live == old(live)
      ensures status == Build(b, res).status
      ensures status == Done ==> Build(b, res).device == Some(Stored())
    {
      hide ParseFeatures, FeatureTables.MacPlug;
      var header := HeaderOf(b);
      if !res.create {
        return Refusal(res.code);
      }
      table.Clear();
      ring.Reset();
      lastInput := [];
      var at := PLUG_HEADER + header.descriptorLength as int;
      identity := header.identity;
      descriptor := b[PLUG_HEADER..at];
      var ok := AddFeatures(b, at, header.featureCount);
      if !ok {
        return BadArgument;
      }
      if !res.start {
        return Refusal(res.code);
      }
      status := Done;
    }

    /** A free slot reserved for a client and filled, or left free when the node cannot be had. */
    method PlugNode(client: Client, b: seq<byte>, res: Resources) returns (status: IoReturn)
      requires Valid() && HeaderFits(b) && View() == NO_DEVICE
      modifies Parts()
      ensures Valid() && status == Build(b, res).status
      ensures View() == if Build(b, res).device.Some? then Slot(true, Some(client), Build(b, res).device) else NO_DEVICE
    {
      hide Build, HeaderFits;
      used, owner, live := true, Some(client), false;
      status := BuildNode(b, res);
      if status != Done {
        used, owner := false, None;
      } else {
        live := true;
      }
    }

    method TakeHostReport(kind: byte, data: seq<byte>)
      requires Valid() && live
      modifies Parts()
      ensures Valid() && live && View() == Slot(old(used), old(owner), Some(HostStep(old(Stored()), kind, data)))
    {
      hide FeatureTables.MacHostSet, Ring.Push;
      if kind == OUTPUT_KIND_FEATURE && data != [] {
        table.SetFromMacHost(data);
      }
      ring.SetReport(kind, data);
    }

    method TakePoll(room: nat) returns (r: Report)
      requires Valid() && live
      modifies Parts()
      ensures Valid() && live
      ensures r == Ring.Oldest(old(Stored()).queue, room)
      ensures View() == Slot(old(used), old(owner), Some(old(Stored()).(queue := Ring.Rest(old(Stored()).queue))))
    {
      hide Ring.Oldest, Ring.Rest;
      r := ring.TakeOutput(room);
    }

    /** getReport for a feature; None is "unsupported". */
    method GetFeature(id: byte, room: nat) returns (answer: Option<seq<byte>>)
      requires Valid() && live
      ensures answer == FeatureTables.Get(Stored().features, id, room)
    {
      answer := table.GetFeature(id, room);
    }

    /** getReport for the input report last submitted. */
    method GetInput(id: byte, room: nat) returns (answer: Option<seq<byte>>)
      requires Valid() && live
      ensures var last := Stored().lastInput;
              && (answer.Some? <==> last != [] && last[0] == id)
              && (answer.Some? ==> answer.value <= last && |answer.value| == if |last| < room then |last| else room)
    {
      if lastInput == [] || lastInput[0] != id {
        return None;
      }
      var copy := if |lastInput| < room then |lastInput| else room;
      answer := Some(lastInput[..copy]);
    }

    method TakeFeature(report: seq<byte>) returns (ok: bool)
      requires Valid() && live
      modifies Parts()
      ensures Valid() && live
      ensures var a := FeatureTables.AddFeature(old(Stored()).features, report);
              && ok == a.ok
              && View() == Slot(old(used), old(owner), Some(old(Stored()).(features := a.table)))
    {
      hide FeatureTables.AddFeature;
      ok := table.Add(report);
    }
  }

  class BusService {
    const slots: seq<SlotRecord>

    ghost function Parts(): set<object> {
      set i, o | 0 <= i < |slots| && o in slots[i].Parts() :: o
    }

    ghost predicate Valid()
      reads Parts()
      ensures Valid() ==> |slots| == MAX_DEVICES && forall i :: 0 <= i < |slots| ==> slots[i].Valid()
    {
      && |slots| == MAX_DEVICES
      && (forall i :: 0 <= i < |slots| ==> slots[i].Valid())
      && (forall i, j :: 0 <= i < j < |slots| ==> slots[i].Parts() !! slots[j].Parts())
    }

    ghost function Views(): (bus: seq<Slot>)
      requires Valid()
      reads Parts()
      ensures |bus| == MAX_DEVICES
      ensures forall i :: 0 <= i < MAX_DEVICES ==> bus[i] == slots[i].View()
    {
      seq(MAX_DEVICES, i requires 0 <= i < |slots| && slots[i].Valid() reads if 0 <= i < |slots| then slots[i].Parts() else {} =>
        slots[i].View())
    }

    constructor ()
      ensures Valid() && fresh(Parts()) && Views() == EMPTY_BUS
    {
      var built: seq<SlotRecord> := [];
      ghost var parts: set<object> := {};
      while |built| < MAX_DEVICES
        invariant |built| <= MAX_DEVICES && fresh(parts)
        invariant forall i :: 0 <= i < |built| ==>
                    built[i].Parts() <= parts && built[i].Valid() && built[i].View() == NO_DEVICE
        invariant forall i, j :: 0 <= i < j < |built| ==> built[i].Parts() !! built[j].Parts()
        decreases MAX_DEVICES - |built|
      {
        var slot := new SlotRecord();
        assert slot.Parts() !! parts;
        parts := parts + slot.Parts();
        built := built + [slot];
      }
      slots := built;
      new;
      assert Parts() <= parts;
      assert Views() == EMPTY_BUS;
    }

    lemma PartsOf(i: nat)
      requires Valid() && i < |slots|
      ensures slots[i].Valid() && slots[i].Parts() <= Parts()
    {
    }

    /** Changing one slot's record changes one entry of the view. */
    twostate lemma OneSlot(i: nat)
      requires old(Valid()) && i < |slots| && slots[i].Valid()
      requires forall o :: o in Parts() && o !in slots[i].Parts() ==> unchanged(o)
      ensures Valid() && Views() == old(Views())[i := slots[i].View()]
    {
      forall j | 0 <= j < |slots| && j != i
        ensures slots[j].Valid() && slots[j].View() == old(slots[j].View())
      {
        assert slots[j].Parts() !! slots[i].Parts();
        assert slots[j] in Parts() && slots[j].table in Parts() && slots[j].table.entries in Parts();
        assert slots[j].ring in Parts() && slots[j].ring.outputs in Parts();
        assert slots[j].table.Valid() && slots[j].ring.Valid();
      }
    }


    /** The lowest free slot, or the number of slots when there is none. */
    method FindFree() returns (i: nat)
      requires Valid()
      ensures Valid() && Views() == old(Views()) && i == FirstFree(Views())
    {
      i := 0;
      while i < |slots| && slots[i].used
        invariant i <= |slots|
        invariant forall j :: 0 <= j < i ==> slots[j].used
      {
        i := i + 1;
      }
      assert forall j :: 0 <= j < i ==> Views()[j].used;
      assert i < |slots| ==> !Views()[i].used;
      FirstFreeIs(Views(), i);
    }

    method Plug(client: Client, b: seq<byte>, res: Resources) returns (status: IoReturn, slotOut: Option<nat>)
      requires Valid() && MacBus.Inv(Views())
      modifies Parts()
      ensures Valid()
      ensures Outcome(Views(), status, slotOut, []) == PlugStep(old(Views()), client, b, res)
    {
      hide Valid, Views, Build, HeaderFits, FirstFree, MacBus.Inv;
      slotOut := None;
      if !HeaderFits(b) {
        return BadArgument, None;
      }
      var index := FindFree();
      if index == MAX_DEVICES {
        return NoResources, None;
      }
      PartsOf(index);
      FreeSlotIsEmpty(Views(), index);
      status := slots[index].PlugNode(client, b, res);
      OneSlot(index);
      if status == Done {
        slotOut := Some(index);
      }
    }

    method Unplug(index: nat, client: Client) returns (status: IoReturn)
      requires Valid()
      modifies Parts()
      ensures Valid()
      ensures Outcome(Views(), status, None, []) == UnplugStep(old(Views()), index, client)
    {
      hide Valid, Views;
      if index >= MAX_DEVICES || !slots[index].used || slots[index].owner != Some(client) {
        return BadArgument;
      }
      PartsOf(index);
      slots[index].live, slots[index].owner, slots[index].used := false, None, false;
      OneSlot(index);
      status := Done;
    }

    method UnplugOwned(client: Client)
      requires Valid()
      modifies Parts()
      ensures Valid()
      ensures Views() == UnplugOwnedFrom(old(Views()), 0, client)
    {
      hide Valid, Views, UnplugStep;
      var i := 0;
      while i < MAX_DEVICES
        invariant i <= MAX_DEVICES && Valid()
        invariant UnplugOwnedFrom(Views(), i, client) == UnplugOwnedFrom(old(Views()), 0, client)
      {
        var _ := Unplug(i, client);
        i := i + 1;
      }
    }

    function SlotFor(index: nat, client: Client): (i: Option<nat>)
      requires Valid()
      reads Parts()
      ensures i == DeviceFor(Views(), index, client)
      ensures i.Some? ==> i.value < |slots| && slots[i.value].live
    {
      if index >= |slots| then None
      else
        var slot := slots[index];
        PartsOf(index);
        assert slot in slot.Parts();
        if slot.used && slot.owner == Some(client) && slot.live then Some(index) else None
    }

    method SubmitInput(client: Client, bytes: seq<byte>, submitted: Option<nat>) returns (status: IoReturn)
      requires Valid()
      modifies Parts()
      ensures Valid()
      ensures Outcome(Views(), status, None, []) == InputStep(old(Views()), client, bytes, submitted)
    {
      hide Valid, Views, ReadReportIn, DeviceFor;
      var r := ReadReportIn(bytes);
      if r.Err? {
        return BadArgument;
      }
      var i := SlotFor(r.value.slot, client);
      if i.None? {
        return NotAttached;
      }
      PartsOf(i.value);
      slots[i.value].lastInput := r.value.report;
      OneSlot(i.value);
      status := if submitted.None? then Done else Refusal(submitted.value);
    }

    method SetNodeFeature(client: Client, bytes: seq<byte>) returns (status: IoReturn)
      requires Valid()
      modifies Parts()
      ensures Valid()
      ensures Outcome(Views(), status, None, []) == SetFeatureStep(old(Views()), client, bytes)
    {
      hide Valid, Views, ReadReportIn, DeviceFor, FeatureTables.AddFeature, SlotRecord.Valid;
      var r := ReadReportIn(bytes);
      if r.Err? {
        return BadArgument;
      }
      var i := SlotFor(r.value.slot, client);
      if i.None? {
        return NotAttached;
      }
      PartsOf(i.value);
      hide SlotRecord.Stored;
      var ok := slots[i.value].TakeFeature(r.value.report);
      OneSlot(i.value);
      status := if ok then Done else NoResources;
    }

    method PollOutput(client: Client, index: nat, capacity: nat) returns (status: IoReturn, out: seq<byte>)
      requires Valid()
      modifies Parts()
      ensures Valid()
      ensures Outcome(Views(), status, None, out) == PollStep(old(Views()), client, index, capacity)
    {
      hide Valid, Views, DeviceFor, OutputBytes, Ring.Oldest, Ring.Rest;
      if capacity < OUTPUT_HEADER {
        return BadArgument, [];
      }
      var i := SlotFor(index, client);
      if i.None? {
        return NotAttached, [];
      }
      PartsOf(i.value);
      var room := if capacity - OUTPUT_HEADER > MAX_REPORT then MAX_REPORT else capacity - OUTPUT_HEADER;
      var r := slots[i.value].TakePoll(room);
      OneSlot(i.value);
      out := OutputBytes(r);
      status := Done;
    }

    /** A report the HID stack sets on a published node. */
    method SetReport(index: nat, kind: byte, data: seq<byte>)
      requires Valid() && index < MAX_DEVICES && slots[index].live
      modifies Parts()
      ensures Valid()
      ensures old(Views())[index].device.Some?
      ensures Views() == WithDevice(old(Views()), index, HostStep(old(Views())[index].device.value, kind, data))
    {
      hide Valid, Views, HostStep;
      PartsOf(index);
      slots[index].TakeHostReport(kind, data);
      OneSlot(index);
    }
  }

  lemma NothingAdded()
    ensures FeatureTables.MacPlug([]) == []
  {
  }

  lemma AddedNext(front: seq<Feature>, f: Feature)
    ensures FeatureTables.MacPlug(front + [f]) == FeatureTables.AddFeature(FeatureTables.MacPlug(front), f.data).table
  {
    assert DropLast(front + [f]) == front;
  }

  lemma FailsWhenRestFails(front: seq<Feature>, rest: Result<seq<Feature>, Status>)
    ensures Prepended(front, rest).Err? <==> rest.Err?
  {
  }

  lemma PrependedTwice(front: seq<Feature>, f: Feature, rest: Result<seq<Feature>, Status>)
    ensures Prepended(front, Prepended([f], rest)) == Prepended(front + [f], rest)
  {
    if rest.Ok? {
      assert front + ([f] + rest.value) == front + [f] + rest.value;
    }
  }

  lemma FreeSlotIsEmpty(bus: seq<Slot>, i: nat)
    requires MacBus.Inv(bus) && i < |bus| && !bus[i].used
    ensures bus[i] == NO_DEVICE
  {
  }
}
