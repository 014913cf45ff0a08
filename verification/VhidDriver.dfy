/**
 * The Windows driver as it runs: slot records updated in place, cursor and index loops,
 * each entry point proved against the step function of VhidBus.
 */
module VhidDriver {
  import opened Common
  import opened Bytes
  import opened Wire
  import opened Delivery
  import opened VhidBus
  import FeatureTables
  import XusbPipe

  class SlotRecord {
    var used: bool
    var started: bool
    var kind: u16
    var owner: Option<Handle>
    var vhf: Option<Identity>
    var pdo: Option<Identity>
    const pipe: XusbPipe.PdoContext
    var descriptor: Option<seq<byte>>
    const table: FeatureTables.Table
    var lastInput: seq<byte>
    var outputPending: bool
    var output: Report
    var waiters: seq<Waiter>

    ghost function Parts(): set<object> {
      {this, table, table.entries, pipe, pipe.input}
    }

    ghost predicate Valid()
      reads Parts()
    {
      table.Valid() && pipe.Valid()
    }

    ghost function View(): Slot
      requires Valid()
      reads Parts()
    {
      Slot(used, started, kind, owner, vhf, if pdo.Some? then Some(Pdo(pdo.value, pipe.View())) else None,
           descriptor, table.Contents(), lastInput, Mailbox(outputPending, output, waiters))
    }

    constructor ()
      ensures Valid() && View() == EMPTY_SLOT && fresh(Parts())
    {
      used, started, kind, owner, vhf, pdo := false, false, KIND_HID, None, None, None;
      descriptor, lastInput := None, [];
      outputPending, output, waiters := false, Report(0, []), [];
      table := new FeatureTables.Table();
      pipe := new XusbPipe.PdoContext();
    }

    method Reserve(handle: Handle, kind: u16)
      requires Valid()
      modifies this, table
      ensures Valid() && View() == Reserved(old(View()), handle, kind)
    {
      table.Clear();
      used, started, this.kind, owner := true, false, kind, Some(handle);
      vhf, pdo := None, None;
      lastInput := [];
      outputPending, output := false, Report(output.kind, []);
    }

    /** XusbUnplug: the child device goes, and its waiting transfers with it. */
    method DropPdo() returns (cancelled: seq<XusbPipe.Transfer>)
      requires Valid()
      modifies this`pdo, pipe
      ensures Valid() && View() == old(View()).(pdo := None)
      ensures cancelled == WaitingTransfers(old(View()))
    {
      cancelled := [];
      if pdo.Some? {
        cancelled := pipe.Abort();
      }
      pdo := None;
    }

    method Release() returns (done: seq<Completion>, cancelled: seq<XusbPipe.Transfer>)
      requires Valid()
      modifies this, table, pipe
      ensures Valid() && View() == Released(old(View()))
      ensures done == Purged(old(waiters)) && cancelled == WaitingTransfers(old(View()))
    {
      cancelled := DropPdo();
      table.Clear();
      used, owner, started := false, None, false;
      vhf := None;
      outputPending := false;
      descriptor := None;
      done := Purged(waiters);
      waiters := [];
    }

    method CompleteWaiter() returns (done: seq<Completion>)
      requires Valid()
      modifies this
      ensures Valid()
      ensures var a := Delivery.CompleteWaiter(old(View()).box);
              View() == old(View()).(box := a.box) && done == a.done
    {
      if waiters == [] {
        return [];
      }
      var request := waiters[0];
      waiters := waiters[1..];
      if request.room < OUTPUT_HEADER + |output.data| {
        return [Completion(request.id, BufferTooSmall, [])];
      }
      outputPending := false;
      return [Completion(request.id, Success, OutputBytes(output))];
    }

    method DeliverOutput(kind: byte, data: seq<byte>) returns (done: seq<Completion>)
      requires Valid()
      modifies this
      ensures Valid()
      ensures var a := Deliver(old(View()).box, kind, data);
              View() == old(View()).(box := a.box) && done == a.done
    {
      var length := if |data| > MAX_REPORT then MAX_REPORT else |data|;
      output := Report(kind, data[..length]);
      outputPending := true;
      assert data[..|data|] == data;
      assert output == Report(kind, Clamp(data));
      done := CompleteWaiter();
    }

    method PendWait(w: Waiter) returns (done: seq<Completion>)
      requires Valid()
      modifies this
      ensures Valid()
      ensures var a := Wait(old(View()).box, w);
              View() == old(View()).(box := a.box) && done == a.done
    {
      waiters := waiters + [w];
      done := [];
      if outputPending {
        done := CompleteWaiter();
      }
    }

    /** The feature loop of a plug: the cursor moves over the buffer while entries land in the table. */
    method InstallFeatures(buffer: seq<byte>, at: nat, n: nat) returns (status: Status)
      requires Valid() && at <= |buffer| && n <= MAX_FEATURES
      requires table.count == 0
      modifies table, table.entries
      ensures Valid()
      ensures var parsed := ParseFeatures(buffer, at, n);
              && (status == Success <==> parsed.Ok?)
              && (parsed.Err? ==> status == parsed.error)
              && (parsed.Ok? ==> table.Contents() == parsed.value)
    {
      var cursor: nat, k: nat := at, 0;
      assert table.Contents() == [];
      hide ParseFeatures, Le16At;
      PrependedNothing(ParseFeatures(buffer, at, n));
      while k < n
        invariant k <= n && cursor <= |buffer|
        invariant Valid() && table.count == k
        invariant ParseFeatures(buffer, at, n) == Prepended(table.Contents(), ParseFeatures(buffer, cursor, n - k))
      {
        ParseStops(buffer, cursor, n - k, table.Contents());
        if |buffer| - cursor < 2 {
          return BufferTooSmall;
        }
        var length := Le16At(buffer, cursor);
        ghost var here := cursor;
        cursor := cursor + 2;
        if length == 0 || length > MAX_REPORT || |buffer| - cursor < length as int {
          return InvalidParameter;
        }
        var data := buffer[cursor..cursor + length as int];
        cursor := cursor + length as int;
        PrependedStep(buffer, here, n - k, table.Contents());
        table.Append(Feature(data[0], data));
        k := k + 1;
      }
      ParseStops(buffer, cursor, 0, table.Contents());
      status := Success;
    }

    /** The part of a plug after the slot is reserved; every failure releases the slot again. */
    method Publish(buffer: seq<byte>, res: Resources) returns (status: Status)
      requires Valid() && CheckHeader(buffer) == Success
      requires table.count == 0 && waiters == []
      modifies Parts()
      ensures Valid()
      ensures Published(View(), status) == VhidBus.Publish(old(View()), buffer, res)
    {
      var header := HeaderOf(buffer);
      if header.kind == KIND_XUSB {
        if !res.pdo {
          var _, _ := Release();
          return res.failure;
        }
        pipe.Reset();
        pdo := Some(header.identity);
        started := true;
        return Success;
      }
      if !res.pool {
        var _, _ := Release();
        return InsufficientResources;
      }
      var at := PLUG_HEADER + header.descriptorLength as int;
      descriptor := Some(buffer[PLUG_HEADER..at]);
      status := InstallFeatures(buffer, at, header.featureCount);
      if status != Success {
        var _, _ := Release();
        return;
      }
      if !res.create {
        var _, _ := Release();
        return res.failure;
      }
      vhf := Some(header.identity);
      if !res.start {
        var _, _ := Release();
        return res.failure;
      }
      started := true;
    }

    method Plug(handle: Handle, buffer: seq<byte>, res: Resources) returns (status: Status)
      requires Valid() && CheckHeader(buffer) == Success && waiters == []
      modifies Parts()
      ensures Valid()
      ensures Published(View(), status)
              == VhidBus.Publish(Reserved(old(View()), handle, HeaderOf(buffer).kind), buffer, res)
    {
      hide CheckHeader, VhidBus.Publish;
      Reserve(handle, HeaderOf(buffer).kind);
      assert View().features == [] && View().box.waiters == [];
      status := Publish(buffer, res);
    }

    method TakeInput(report: seq<byte>, submitted: Option<Failure>)
      returns (status: Status, information: nat, served: seq<XusbPipe.Served>)
      requires Valid()
      modifies this, pipe, pipe.input
      ensures Valid()
      ensures Taken(View(), status, information, served) == VhidBus.TakeInput(old(View()), report, submitted)
    {
      information, served := 0, [];
      if kind == KIND_XUSB {
        if |report| != XusbPipe.INPUT_LENGTH {
          return InvalidParameter, 0, [];
        }
        if pdo.None? {
          return NotConnected, 0, [];
        }
        status, served := pipe.Submit(report);
        lastInput := report;
        return Success, |report|, served;
      }
      if vhf.None? {
        return NotConnected, 0, [];
      }
      lastInput := report;
      if submitted == None {
        return Success, |report|, [];
      }
      return submitted.value, 0, [];
    }

    /** An interrupt-in transfer of the child device. */
    method TakeTransfer(t: XusbPipe.Transfer, accepted: bool) returns (status: Status, served: seq<XusbPipe.Served>)
      requires Valid() && pdo.Some?
      modifies pipe
      ensures Valid()
      ensures var e := XusbPipe.InTransfer(t, accepted);
              var a := XusbPipe.Apply(old(View()).pdo.value.pipe, e);
              && View() == Piped(old(View()), e)
              && status == a.status && served == a.served && a.cancelled == []
    {
      status, served := pipe.InterruptTransfer(t, accepted);
    }

    /** An abort of the child device's in pipe. */
    method TakeAbort() returns (cancelled: seq<XusbPipe.Transfer>)
      requires Valid() && pdo.Some?
      modifies pipe
      ensures Valid()
      ensures var a := XusbPipe.Apply(old(View()).pdo.value.pipe, XusbPipe.Abort);
              && View() == Piped(old(View()), XusbPipe.Abort)
              && a.status == Success && a.served == [] && cancelled == a.cancelled
    {
      cancelled := pipe.Abort();
    }

    method TakeFeature(id: byte, data: seq<byte>) returns (done: seq<Completion>)
      requires Valid()
      modifies Parts()
      ensures Valid()
      ensures var a := Deliver(old(View()).box, OUTPUT_KIND_FEATURE, data);
              && View() == old(View()).(features := FeatureTables.HostSet(old(View()).features, id, data), box := a.box)
              && done == a.done
    {
      hide Deliver, FeatureTables.HostSet;
      table.SetFromHost(id, data);
      done := DeliverOutput(OUTPUT_KIND_FEATURE, data);
    }

    /** A SET_FEATURE request of the client. */
    method TakeClientFeature(report: seq<byte>) returns (ok: bool)
      requires Valid() && ReportFits(report)
      modifies table, table.entries
      ensures Valid()
      ensures var a := FeatureTables.ClientSet(old(View()).features, report);
              View() == old(View()).(features := a.table) && ok == a.ok
    {
      hide FeatureTables.ClientSet;
      ok := table.SetFromClient(report);
    }

    /** A GET_FEATURE from the HID stack; None is "not supported". */
    method EvtGetFeature(id: byte, room: nat) returns (answer: Option<seq<byte>>)
      requires Valid()
      ensures answer == FeatureTables.Get(View().features, id, room)
    {
      answer := table.GetFeature(id, room);
    }

    /** A GET_REPORT for the input report last submitted. */
    method EvtGetInputReport(id: byte, room: nat) returns (answer: Option<seq<byte>>)
      requires Valid()
      ensures answer.Some? <==> lastInput != [] && lastInput[0] == id
      ensures answer.Some? ==> answer.value <= lastInput && |answer.value| == if |lastInput| < room then |lastInput| else room
    {
      if lastInput == [] || lastInput[0] != id {
        return None;
      }
      var copy := if |lastInput| > room then room else |lastInput|;
      answer := Some(lastInput[..copy]);
    }
  }

  class Driver {
    const slots: seq<SlotRecord>

    ghost function Parts(): set<object> {
      set i, o | 0 <= i < |slots| && o in slots[i].Parts() :: o
    }

    ghost predicate Valid()
      reads Parts()
      ensures Valid() ==> |slots| == MAX_DEVICES && forall i :: 0 <= i < |slots| ==> slots[i].Valid()
    {
      && |slots| == MAX_DEVICES
      && (forall i :: 0 <= i < |slots| ==> slots[i].Valid())
      && (forall i, j :: 0 <= i < j < |slots| ==> slots[i].Parts() !! slots[j].Parts())
    }

    ghost function Views(): (bus: seq<Slot>)
      requires Valid()
      reads Parts()
      ensures |bus| == MAX_DEVICES
      ensures forall i :: 0 <= i < MAX_DEVICES ==> bus[i] == slots[i].View()
    {
      seq(MAX_DEVICES, i requires 0 <= i < |slots| && slots[i].Valid() reads if 0 <= i < |slots| then slots[i].Parts() else {} =>
        slots[i].View())
    }

    lemma PartsOf(i: nat)
      requires Valid() && i < |slots|
      ensures slots[i].Valid() && slots[i].Parts() <= Parts()
    {
    }

    constructor ()
      ensures Valid() && fresh(Parts()) && Views() == EMPTY_BUS
    {
      var built: seq<SlotRecord> := [];
      ghost var parts: set<object> := {};
      while |built| < MAX_DEVICES
        invariant |built| <= MAX_DEVICES && fresh(parts)
        invariant forall i :: 0 <= i < |built| ==>
                    built[i].Parts() <= parts && built[i].Valid() && built[i].View() == EMPTY_SLOT
        invariant forall i, j :: 0 <= i < j < |built| ==> built[i].Parts() !! built[j].Parts()
        decreases MAX_DEVICES - |built|
      {
        var slot := new SlotRecord();
        assert slot.Parts() !! parts;
        parts := parts + slot.Parts();
        built := built + [slot];
      }
      slots := built;
      new;
      assert Parts() <= parts;
      assert Views() == EMPTY_BUS;
    }

    /** Changing one slot's record changes one entry of the view. */
    twostate lemma OneSlot(i: nat)
      requires old(Valid()) && i < |slots| && slots[i].Valid()
      requires forall o :: o in Parts() && o !in slots[i].Parts() ==> unchanged(o)
      ensures Valid() && Views() == old(Views())[i := slots[i].View()]
    {
      forall j | 0 <= j < |slots| && j != i
        ensures slots[j].Valid() && slots[j].View() == old(slots[j].View())
      {
        assert slots[j].Parts() !! slots[i].Parts();
        assert slots[j] in Parts() && slots[j].table in Parts() && slots[j].table.entries in Parts();
        assert slots[j].pipe in Parts() && slots[j].pipe.input in Parts();
      }
    }


    method FindFree() returns (i: nat)
      requires Valid()
      ensures Valid() && Views() == old(Views()) && i == FirstFree(Views())
    {
      i := 0;
      while i < |slots| && slots[i].used
        invariant i <= |slots|
        invariant forall j :: 0 <= j < i ==> slots[j].used
      {
        i := i + 1;
      }
      assert forall j :: 0 <= j < i ==> Views()[j].used;
      assert i < |slots| ==> !Views()[i].used;
    }

    /** VhidUnplug; no owner means the driver itself asks, as a failed plug does. */
    method UnplugIndex(index: nat, owner: Option<Handle>)
      returns (status: Status, done: seq<Completion>, cancelled: seq<XusbPipe.Transfer>)
      requires Valid()
      modifies Parts()
      ensures Valid()
      ensures status == Success <==> && index < |slots| && old(Views())[index].used
                                     && (owner.Some? ==> old(Views())[index].owner == owner)
      ensures status == Success || status == InvalidParameter
      ensures owner.Some? ==>
                Outcome(Views(), status, 0, None, done, [], cancelled) == UnplugStep(old(Views()), index, owner.value)
      ensures if status == Success
              then && Views() == old(Views())[index := Released(old(Views())[index])]
                   && done == Purged(old(Views())[index].box.waiters)
                   && cancelled == WaitingTransfers(old(Views())[index])
              else Views() == old(Views()) && done == [] && cancelled == []
    {
      hide Valid, Views;
      if index >= |slots| {
        return InvalidParameter, [], [];
      }
      var slot := slots[index];
      if !slot.used || (owner.Some? && slot.owner != owner) {
        return InvalidParameter, [], [];
      }
      PartsOf(index);
      hide Released, Purged, WaitingTransfers, SlotRecord.View, SlotRecord.Valid;
      done, cancelled := slot.Release();
      OneSlot(index);
      status := Success;
    }

    /** IOCTL_VHID_PLUG. */
    method IoctlPlug(handle: Handle, buffer: seq<byte>, room: nat, res: Resources)
      returns (status: Status, information: nat, slotOut: Option<nat>)
      requires Valid() && VhidBus.Inv(Views())
      modifies Parts()
      ensures Valid()
      ensures Outcome(Views(), status, information, slotOut, [], [], [])
              == PlugStep(old(Views()), handle, buffer, room, res)
    {
      hide Valid, Views;
      hide VhidBus.Publish, CheckHeader, HeaderOf, Reserved, VhidBus.Inv, FirstFree;
      information, slotOut := 0, None;
      if room < 4 {
        status := BufferTooSmall;
        return;
      }
      status := CheckHeader(buffer);
      if status != Success {
        return;
      }
      var i := FindFree();
      if i == |slots| {
        status := InsufficientResources;
        return;
      }
      PartsOf(i);
      FreeSlotIsEmpty(Views(), i);
      assert slots[i].waiters == [];
      hide IsFree, SlotRecord.View, SlotRecord.Valid;
      status := slots[i].Plug(handle, buffer, res);
      OneSlot(i);
      if status == Success {
        information, slotOut := 4, Some(i);
      }
    }

    /** IOCTL_VHID_UNPLUG. */
    method IoctlUnplug(handle: Handle, buffer: seq<byte>)
      returns (status: Status, done: seq<Completion>, cancelled: seq<XusbPipe.Transfer>)
      requires Valid()
      modifies Parts()
      ensures Valid()
      ensures Outcome(Views(), status, 0, None, done, [], cancelled)
              == if |buffer| < 4 then Refused(old(Views()), BufferTooSmall)
                 else UnplugStep(old(Views()), Le32At(buffer, 0), handle)
    {
      hide Valid, Views;
      if |buffer| < 4 {
        return BufferTooSmall, [], [];
      }
      status, done, cancelled := UnplugIndex(Le32At(buffer, 0), Some(handle));
    }

    /** VhidEvtFileCleanup: every slot is offered for unplugging, and only the owner's go. */
    method FileCleanup(handle: Handle) returns (done: seq<Completion>, cancelled: seq<XusbPipe.Transfer>)
      requires Valid()
      modifies Parts()
      ensures Valid()
      ensures Outcome(Views(), Success, 0, None, done, [], cancelled) == CloseFrom(old(Views()), 0, handle)
    {
      hide *;
      done, cancelled := [], [];
      var i := 0;
      CloseNothing(old(Views()), handle);
      while i < MAX_DEVICES
        invariant i <= MAX_DEVICES && Valid()
        invariant CloseFrom(old(Views()), 0, handle) == After(done, cancelled, CloseFrom(Views(), i, handle))
      {
        CloseUnrolled(Views(), i, handle, done, cancelled);
        var _, more, gone := UnplugIndex(i, Some(handle));
        done, cancelled := done + more, cancelled + gone;
        i := i + 1;
      }
      CloseEnds(Views(), handle, done, cancelled);
    }

    function SlotForRequest(index: nat, handle: Handle): (i: Option<nat>)
      requires Valid()
      reads Parts()
      ensures i == SlotFor(Views(), index, handle)
    {
      if index >= |slots| then None
      else
        var slot := slots[index];
        PartsOf(index);
        assert slot in slot.Parts();
        if !slot.used || !slot.started || slot.owner != Some(handle) then None else Some(index)
    }

    /** IOCTL_VHID_INPUT; `submitted` is what VhfReadReportSubmit answers. */
    method IoctlInput(handle: Handle, buffer: seq<byte>, submitted: Option<Failure>)
      returns (status: Status, information: nat, served: seq<XusbPipe.Served>)
      requires Valid()
      modifies Parts()
      ensures Valid()
      ensures Outcome(Views(), status, information, None, [], served, []) == InputStep(old(Views()), handle, buffer, submitted)
    {
      hide Valid, Views;
      hide ReadReportIn, VhidBus.TakeInput;
      information, served := 0, [];
      var request := ReadReportIn(buffer);
      if request.Err? {
        status := request.error;
        return;
      }
      var found := SlotForRequest(request.value.slot, handle);
      if found == None {
        status := NotConnected;
        return;
      }
      PartsOf(found.value);
      status, information, served := slots[found.value].TakeInput(request.value.report, submitted);
      OneSlot(found.value);
    }

    /** IOCTL_VHID_WAIT_OUTPUT; `forwarded` is what forwarding to the slot's queue answers. */
    method IoctlWaitOutput(handle: Handle, buffer: seq<byte>, w: Waiter, forwarded: Option<Failure>)
      returns (status: Status, done: seq<Completion>)
      requires Valid()
      modifies Parts()
      ensures Valid()
      ensures Outcome(Views(), status, 0, None, done, [], []) == WaitStep(old(Views()), handle, buffer, w, forwarded)
    {
      hide Valid, Views;
      done := [];
      if |buffer| < 4 || w.room < OUTPUT_HEADER {
        status := BufferTooSmall;
        return;
      }
      var found := SlotForRequest(Le32At(buffer, 0), handle);
      if found == None {
        status := NotConnected;
        return;
      }
      if forwarded.Some? {
        status := forwarded.value;
        return;
      }
      PartsOf(found.value);
      done := slots[found.value].PendWait(w);
      OneSlot(found.value);
      status := Pending;
    }

    /** IOCTL_VHID_SET_FEATURE. */
    method IoctlSetFeature(handle: Handle, buffer: seq<byte>) returns (status: Status)
      requires Valid()
      modifies Parts()
      ensures Valid()
      ensures Refused(Views(), status) == SetFeatureStep(old(Views()), handle, buffer)
    {
      hide Valid, Views, ReadReportIn;
      var request := ReadReportIn(buffer);
      if request.Err? {
        status := request.error;
        return;
      }
      var found := SlotForRequest(request.value.slot, handle);
      if found == None {
        status := NotConnected;
        return;
      }
      var slot := slots[found.value];
      if slot.kind == KIND_XUSB {
        status := NotSupported;
        return;
      }
      PartsOf(found.value);
      hide FeatureTables.ClientSet, SlotRecord.View, SlotRecord.Valid;
      var ok := slot.TakeClientFeature(request.value.report);
      OneSlot(found.value);
      status := if ok then Success else InsufficientResources;
    }

    /** VhidEvtWriteReport on a published node. */
    method EvtWriteReport(index: nat, data: seq<byte>) returns (done: seq<Completion>)
      requires Valid() && index < MAX_DEVICES && slots[index].vhf.Some?
      modifies Parts()
      ensures Valid()
      ensures Outcome(Views(), Success, 0, None, done, [], [])
              == DeliverStep(old(Views()), index, OUTPUT_KIND_REPORT, data)
    {
      hide Valid, Views;
      PartsOf(index);
      done := slots[index].DeliverOutput(OUTPUT_KIND_REPORT, data);
      OneSlot(index);
    }

    /** VhidEvtSetFeature on a published node: the table answers with it, and the client hears of it. */
    method EvtSetFeature(index: nat, id: byte, data: seq<byte>) returns (done: seq<Completion>)
      requires Valid() && index < MAX_DEVICES && slots[index].vhf.Some?
      modifies Parts()
      ensures Valid()
      ensures Outcome(Views(), Success, 0, None, done, [], []) == HostFeatureStep(old(Views()), index, id, data)
    {
      hide Valid, Views;
      hide Deliver, FeatureTables.HostSet;
      PartsOf(index);
      done := slots[index].TakeFeature(id, data);
      OneSlot(index);
    }

    /** An interrupt-out transfer of a child device: a lamp or rumble packet is passed on, any other dropped. */
    method EvtXusbOut(index: nat, data: seq<byte>) returns (done: seq<Completion>)
      requires Valid() && index < MAX_DEVICES && slots[index].pdo.Some?
      modifies Parts()
      ensures Valid()
      ensures Outcome(Views(), Success, 0, None, done, [], [])
              == match OutPacket(data)
                 case Some(packet) => DeliverStep(old(Views()), index, OUTPUT_KIND_REPORT, packet)
                 case None => Refused(old(Views()), Success)
    {
      hide Valid, Views;
      hide Deliver;
      var packet := None;
      if |data| >= 3 && data[0] == 0x01 && data[1] == 0x03 {
        packet := Some(data[..3]);
      } else if |data| >= XUSB_OUTPUT && data[0] == 0x00 && data[1] == 0x08 {
        packet := Some(data[..XUSB_OUTPUT]);
      }
      assert packet == OutPacket(data);
      hide OutPacket;
      done := [];
      if packet.Some? {
        PartsOf(index);
        done := slots[index].DeliverOutput(OUTPUT_KIND_REPORT, packet.value);
        OneSlot(index);
      }
    }

    /** An interrupt-in transfer of a child device. */
    method EvtXusbIn(index: nat, t: XusbPipe.Transfer, accepted: bool)
      returns (status: Status, served: seq<XusbPipe.Served>)
      requires Valid() && index < MAX_DEVICES && slots[index].pdo.Some?
      modifies Parts()
      ensures Valid()
      ensures Outcome(Views(), status, 0, None, [], served, [])
              == PipeStep(old(Views()), index, XusbPipe.InTransfer(t, accepted))
    {
      hide Valid, Views;
      hide XusbPipe.Apply, Piped, SlotRecord.View, SlotRecord.Valid;
      PartsOf(index);
      status, served := slots[index].TakeTransfer(t, accepted);
      OneSlot(index);
    }

    /** An abort of a child device's in pipe. */
    method EvtXusbAbort(index: nat) returns (cancelled: seq<XusbPipe.Transfer>)
      requires Valid() && index < MAX_DEVICES && slots[index].pdo.Some?
      modifies Parts()
      ensures Valid()
      ensures Outcome(Views(), Success, 0, None, [], [], cancelled) == PipeStep(old(Views()), index, XusbPipe.Abort)
    {
      hide Valid, Views;
      hide XusbPipe.Apply, Piped, SlotRecord.View, SlotRecord.Valid;
      PartsOf(index);
      cancelled := slots[index].TakeAbort();
      OneSlot(index);
    }
  }

  function After(done: seq<Completion>, cancelled: seq<XusbPipe.Transfer>, o: Outcome): Outcome {
    o.(done := done + o.done, cancelled := cancelled + o.cancelled)
  }

  lemma FreeSlotIsEmpty(bus: seq<Slot>, i: nat)
    requires VhidBus.Inv(bus) && i < |bus| && !bus[i].used
    ensures IsFree(bus[i])
  {
  }

  lemma CloseNothing(bus: seq<Slot>, handle: Handle)
    ensures After([], [], CloseFrom(bus, 0, handle)) == CloseFrom(bus, 0, handle)
  {
    var o := CloseFrom(bus, 0, handle);
    assert [] + o.done == o.done && [] + o.cancelled == o.cancelled;
  }

  lemma CloseUnrolled(bus: seq<Slot>, i: nat, handle: Handle, done: seq<Completion>, cancelled: seq<XusbPipe.Transfer>)
    requires i < |bus|
    ensures var now := UnplugStep(bus, i, handle);
            After(done, cancelled, CloseFrom(bus, i, handle))
            == After(done + now.done, cancelled + now.cancelled, CloseFrom(now.bus, i + 1, handle))
  {
    hide UnplugStep;
    var now := UnplugStep(bus, i, handle);
    var rest := CloseFrom(now.bus, i + 1, handle);
    assert done + (now.done + rest.done) == done + now.done + rest.done;
    assert cancelled + (now.cancelled + rest.cancelled) == cancelled + now.cancelled + rest.cancelled;
  }

  lemma CloseEnds(bus: seq<Slot>, handle: Handle, done: seq<Completion>, cancelled: seq<XusbPipe.Transfer>)
    ensures After(done, cancelled, CloseFrom(bus, |bus|, handle)) == Outcome(bus, Success, 0, None, done, [], cancelled)
  {
    assert done + [] == done && cancelled + [] == cancelled;
  }
}
