/**
 * The interrupt-in pipe of the Xbox 360 device an XUSB slot publishes. Two callers meet
 * here: xusb22, whose transfers first drain six boot packets, and the bus client, whose
 * newest input is either handed to a pended transfer or kept fresh for the next one.
 */
module XusbPipe {
  import opened Common
  import opened Bytes
  import opened Wire

  type Packet = seq<byte>

  const INPUT_LENGTH: nat := 20

  const BOOT_STAGES: nat := 6

  const BOOT: seq<Packet> := [
    [0x01, 0x03, 0x0E],
    [0x02, 0x03, 0x00],
    [0x03, 0x03, 0x03],
    [0x08, 0x03, 0x00],
    [0x00, 0x14, 0x00, 0x00, 0x00, 0x00, 0xE4, 0xF2, 0xB3, 0xF8, 0x49, 0xF3, 0xB0, 0xFC, 0x00, 0x00, 0x00, 0x00, 0x00, 0x00],
    [0x01, 0x03, 0x03]
  ]

  /** An in transfer: its identity and the bytes its buffer takes, none when it cannot be mapped. */
  datatype Transfer = Transfer(id: nat, room: nat)

  datatype Pipe = Pipe(stage: nat, inputFresh: bool, input: Packet, pendingIn: seq<Transfer>)

  /** A transfer filled from a packet. */
  datatype Served = Served(transfer: Transfer, packet: Packet)

  /** The bytes the transfer's buffer ends up with. */
  function CopyOut(s: Served): (b: seq<byte>)
    ensures |b| <= |s.packet| && b == s.packet[..|b|]
    ensures |b| == |s.packet| <==> s.transfer.room >= |s.packet|
  {
    if |s.packet| <= s.transfer.room then s.packet else s.packet[..s.transfer.room]
  }

  datatype Answer = Answer(pipe: Pipe, status: Status, served: seq<Served>, cancelled: seq<Transfer>)

  function TransferIn(p: Pipe, t: Transfer, forwarded: bool): Answer {
    if p.stage < BOOT_STAGES then Answer(p.(stage := p.stage + 1), Success, [Served(t, BOOT[p.stage])], [])
    else if p.inputFresh then Answer(p.(inputFresh := false), Success, [Served(t, p.input)], [])
    else if forwarded then Answer(p.(pendingIn := p.pendingIn + [t]), Pending, [], [])
    else Answer(p, InvalidRequest, [], [])
  }

  /** A client's input; a transfer already waiting takes it, otherwise it stays fresh. */
  function SubmitInput(p: Pipe, data: seq<byte>): Answer {
    if |data| != INPUT_LENGTH then Answer(p, InvalidParameter, [], [])
    else if p.pendingIn != [] then
      Answer(p.(input := data, pendingIn := p.pendingIn[1..], inputFresh := false), Success, [Served(p.pendingIn[0], data)], [])
    else Answer(p.(input := data, inputFresh := true), Success, [], [])
  }

  function AbortPipe(p: Pipe): Answer {
    Answer(p.(pendingIn := []), Success, [], p.pendingIn)
  }

  // ---------------------------------------------------------------------------
  // Whole runs
  // ---------------------------------------------------------------------------

  datatype Event =
    | InTransfer(transfer: Transfer, forwarded: bool)
    | Submit(data: seq<byte>)
    | Abort

  datatype History = History(
    pipe: Pipe,
    submitted: seq<Packet>,
    requested: seq<Transfer>,
    served: seq<Served>,
    cancelled: seq<Transfer>,
    refused: seq<Transfer>)

  const BLANK: Packet := [0, 0, 0, 0, 0, 0, 0, 0, 0, 0, 0, 0, 0, 0, 0, 0, 0, 0, 0, 0]

  const PLUGGED := History(Pipe(0, false, BLANK, []), [], [], [], [], [])

  function Apply(p: Pipe, e: Event): Answer {
    match e
    case InTransfer(t, forwarded) => TransferIn(p, t, forwarded)
    case Submit(data) => SubmitInput(p, data)
    case Abort => AbortPipe(p)
  }

  function Step(h: History, e: Event): History {
    var a := Apply(h.pipe, e);
    History(
      a.pipe,
      if e.Submit? && a.status == Success then h.submitted + [e.data] else h.submitted,
      if e.InTransfer? then h.requested + [e.transfer] else h.requested,
      h.served + a.served,
      h.cancelled + a.cancelled,
      if e.InTransfer? && a.status == InvalidRequest then h.refused + [e.transfer] else h.refused)
  }

  function Run(events: seq<Event>): History
    decreases |events|
  {
    if events == [] then PLUGGED else Step(Run(DropLast(events)), Last(events))
  }

  /** A run that starts from any history. */
  function StepAll(h: History, events: seq<Event>): History
    decreases |events|
  {
    if events == [] then h else Step(StepAll(h, DropLast(events)), Last(events))
  }

  lemma {:induction false} RunAppends(a: seq<Event>, b: seq<Event>)
    ensures Run(a + b) == StepAll(Run(a), b)
    decreases |b|
  {
    hide Step;
    if b == [] {
      assert a + b == a;
    } else {
      RunAppends(a, DropLast(b));
      assert DropLast(a + b) == a + DropLast(b) && Last(a + b) == Last(b);
    }
  }

  /** The inputs a run's submits are accepted with. */
  function Inputs(events: seq<Event>): seq<Packet>
    decreases |events|
  {
    if events == [] then []
    else
      Inputs(DropLast(events))
      + if Last(events).Submit? && |Last(events).data| == INPUT_LENGTH then [Last(events).data] else []
  }

  /** The transfers a run's host asks for. */
  function Requests(events: seq<Event>): seq<Transfer>
    decreases |events|
  {
    if events == [] then []
    else Requests(DropLast(events)) + if Last(events).InTransfer? then [Last(events).transfer] else []
  }

  lemma {:induction false} RunLogs(events: seq<Event>)
    ensures Run(events).submitted == Inputs(events) && Run(events).requested == Requests(events)
    decreases |events|
  {
    if events != [] {
      hide TransferIn;
      RunLogs(DropLast(events));
    }
  }

  function Packets(served: seq<Served>): (s: seq<Packet>)
    ensures |s| == |served|
  {
    seq(|served|, i requires 0 <= i < |served| => served[i].packet)
  }

  function Transfers(served: seq<Served>): (s: seq<Transfer>)
    ensures |s| == |served|
  {
    seq(|served|, i requires 0 <= i < |served| => served[i].transfer)
  }

  /** The packets served after the boot packets. */
  function Streamed(packets: seq<Packet>): seq<Packet> {
    if |packets| <= BOOT_STAGES then [] else packets[BOOT_STAGES..]
  }

  /** The stage counts the boot packets served, and they are the first ones. */
  ghost predicate Booting(stage: nat, packets: seq<Packet>) {
    && stage == (if |packets| < BOOT_STAGES then |packets| else BOOT_STAGES)
    && packets[..stage] == BOOT[..stage]
  }

  /** A fresh input is the newest one and unserved; without one, the newest has been served last. */
  ghost predicate Flowing(inputFresh: bool, input: Packet, streamed: seq<Packet>, submitted: seq<Packet>) {
    && (submitted != [] ==> input == Last(submitted))
    && (inputFresh ==> submitted != [] && Subsequence(streamed, DropLast(submitted)))
    && (!inputFresh ==>
          && Subsequence(streamed, submitted)
          && (submitted != [] ==> streamed != [] && Last(streamed) == Last(submitted)))
  }

  /** The joint invariant of the two callers. */
  ghost predicate Inv(h: History) {
    && Booting(h.pipe.stage, Packets(h.served))
    && (h.pipe.pendingIn != [] ==> h.pipe.stage == BOOT_STAGES && !h.pipe.inputFresh)
    && Flowing(h.pipe.inputFresh, h.pipe.input, Streamed(Packets(h.served)), h.submitted)
  }

  /** Every transfer is served, pended, cancelled or refused, and only once. */
  ghost predicate Accounted(h: History) {
    multiset(h.requested)
    == multiset(Transfers(h.served)) + multiset(h.pipe.pendingIn) + multiset(h.cancelled) + multiset(h.refused)
  }

  lemma PacketsSnoc(served: seq<Served>, s: Served)
    ensures Packets(served + [s]) == Packets(served) + [s.packet]
    ensures Transfers(served + [s]) == Transfers(served) + [s.transfer]
  {
  }

  lemma BootServesNext(stage: nat, packets: seq<Packet>)
    requires Booting(stage, packets) && stage < BOOT_STAGES
    ensures Booting(stage + 1, packets + [BOOT[stage]])
    ensures Streamed(packets + [BOOT[stage]]) == Streamed(packets) == []
  {
    assert BOOT[..stage + 1] == BOOT[..stage] + [BOOT[stage]];
    assert packets == packets[..stage];
  }

  lemma StreamServesNext(packets: seq<Packet>, next: Packet)
    requires Booting(BOOT_STAGES, packets)
    ensures Booting(BOOT_STAGES, packets + [next])
    ensures Streamed(packets + [next]) == Streamed(packets) + [next]
  {
    assert (packets + [next])[..BOOT_STAGES] == packets[..BOOT_STAGES];
  }

  /** Whatever the flow so far, a submitted input makes every earlier pick a pick among the older inputs. */
  lemma FlowIsAPick(inputFresh: bool, input: Packet, streamed: seq<Packet>, submitted: seq<Packet>)
    requires Flowing(inputFresh, input, streamed, submitted)
    ensures Subsequence(streamed, submitted)
  {
    if inputFresh {
      SubsequenceOfLonger(streamed, DropLast(submitted), [Last(submitted)]);
      assert submitted == DropLast(submitted) + [Last(submitted)];
    }
  }

  lemma FreshIsServed(input: Packet, streamed: seq<Packet>, submitted: seq<Packet>)
    requires Flowing(true, input, streamed, submitted)
    ensures Flowing(false, input, streamed + [input], submitted)
  {
    SubsequenceTakesNext(streamed, DropLast(submitted), input);
    assert submitted == DropLast(submitted) + [input];
  }

  lemma TransferKeepsInv(h: History, t: Transfer, forwarded: bool)
    requires Inv(h)
    ensures Inv(Step(h, InTransfer(t, forwarded)))
  {
    hide Booting, Flowing, Packets, Streamed;
    var p := h.pipe;
    var after := Step(h, InTransfer(t, forwarded));
    if p.stage < BOOT_STAGES {
      PacketsSnoc(h.served, Served(t, BOOT[p.stage]));
      BootServesNext(p.stage, Packets(h.served));
    } else if p.inputFresh {
      StageIsAtMostSix(p.stage, Packets(h.served));
      PacketsSnoc(h.served, Served(t, p.input));
      StreamServesNext(Packets(h.served), p.input);
      FreshIsServed(p.input, Streamed(Packets(h.served)), h.submitted);
    } else {
      StageIsAtMostSix(p.stage, Packets(h.served));
      assert after.served == h.served;
    }
  }

  lemma StageIsAtMostSix(stage: nat, packets: seq<Packet>)
    requires Booting(stage, packets)
    ensures stage <= BOOT_STAGES
  {
  }

  lemma SubmitKeepsInv(h: History, data: seq<byte>)
    requires Inv(h)
    ensures Inv(Step(h, Submit(data)))
  {
    hide Booting, Packets, Streamed, Subsequence;
    var p := h.pipe;
    var after := Step(h, Submit(data));
    if |data| != INPUT_LENGTH {
      assert after.served == h.served;
      return;
    }
    assert DropLast(after.submitted) == h.submitted;
    var streamed := Streamed(Packets(h.served));
    FlowIsAPick(p.inputFresh, p.input, streamed, h.submitted);
    if p.pendingIn != [] {
      PacketsSnoc(h.served, Served(p.pendingIn[0], data));
      StreamServesNext(Packets(h.served), data);
      SubsequenceTakesNext(streamed, h.submitted, data);
    } else {
      assert after.served == h.served;
    }
  }

  lemma TransferKeepsAccounts(h: History, t: Transfer, forwarded: bool)
    requires Accounted(h)
    ensures Accounted(Step(h, InTransfer(t, forwarded)))
  {
    var a := TransferIn(h.pipe, t, forwarded);
    assert h.cancelled + [] == h.cancelled;
    if a.served == [] {
      assert h.served + [] == h.served;
    } else {
      PacketsSnoc(h.served, a.served[0]);
      assert a.served == [a.served[0]];
    }
  }

  lemma SubmitKeepsAccounts(h: History, data: seq<byte>)
    requires Accounted(h)
    ensures Accounted(Step(h, Submit(data)))
  {
    var a := SubmitInput(h.pipe, data);
    assert h.cancelled + [] == h.cancelled;
    if a.served == [] {
      assert h.served + [] == h.served;
    } else {
      PacketsSnoc(h.served, a.served[0]);
      assert h.pipe.pendingIn == [h.pipe.pendingIn[0]] + a.pipe.pendingIn;
    }
  }

  lemma AbortKeepsBoth(h: History)
    requires Inv(h) && Accounted(h)
    ensures Inv(Step(h, Abort)) && Accounted(Step(h, Abort))
  {
    assert h.served + [] == h.served;
  }

  lemma {:induction false} RunKeepsInv(events: seq<Event>)
    ensures Inv(Run(events)) && Accounted(Run(events))
    decreases |events|
  {
    if events == [] {
      EmptySubsequence(PLUGGED.submitted);
      assert Packets([]) == [];
      assert Transfers([]) == [];
    } else {
      hide Inv, Accounted;
      var h := Run(DropLast(events));
      RunKeepsInv(DropLast(events));
      match Last(events)
      case InTransfer(t, forwarded) =>
        TransferKeepsInv(h, t, forwarded);
        TransferKeepsAccounts(h, t, forwarded);
      case Submit(data) =>
        SubmitKeepsInv(h, data);
        SubmitKeepsAccounts(h, data);
      case Abort => AbortKeepsBoth(h);
    }
  }

  /** Over every run, the pad's host reads the boot packets in order and only then inputs, in order and at most once. */
  lemma BootThenInputsInOrder(events: seq<Event>)
    ensures var packets := Packets(Run(events).served);
            && (|packets| <= BOOT_STAGES ==> packets == BOOT[..|packets|])
            && (|packets| > BOOT_STAGES ==>
                  packets[..BOOT_STAGES] == BOOT && Subsequence(packets[BOOT_STAGES..], Run(events).submitted))
  {
    RunKeepsInv(events);
    var h := Run(events);
    var packets := Packets(h.served);
    hide Packets, Run, Subsequence;
    assert BOOT[..BOOT_STAGES] == BOOT;
    FlowIsAPick(h.pipe.inputFresh, h.pipe.input, Streamed(packets), h.submitted);
    if |packets| <= BOOT_STAGES {
      assert packets[..|packets|] == packets;
    }
  }

  /** A transfer waits only when the boot is over and no input is fresh. */
  lemma PendedMeansBootedAndStale(events: seq<Event>)
    ensures var p := Run(events).pipe;
            p.pendingIn != [] ==> p.stage == BOOT_STAGES && !p.inputFresh
  {
    RunKeepsInv(events);
  }

  /** The newest input is the last packet served, or is fresh and will be the next one after the boot. */
  lemma NewestInputIsServedOrFresh(events: seq<Event>)
    ensures var h := Run(events);
            h.submitted != [] ==>
              && h.pipe.input == Last(h.submitted)
              && (!h.pipe.inputFresh ==> h.served != [] && Last(Packets(h.served)) == Last(h.submitted))
  {
    RunKeepsInv(events);
  }

  lemma EveryTransferIsAccounted(events: seq<Event>)
    ensures Accounted(Run(events))
  {
    RunKeepsInv(events);
  }

  // ---------------------------------------------------------------------------
  // First come, first served
  // ---------------------------------------------------------------------------

  /** The served transfers, and after them the waiting ones, in the order they were asked for. */
  ghost predicate InTurn(h: History) {
    Subsequence(Transfers(h.served) + h.pipe.pendingIn, h.requested)
  }

  lemma TransferKeepsTurn(h: History, t: Transfer, forwarded: bool)
    requires InTurn(h) && (h.pipe.pendingIn != [] ==> h.pipe.stage == BOOT_STAGES && !h.pipe.inputFresh)
    ensures InTurn(Step(h, InTransfer(t, forwarded)))
  {
    var after := Step(h, InTransfer(t, forwarded));
    var before := Transfers(h.served) + h.pipe.pendingIn;
    if after.pipe.pendingIn != h.pipe.pendingIn {
      assert h.served + [] == h.served;
      assert before + [t] == Transfers(h.served) + (h.pipe.pendingIn + [t]);
      SubsequenceTakesNext(before, h.requested, t);
    } else if after.served == h.served {
      SubsequenceOfLonger(before, h.requested, [t]);
    } else {
      var s := Last(after.served);
      PacketsSnoc(h.served, s);
      assert s.transfer == t && h.pipe.pendingIn == [];
      assert before == Transfers(h.served) && Transfers(after.served) + [] == before + [t];
      SubsequenceTakesNext(before, h.requested, t);
    }
  }

  lemma SubmitKeepsTurn(h: History, data: seq<byte>)
    requires InTurn(h)
    ensures InTurn(Step(h, Submit(data)))
  {
    var p, after := h.pipe, Step(h, Submit(data));
    if |data| == INPUT_LENGTH && p.pendingIn != [] {
      PacketsSnoc(h.served, Served(p.pendingIn[0], data));
      assert p.pendingIn == [p.pendingIn[0]] + p.pendingIn[1..];
      assert Transfers(after.served) + after.pipe.pendingIn == Transfers(h.served) + p.pendingIn;
    } else {
      assert h.served + [] == h.served;
    }
  }

  lemma AbortKeepsTurn(h: History)
    requires InTurn(h)
    ensures InTurn(Step(h, Abort))
  {
    assert h.served + [] == h.served;
    SubsequenceOfFront(Transfers(h.served), h.pipe.pendingIn, h.requested);
    assert Transfers(h.served) + [] == Transfers(h.served);
  }

  /** Over every run, transfers are served in the order they were asked for, and those waiting are all younger. */
  lemma {:induction false} TransfersAreServedInOrder(events: seq<Event>)
    ensures Subsequence(Transfers(Run(events).served) + Run(events).pipe.pendingIn, Run(events).requested)
    decreases |events|
  {
    if events == [] {
      EmptySubsequence<Transfer>([]);
      assert Transfers([]) + [] == [];
    } else {
      hide Step, Subsequence;
      var h := Run(DropLast(events));
      TransfersAreServedInOrder(DropLast(events));
      PendedMeansBootedAndStale(DropLast(events));
      match Last(events)
      case InTransfer(t, forwarded) => TransferKeepsTurn(h, t, forwarded);
      case Submit(data) => SubmitKeepsTurn(h, data);
      case Abort => AbortKeepsTurn(h);
    }
  }

  /** A transfer that asks right after an input, once booted, gets exactly that input. */
  lemma InputReachesNextTransfer(events: seq<Event>, data: seq<byte>, t: Transfer, forwarded: bool)
    requires |data| == INPUT_LENGTH && t.room >= INPUT_LENGTH
    requires Run(events).pipe.stage == BOOT_STAGES && Run(events).pipe.pendingIn == []
    ensures var h := Step(Step(Run(events), Submit(data)), InTransfer(t, forwarded));
            h.served != [] && Last(h.served) == Served(t, data) && CopyOut(Last(h.served)) == data
  {
  }

  // ---------------------------------------------------------------------------
  // The device in place
  // ---------------------------------------------------------------------------

  class PdoContext {
    var stage: nat
    var inputFresh: bool
    const input: array<byte>
    var pendingIn: seq<Transfer>

    ghost predicate Valid()
      reads this, input
    {
      input.Length == INPUT_LENGTH && stage <= BOOT_STAGES
    }

    ghost function View(): Pipe
      reads this, input
    {
      Pipe(stage, inputFresh, input[..], pendingIn)
    }

    constructor ()
      ensures Valid() && View() == PLUGGED.pipe && fresh(input)
    {
      stage, inputFresh, pendingIn := 0, false, [];
      input := new byte[INPUT_LENGTH](_ => 0);
      new;
      assert input[..] == PLUGGED.pipe.input;
    }

    /** A new child device starts with a zeroed context. */
    method Reset()
      requires Valid()
      modifies this, input
      ensures Valid() && View() == PLUGGED.pipe
    {
      stage, inputFresh, pendingIn := 0, false, [];
      forall i | 0 <= i < INPUT_LENGTH {
        input[i] := 0;
      }
      assert input[..] == BLANK;
    }

    method InterruptTransfer(t: Transfer, forwarded: bool) returns (status: Status, served: seq<Served>)
      requires Valid()
      modifies this
      ensures Valid()
      ensures Answer(View(), status, served, []) == TransferIn(old(View()), t, forwarded)
    {
      served := [];
      if stage < BOOT_STAGES {
        served := [Served(t, BOOT[stage])];
        stage := stage + 1;
        status := Success;
      } else if inputFresh {
        served := [Served(t, input[..])];
        inputFresh := false;
        status := Success;
      } else if forwarded {
        pendingIn := pendingIn + [t];
        status := Pending;
      } else {
        status := InvalidRequest;
      }
    }

    method Submit(data: seq<byte>) returns (status: Status, served: seq<Served>)
      requires Valid()
      modifies this, input
      ensures Valid()
      ensures Answer(View(), status, served, []) == SubmitInput(old(View()), data)
    {
      served := [];
      if |data| != INPUT_LENGTH {
        return InvalidParameter, [];
      }
      forall i | 0 <= i < INPUT_LENGTH {
        input[i] := data[i];
      }
      assert input[..] == data;
      if pendingIn != [] {
        served := [Served(pendingIn[0], input[..])];
        pendingIn := pendingIn[1..];
        inputFresh := false;
      } else {
        inputFresh := true;
      }
      status := Success;
    }

    method Abort() returns (cancelled: seq<Transfer>)
      requires Valid()
      modifies this
      ensures Valid()
      ensures Answer(View(), Success, [], cancelled) == AbortPipe(old(View()))
    {
      cancelled := pendingIn;
      pendingIn := [];
    }
  }
}
