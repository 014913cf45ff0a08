/**
 * Output delivery of one Windows slot: a mailbox that keeps only the newest report,
 * and a queue of pended WAIT_OUTPUT requests. One step is one locked section of
 * VhidDeliverOutput or of the WAIT_OUTPUT case.
 */
module Delivery {
  import opened Common
  import opened Bytes
  import opened Wire

  /** A pended request: its identity and the length of its output buffer. */
  datatype Waiter = Waiter(id: nat, room: nat)

  datatype Completion = Completion(id: nat, status: Status, bytes: seq<byte>)

  datatype Mailbox = Mailbox(pending: bool, output: Report, waiters: seq<Waiter>)

  datatype Answer = Answer(box: Mailbox, done: seq<Completion>)

  /** The buffer the Rust client pends with: the header and the largest report. */
  const CLIENT_ROOM: nat := OUTPUT_HEADER + MAX_REPORT

  /** The front part of a report that fits the driver's buffer. */
  function Clamp(data: seq<byte>): (r: seq<byte>)
    ensures r <= data && |r| == if |data| < 512 then |data| else 512
  {
    if |data| > MAX_REPORT then data[..MAX_REPORT] else data
  }

  /** Retrieves the oldest waiter and completes it; the report stays pending unless it fitted. */
  function CompleteWaiter(m: Mailbox): Answer {
    if m.waiters == [] then Answer(m, [])
    else
      var w := m.waiters[0];
      var rest := m.(waiters := m.waiters[1..]);
      if w.room < OUTPUT_HEADER + |m.output.data| then
        Answer(rest, [Completion(w.id, BufferTooSmall, [])])
      else
        Answer(rest.(pending := false), [Completion(w.id, Success, OutputBytes(m.output))])
  }

  function Deliver(m: Mailbox, kind: byte, data: seq<byte>): Answer {
    CompleteWaiter(m.(pending := true, output := Report(kind, Clamp(data))))
  }

  /** The request joins the queue; a pending report completes the head of the queue. */
  function Wait(m: Mailbox, w: Waiter): Answer {
    var queued := m.(waiters := m.waiters + [w]);
    if m.pending then CompleteWaiter(queued) else Answer(queued, [])
  }

  // ---------------------------------------------------------------------------
  // Whole runs of one plug lifetime
  // ---------------------------------------------------------------------------

  datatype Event =
    | Delivered(kind: byte, data: seq<byte>)
    | Waited(waiter: Waiter)

  /** A mailbox with the history that led to it. */
  datatype History = History(
    box: Mailbox,
    delivered: seq<Report>,
    requested: seq<Waiter>,
    done: seq<Completion>)

  function Fresh(output: Report): History {
    History(Mailbox(false, output, []), [], [], [])
  }

  function Step(h: History, e: Event): History {
    match e
    case Delivered(kind, data) =>
      var a := Deliver(h.box, kind, data);
      History(a.box, h.delivered + [Report(kind, Clamp(data))], h.requested, h.done + a.done)
    case Waited(w) =>
      var a := Wait(h.box, w);
      History(a.box, h.delivered, h.requested + [w], h.done + a.done)
  }

  function Run(h: History, events: seq<Event>): History
    decreases |events|
  {
    if events == [] then h else Step(Run(h, DropLast(events)), Last(events))
  }

  /** The reports the client has read, in completion order, through its own parser. */
  function Received(done: seq<Completion>): seq<Option<Report>> {
    if done == [] then []
    else
      var before := Received(DropLast(done));
      if Last(done).status == Success then before + [ParseOutput(Last(done).bytes)] else before
  }

  function Sent(reports: seq<Report>): (s: seq<Option<Report>>)
    ensures |s| == |reports|
  {
    seq(|reports|, i requires 0 <= i < |reports| => Some(reports[i]))
  }

  function Ids(waiters: seq<Waiter>): (s: seq<nat>)
    ensures |s| == |waiters|
  {
    seq(|waiters|, i requires 0 <= i < |waiters| => waiters[i].id)
  }

  function CompletedIds(done: seq<Completion>): (s: seq<nat>)
    ensures |s| == |done|
  {
    seq(|done|, i requires 0 <= i < |done| => done[i].id)
  }

  /**
   * What every run keeps. While a report is pending it is the newest one and the client
   * has read from the older ones; otherwise the newest one is the last the client read.
   */
  ghost predicate Inv(h: History) {
    && (forall r :: r in h.delivered ==> |r.data| <= MAX_REPORT)
    && (h.box.pending ==>
          && h.delivered != []
          && h.box.output == Last(h.delivered)
          && Subsequence(Received(h.done), Sent(DropLast(h.delivered))))
    && (!h.box.pending ==>
          && Subsequence(Received(h.done), Sent(h.delivered))
          && (h.delivered != [] ==> Received(h.done) != [] && Last(Received(h.done)) == Some(Last(h.delivered))))
    && CompletedIds(h.done) + Ids(h.box.waiters) == Ids(h.requested)
    && (forall w :: w in h.box.waiters ==> w in h.requested)
  }

  lemma ReceivedSnoc(done: seq<Completion>, c: Completion)
    ensures Received(done + [c])
            == if c.status == Success then Received(done) + [ParseOutput(c.bytes)] else Received(done)
  {
    assert DropLast(done + [c]) == done;
  }

  lemma CompleteKeepsIds(m: Mailbox, before: seq<Completion>)
    ensures var a := CompleteWaiter(m);
            && CompletedIds(before + a.done) + Ids(a.box.waiters) == CompletedIds(before) + Ids(m.waiters)
            && forall w :: w in a.box.waiters ==> w in m.waiters
  {
    var a := CompleteWaiter(m);
    if m.waiters == [] {
      assert before + a.done == before;
    } else {
      assert CompletedIds(before + a.done) == CompletedIds(before) + [m.waiters[0].id];
      assert Ids(m.waiters) == [m.waiters[0].id] + Ids(a.box.waiters);
    }
  }

  /** The newest report, pending beside older ones read, goes to one waiter or stays. */
  lemma CompleteReadsNewest(m: Mailbox, before: seq<Completion>, delivered: seq<Report>)
    requires m.pending && delivered != [] && m.output == Last(delivered) && |m.output.data| <= MAX_REPORT
    requires Subsequence(Received(before), Sent(DropLast(delivered)))
    ensures var a := CompleteWaiter(m);
            var received := Received(before + a.done);
            && a.box.output == m.output
            && (a.box.pending ==> Subsequence(received, Sent(DropLast(delivered))))
            && (!a.box.pending ==>
                  Subsequence(received, Sent(delivered)) && received != [] && Last(received) == Some(Last(delivered)))
  {
    hide OutputBytes, ParseOutput, Received, Sent, Subsequence;
    var a := CompleteWaiter(m);
    if m.waiters == [] {
      assert before + a.done == before;
    } else {
      ReceivedSnoc(before, a.done[0]);
      if a.done[0].status == Success {
        OutputRoundTrip(m.output, []);
        assert OutputBytes(m.output) + [] == OutputBytes(m.output);
        SubsequenceTakesNext(Received(before), Sent(DropLast(delivered)), Some(m.output));
        SentSnoc(delivered);
      }
    }
  }

  lemma SentSnoc(delivered: seq<Report>)
    requires delivered != []
    ensures Sent(delivered) == Sent(DropLast(delivered)) + [Some(Last(delivered))]
  {
  }

  /** Completing one waiter of a pending report keeps the history right. */
  lemma CompleteKeepsInv(h: History)
    requires Inv(h) && h.box.pending
    ensures var a := CompleteWaiter(h.box); Inv(h.(box := a.box, done := h.done + a.done))
  {
    hide CompleteWaiter, Received, Sent, Ids, CompletedIds, Subsequence;
    CompleteKeepsIds(h.box, h.done);
    assert Last(h.delivered) in h.delivered;
    CompleteReadsNewest(h.box, h.done, h.delivered);
  }

  lemma DeliverKeepsInv(h: History, kind: byte, data: seq<byte>)
    requires Inv(h)
    ensures Inv(Step(h, Delivered(kind, data)))
  {
    var r := Report(kind, Clamp(data));
    var after := h.(box := h.box.(pending := true, output := r), delivered := h.delivered + [r]);
    assert DropLast(after.delivered) == h.delivered;
    if h.box.pending {
      SubsequenceOfLonger(Received(h.done), Sent(DropLast(h.delivered)), [Some(Last(h.delivered))]);
      SentSnoc(h.delivered);
    }
    CompleteKeepsInv(after);
  }

  lemma WaitKeepsInv(h: History, w: Waiter)
    requires Inv(h)
    ensures Inv(Step(h, Waited(w)))
  {
    var after := h.(box := h.box.(waiters := h.box.waiters + [w]), requested := h.requested + [w]);
    assert Ids(after.box.waiters) == Ids(h.box.waiters) + [w.id];
    assert Ids(after.requested) == Ids(h.requested) + [w.id];
    assert CompletedIds(h.done) + Ids(after.box.waiters) == Ids(after.requested);
    if h.box.pending {
      CompleteKeepsInv(after);
    } else {
      assert after.done == h.done;
      assert Step(h, Waited(w)).done == h.done;
    }
  }

  lemma {:induction false} RunKeepsInv(output: Report, events: seq<Event>)
    ensures Inv(Run(Fresh(output), events))
    decreases |events|
  {
    if events == [] {
      EmptySubsequence(Sent([]));
      assert Received([]) == [];
      assert Sent([]) == [];
    } else {
      RunKeepsInv(output, DropLast(events));
      var h := Run(Fresh(output), DropLast(events));
      match Last(events)
      case Delivered(kind, data) => DeliverKeepsInv(h, kind, data);
      case Waited(w) => WaitKeepsInv(h, w);
    }
  }

  /**
   * Over every run: what the client reads is an in-order, at-most-once choice of the
   * delivered reports, and the newest report is either still pending or the last one read.
   */
  lemma NewestReportIsNeverLost(output: Report, events: seq<Event>)
    ensures var h := Run(Fresh(output), events);
            && Subsequence(Received(h.done), Sent(h.delivered))
            && (h.delivered != [] ==>
                  if h.box.pending then h.box.output == Last(h.delivered)
                  else Received(h.done) != [] && Last(Received(h.done)) == Some(Last(h.delivered)))
  {
    RunKeepsInv(output, events);
    var h := Run(Fresh(output), events);
    if h.box.pending {
      SubsequenceOfLonger(Received(h.done), Sent(DropLast(h.delivered)), [Some(Last(h.delivered))]);
      SentSnoc(h.delivered);
    }
  }

  /** Over every run: requests complete in the order they came, each one once, and the rest are still queued. */
  lemma EveryWaitIsQueuedOrCompletedOnce(output: Report, events: seq<Event>)
    ensures var h := Run(Fresh(output), events);
            CompletedIds(h.done) + Ids(h.box.waiters) == Ids(h.requested)
  {
    RunKeepsInv(output, events);
  }

  /** The reports a run delivers, as they are stored. */
  function Reports(events: seq<Event>): seq<Report>
    decreases |events|
  {
    if events == [] then []
    else
      Reports(DropLast(events))
      + match Last(events) case Delivered(kind, data) => [Report(kind, Clamp(data))] case Waited(_) => []
  }

  /** The waits a run pends. */
  function Waits(events: seq<Event>): seq<Waiter>
    decreases |events|
  {
    if events == [] then []
    else Waits(DropLast(events)) + match Last(events) case Delivered(_, _) => [] case Waited(w) => [w]
  }

  lemma {:induction false} RunLogs(output: Report, events: seq<Event>)
    ensures Run(Fresh(output), events).delivered == Reports(events)
    ensures Run(Fresh(output), events).requested == Waits(events)
    decreases |events|
  {
    if events != [] {
      hide Deliver, Wait;
      RunLogs(output, DropLast(events));
    }
  }

  lemma {:induction false} RunAppends(h: History, a: seq<Event>, b: seq<Event>)
    ensures Run(h, a + b) == Run(Run(h, a), b)
    decreases |b|
  {
    if b == [] {
      assert a + b == a;
    } else {
      hide Step;
      RunAppends(h, a, DropLast(b));
      assert DropLast(a + b) == a + DropLast(b);
    }
  }

  predicate ClientSized(events: seq<Event>) {
    forall e :: e in events && e.Waited? ==> e.waiter.room >= CLIENT_ROOM
  }

  lemma {:induction false} ClientRunKeeps(output: Report, events: seq<Event>)
    requires |output.data| <= MAX_REPORT
    requires ClientSized(events)
    ensures var h := Run(Fresh(output), events);
            && |h.box.output.data| <= MAX_REPORT
            && (forall w :: w in h.box.waiters ==> w.room >= CLIENT_ROOM)
            && (forall c :: c in h.done ==> c.status == Success)
            && !(h.box.pending && h.box.waiters != [])
    decreases |events|
  {
    if events != [] {
      ClientRunKeeps(output, DropLast(events));
      assert Last(events) in events;
    }
  }

  /** With the client's own buffers no wait fails, and a pending report and a queued wait never coexist. */
  lemma ClientSizedWaitsNeverStarve(output: Report, events: seq<Event>)
    requires |output.data| <= MAX_REPORT
    requires ClientSized(events)
    ensures var h := Run(Fresh(output), events);
            && !(h.box.pending && h.box.waiters != [])
            && (forall c :: c in h.done ==> c.status == Success)
  {
    ClientRunKeeps(output, events);
  }

  /** The queue is the rest of the requests, and how the last completed wait and the newest report stand. */
  ghost predicate QueueInv(h: History) {
    var n := |h.done|;
    && n <= |h.requested| && h.box.waiters == h.requested[n..]
    && (h.delivered != [] ==> h.box.output == Last(h.delivered))
    && (h.delivered == [] ==> !h.box.pending && n == 0)
    && (!h.box.pending && n > 0 ==> h.requested[n - 1].room >= OUTPUT_HEADER + |h.box.output.data|)
    && (h.box.pending && h.box.waiters != [] ==>
          n > 0 && h.requested[n - 1].room < OUTPUT_HEADER + |h.box.output.data|)
  }

  lemma DeliverKeepsQueueInv(h: History, kind: byte, data: seq<byte>)
    requires QueueInv(h)
    ensures QueueInv(Step(h, Delivered(kind, data)))
  {
    hide OutputBytes, Clamp;
    var n := |h.done|;
    if h.box.waiters != [] {
      assert h.requested[n..][1..] == h.requested[n + 1..];
    }
  }

  lemma WaitKeepsQueueInv(h: History, w: Waiter)
    requires QueueInv(h)
    ensures QueueInv(Step(h, Waited(w)))
  {
    hide OutputBytes;
    var n := |h.done|;
    var requested := h.requested + [w];
    assert requested[n..] == h.requested[n..] + [w];
    assert requested[n..][1..] == requested[n + 1..];
  }

  lemma {:induction false} RunKeepsQueueInv(output: Report, events: seq<Event>)
    ensures QueueInv(Run(Fresh(output), events))
    decreases |events|
  {
    if events == [] {
      assert QueueInv(Fresh(output));
    } else {
      hide Step, QueueInv;
      RunKeepsQueueInv(output, DropLast(events));
      var h := Run(Fresh(output), DropLast(events));
      match Last(events)
      case Delivered(kind, data) => DeliverKeepsQueueInv(h, kind, data);
      case Waited(w) => WaitKeepsQueueInv(h, w);
    }
  }

  /**
   * Why the client's size matters: after any run a pending report stands beside a queued wait
   * if and only if a wait is queued and the one completed last had no room for the newest report.
   */
  lemma WaitsStarveExactly(output: Report, events: seq<Event>)
    ensures var h := Run(Fresh(output), events);
            h.box.pending && h.box.waiters != []
            <==> && 0 < |h.done| < |h.requested| && h.delivered != []
                 && h.requested[|h.done| - 1].room < OUTPUT_HEADER + |Last(h.delivered).data|
  {
    RunKeepsQueueInv(output, events);
  }
}
