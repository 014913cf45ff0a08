/**
 * The output queue of one macOS node: an array of eight entries with a head index and a
 * count, wrapped by remainder, whose push drops the oldest entry when it is full.
 */
module MacOutputRing {
  import opened Common
  import opened Bytes
  import opened Wire
  import Delivery

  const OUTPUT_QUEUE: nat := 8

  // ---------------------------------------------------------------------------
  // The queue the ring stands for
  // ---------------------------------------------------------------------------

  function Push(q: seq<Report>, r: Report): (after: seq<Report>)
    ensures |q| <= OUTPUT_QUEUE ==> |after| <= OUTPUT_QUEUE
  {
    if |q| == OUTPUT_QUEUE then q[1..] + [r] else q + [r]
  }

  /** The oldest report cut to the caller's room, or the empty report of the poll's default kind. */
  function Oldest(q: seq<Report>, room: nat): Report {
    if q == [] then Report(OUTPUT_KIND_REPORT, [])
    else Report(q[0].kind, if |q[0].data| < room then q[0].data else q[0].data[..room])
  }

  function Rest(q: seq<Report>): seq<Report> {
    if q == [] then [] else q[1..]
  }

  datatype Event =
    | SetReport(report: Report)
    | Poll(room: nat)

  /** The queue with everything written to it, taken from it, and overwritten in it. */
  datatype History = History(queue: seq<Report>, written: seq<Report>, taken: seq<Report>, dropped: nat)

  const EMPTY := History([], [], [], 0)

  /** The reports a run writes, as they are stored. */
  function Writes(events: seq<Event>): seq<Report>
    decreases |events|
  {
    if events == [] then []
    else
      Writes(DropLast(events))
      + match Last(events) case SetReport(r) => [Report(r.kind, Delivery.Clamp(r.data))] case Poll(_) => []
  }

  function Step(h: History, e: Event): History {
    match e
    case SetReport(r) =>
      var stored := Report(r.kind, Delivery.Clamp(r.data));
      History(Push(h.queue, stored), h.written + [stored], h.taken, if |h.queue| == OUTPUT_QUEUE then h.dropped + 1 else h.dropped)
    case Poll(room) =>
      History(Rest(h.queue), h.written, if h.queue == [] then h.taken else h.taken + [h.queue[0]], h.dropped)
  }

  function Run(events: seq<Event>): History
    decreases |events|
  {
    if events == [] then EMPTY else Step(Run(DropLast(events)), Last(events))
  }

  /** A run that starts from any history. */
  function StepAll(h: History, events: seq<Event>): History
    decreases |events|
  {
    if events == [] then h else Step(StepAll(h, DropLast(events)), Last(events))
  }

  lemma {:induction false} RunAppends(a: seq<Event>, b: seq<Event>)
    ensures Run(a + b) == StepAll(Run(a), b)
    decreases |b|
  {
    hide Step, Push, Rest;
    if b == [] {
      assert a + b == a;
    } else {
      RunAppends(a, DropLast(b));
      assert DropLast(a + b) == a + DropLast(b) && Last(a + b) == Last(b);
    }
  }

  /** The writes that are no longer queued. */
  function Gone(h: History): seq<Report>
    requires |h.queue| <= |h.written|
  {
    h.written[..|h.written| - |h.queue|]
  }

  ghost predicate Inv(h: History) {
    && |h.queue| <= |h.written|
    && |h.queue| <= OUTPUT_QUEUE
    && h.queue == h.written[|h.written| - |h.queue|..]
    && Subsequence(h.taken, Gone(h))
    && |h.written| == |h.taken| + h.dropped + |h.queue|
  }

  lemma StepKeepsInv(h: History, e: Event)
    requires Inv(h)
    ensures Inv(Step(h, e))
  {
    var after := Step(h, e);
    var n := |h.written| - |h.queue|;
    match e
    case SetReport(r) =>
      if |h.queue| == OUTPUT_QUEUE {
        assert Gone(after) == Gone(h) + [h.written[n]];
        SubsequenceOfLonger(h.taken, Gone(h), [h.written[n]]);
      } else {
        assert Gone(after) == Gone(h);
      }
    case Poll(room) =>
      if h.queue != [] {
        assert h.queue[0] == h.written[n];
        assert Gone(after) == Gone(h) + [h.queue[0]];
        SubsequenceTakesNext(h.taken, Gone(h), h.queue[0]);
      }
  }

  lemma {:induction false} RunKeepsInv(events: seq<Event>)
    ensures Inv(Run(events))
    decreases |events|
  {
    if events == [] {
      EmptySubsequence<Report>([]);
    } else {
      RunKeepsInv(DropLast(events));
      StepKeepsInv(Run(DropLast(events)), Last(events));
    }
  }

  /**
   * Over every run the queue is the newest stretch of the write log, what was taken precedes
   * it in order and at most once, and every write is taken, dropped or still queued.
   */
  lemma QueueIsTheNewestWrites(events: seq<Event>)
    ensures var h := Run(events);
            && |h.queue| <= |h.written| && |h.queue| <= OUTPUT_QUEUE
            && h.queue == h.written[|h.written| - |h.queue|..]
            && Subsequence(h.taken, h.written[..|h.written| - |h.queue|])
            && |h.written| == |h.taken| + h.dropped + |h.queue|
  {
    RunKeepsInv(events);
  }

  lemma {:induction false} RunLogsWrites(events: seq<Event>)
    ensures Run(events).written == Writes(events)
    decreases |events|
  {
    if events != [] {
      hide Push, Rest;
      RunLogsWrites(DropLast(events));
    }
  }

  /** While no push meets a full queue, nothing is lost: taken and queued together are the whole log. */
  lemma {:induction false} NothingIsLostUntilFull(events: seq<Event>)
    ensures Run(events).dropped == 0 <==> Run(events).taken + Run(events).queue == Run(events).written
    decreases |events|
  {
    RunKeepsInv(events);
    if Run(events).dropped == 0 {
      NoDropsMeansAll(events);
    }
  }

  /** A write costs a report only when eight are queued, and then the oldest. */
  lemma DropsOnlyWhenEightWait(events: seq<Event>, r: Report)
    ensures var h, after := Run(events), Run(events + [SetReport(r)]);
            if |h.queue| < 8 then after.queue == h.queue + [Last(after.written)] && after.dropped == h.dropped
            else |h.queue| == 8 && after.queue == h.queue[1..] + [Last(after.written)] && after.dropped == h.dropped + 1
  {
    RunKeepsInv(events);
    assert DropLast(events + [SetReport(r)]) == events;
  }

  lemma {:induction false} NoDropsMeansAll(events: seq<Event>)
    requires Run(events).dropped == 0
    ensures Run(events).taken + Run(events).queue == Run(events).written
    decreases |events|
  {
    if events != [] {
      NoDropsMeansAll(DropLast(events));
      var h := Run(DropLast(events));
      if Last(events).Poll? && h.queue != [] {
        assert h.queue == [h.queue[0]] + h.queue[1..];
      }
    }
  }

  // ---------------------------------------------------------------------------
  // What the client polls
  // ---------------------------------------------------------------------------

  /** The bytes a poll with `capacity` bytes of room writes, or nothing when even the header does not fit. */
  function PollBytes(q: seq<Report>, capacity: nat): Option<seq<byte>> {
    if capacity < OUTPUT_HEADER then None
    else Some(OutputBytes(Oldest(q, if capacity - OUTPUT_HEADER > MAX_REPORT then MAX_REPORT else capacity - OUTPUT_HEADER)))
  }

  /** With the user client's buffer, a poll reads back the oldest report whole. */
  lemma PollReadsBack(q: seq<Report>)
    requires forall r :: r in q ==> |r.data| <= MAX_REPORT
    ensures var b := PollBytes(q, OUTPUT_HEADER + MAX_REPORT);
            b.Some? && ParseOutput(b.value) == Some(if q == [] then Report(OUTPUT_KIND_REPORT, []) else q[0])
  {
    var r := Oldest(q, MAX_REPORT);
    if q != [] {
      assert q[0] in q;
      assert r == q[0];
    }
    OutputRoundTrip(r, []);
    assert OutputBytes(r) + [] == OutputBytes(r);
  }

  // ---------------------------------------------------------------------------
  // The ring in place
  // ---------------------------------------------------------------------------

  class OutputRing {
    const outputs: array<Report>
    var outputHead: nat
    var outputCount: nat

    ghost predicate Valid()
      reads this
    {
      outputs.Length == OUTPUT_QUEUE && outputHead < OUTPUT_QUEUE && outputCount <= OUTPUT_QUEUE
    }

    /** The queued reports, oldest first, wherever the ring wraps. */
    ghost function Contents(): (q: seq<Report>)
      requires Valid()
      reads this, outputs
      ensures |q| == outputCount
    {
      Unwrapped(outputs[..], outputHead, outputCount)
    }

    constructor ()
      ensures Valid() && Contents() == [] && fresh(outputs)
    {
      outputs := new Report[OUTPUT_QUEUE](_ => Report(0, []));
      outputHead, outputCount := 0, 0;
    }

    /** A new node starts with an empty ring. */
    method Reset()
      requires Valid()
      modifies this
      ensures Valid() && Contents() == []
    {
      outputHead, outputCount := 0, 0;
    }

    method SetReport(kind: byte, bytes: seq<byte>)
      requires Valid()
      modifies this, outputs
      ensures Valid()
      ensures Contents() == Push(old(Contents()), Report(kind, Delivery.Clamp(bytes)))
    {
      hide Unwrapped, Delivery.Clamp;
      if outputCount == OUTPUT_QUEUE {
        UnwrappedPop(outputs[..], outputHead, outputCount);
        outputHead := (outputHead + 1) % OUTPUT_QUEUE;
        outputCount := outputCount - 1;
      }
      var r := Report(kind, Delivery.Clamp(bytes));
      var at := (outputHead + outputCount) % OUTPUT_QUEUE;
      UnwrappedPush(outputs[..], outputHead, outputCount, r);
      ghost var ring := outputs[..];
      outputs[at] := r;
      assert outputs[..] == ring[at := r];
      outputCount := outputCount + 1;
    }

    method TakeOutput(room: nat) returns (r: Report)
      requires Valid()
      modifies this
      ensures Valid()
      ensures r == Oldest(old(Contents()), room) && Contents() == Rest(old(Contents()))
    {
      r := Report(OUTPUT_KIND_REPORT, []);
      if outputCount > 0 {
        var out := outputs[outputHead];
        UnwrappedPop(outputs[..], outputHead, outputCount);
        var length := if |out.data| < room then |out.data| else room;
        assert out.data[..|out.data|] == out.data;
        r := Report(out.kind, out.data[..length]);
        outputHead := (outputHead + 1) % OUTPUT_QUEUE;
        outputCount := outputCount - 1;
      }
    }
  }

  function Unwrapped(ring: seq<Report>, head: nat, count: nat): (q: seq<Report>)
    requires |ring| == OUTPUT_QUEUE
    ensures |q| == count
  {
    seq(count, i requires 0 <= i < count => ring[(head + i) % OUTPUT_QUEUE])
  }

  lemma UnwrappedPop(ring: seq<Report>, head: nat, count: nat)
    requires |ring| == OUTPUT_QUEUE && head < OUTPUT_QUEUE && count > 0
    ensures Unwrapped(ring, head, count) == [ring[head]] + Unwrapped(ring, (head + 1) % OUTPUT_QUEUE, count - 1)
  {
    var q, rest := Unwrapped(ring, head, count), Unwrapped(ring, (head + 1) % OUTPUT_QUEUE, count - 1);
    forall i | 0 <= i < count - 1
      ensures q[i + 1] == rest[i]
    {
      assert (head + (i + 1)) % OUTPUT_QUEUE == ((head + 1) % OUTPUT_QUEUE + i) % OUTPUT_QUEUE;
    }
  }

  /** Storing at the wrapped end touches none of the entries before it, as long as one place is free. */
  lemma UnwrappedPush(ring: seq<Report>, head: nat, count: nat, r: Report)
    requires |ring| == OUTPUT_QUEUE && head < OUTPUT_QUEUE && count < OUTPUT_QUEUE
    ensures Unwrapped(ring[(head + count) % OUTPUT_QUEUE := r], head, count + 1) == Unwrapped(ring, head, count) + [r]
  {
    var before, after := Unwrapped(ring, head, count), Unwrapped(ring[(head + count) % OUTPUT_QUEUE := r], head, count + 1);
    forall i | 0 <= i < count
      ensures after[i] == before[i]
    {
      assert (head + i) % OUTPUT_QUEUE != (head + count) % OUTPUT_QUEUE;
    }
  }
}
