/**
 Events and statuses on the wire of the SDK server (cmd/sta/sdk.go).  The forwarder writes an
 event only when the session's first reserved status is armed, so that the event does not
 overtake it.
 */
module SdkEvents {
  import opened SdkStatus

  // ---------- A status comes after its event ----------

  /** Before status number `k` of the session, an event with at least the number `n` was written. */
  predicate Behind(marks: seq<Mark>, n: nat, k: nat) {
    n == 0 || exists i | 0 <= i < |marks| :: marks[i].event >= n && marks[i].written <= k
  }

  predicate MarksInOrder(marks: seq<Mark>, wire: nat) {
    && (forall i | 0 <= i < |marks| :: marks[i].written <= wire)
    && (forall i, j | 0 <= i < j < |marks| :: marks[i].written <= marks[j].written)
  }

  predicate Traced(tickets: seq<Ticket>, upTo: nat, wire: seq<nat>, marks: seq<Mark>) {
    && MarksInOrder(marks, |wire|)
    && Behind(marks, upTo, |wire|)
    && (forall k | 0 <= k < |wire| :: wire[k] < |tickets| && tickets[wire[k]].armed && Behind(marks, tickets[wire[k]].seqNo, k))
  }

  lemma TracedWrite(tickets: seq<Ticket>, upTo: nat, wire: seq<nat>, marks: seq<Mark>, more: seq<nat>)
    requires Traced(tickets, upTo, wire, marks)
    requires forall k | 0 <= k < |more| :: Ready(tickets, more[k], upTo)
    ensures Traced(tickets, upTo, wire + more, marks)
  {
    var longer := wire + more;
    forall k | 0 <= k < |longer|
      ensures longer[k] < |tickets| && tickets[longer[k]].armed && Behind(marks, tickets[longer[k]].seqNo, k)
    {
      if k >= |wire| { assert longer[k] == more[k - |wire|]; }
    }
  }

  lemma BehindStill(marks: seq<Mark>, mark: Mark, n: nat, k: nat, later: nat)
    requires Behind(marks, n, k) && k <= later
    ensures Behind(marks + [mark], n, later)
  {
    if n != 0 {
      var i :| 0 <= i < |marks| && marks[i].event >= n && marks[i].written <= k;
      assert (marks + [mark])[i] == marks[i];
    }
  }

  lemma TracedEvent(tickets: seq<Ticket>, upTo: nat, wire: seq<nat>, marks: seq<Mark>, n: nat)
    requires Traced(tickets, upTo, wire, marks)
    ensures Traced(tickets, upTo, wire, marks + [Mark(n, |wire|)])
    ensures Traced(tickets, if n > upTo then n else upTo, wire, marks + [Mark(n, |wire|)])
  {
    var mark := Mark(n, |wire|);
    BehindStill(marks, mark, upTo, |wire|, |wire|);
    assert (marks + [mark])[|marks|] == mark;
    forall k | 0 <= k < |wire| ensures Behind(marks + [mark], tickets[wire[k]].seqNo, k) {
      BehindStill(marks, mark, tickets[wire[k]].seqNo, k, k);
    }
  }

  predicate TracedAt(st: State, sid: SessionId) {
    Traced(st.b.tickets, Forwarded(st.b, sid), Queue(st.b.wire, sid), Queue(st.marks, sid))
  }

  /** Tickets are appended and armed once, so that what an armed one says stays. */
  predicate Grown(tickets: seq<Ticket>, more: seq<Ticket>) {
    |tickets| <= |more| && forall t | 0 <= t < |tickets| && tickets[t].armed :: more[t] == tickets[t]
  }

  lemma StepKeepsTraced(st: State, step: Step, sid: SessionId)
    requires Enabled(st, step) && TracedAt(st, sid)
    ensures TracedAt(Do(st, step), sid)
  {
    match step
    case Raise(known) => RaiseKeepsTraced(st, known, sid);
    case Flush(after) => FlushKeepsTraced(st, after, sid);
    case RaiseDone(after) => FlushKeepsTraced(st, after, sid);
    case _ => QuietStep(st, step, sid); StillTraced(st, Do(st, step), sid);
  }

  /** A step that neither writes an event nor flushes. */
  lemma QuietStep(st: State, step: Step, sid: SessionId)
    requires Enabled(st, step) && !step.Raise? && !step.Flush? && !step.RaiseDone?
    ensures var next := Do(st, step);
      && Grown(st.b.tickets, next.b.tickets) && next.b.forwarded == st.b.forwarded
      && next.b.wire == st.b.wire && next.marks == st.marks
  {}

  lemma StillTraced(st: State, next: State, sid: SessionId)
    requires TracedAt(st, sid) && Grown(st.b.tickets, next.b.tickets)
    requires next.b.forwarded == st.b.forwarded && next.b.wire == st.b.wire && next.marks == st.marks
    ensures TracedAt(next, sid)
  {}

  lemma RaiseKeepsTraced(st: State, known: bool, sid: SessionId)
    requires Enabled(st, Raise(known)) && TracedAt(st, sid)
    ensures TracedAt(Do(st, Raise(known)), sid)
  {
    if st.forwarder.sid == sid {
      TracedEvent(st.b.tickets, Forwarded(st.b, sid), Queue(st.b.wire, sid), Queue(st.marks, sid), st.forwarder.event);
    }
  }

  lemma FlushKeepsTraced(st: State, after: Board, sid: SessionId)
    requires TracedAt(st, sid) && IsFlushOf(after, st.b)
    ensures TracedAt(st.(b := after), sid)
  {
    assert FlushedAt(after, st.b, sid);
    var queue := Queue(st.b.pending, sid);
    var n := ReadyCount(st.b.tickets, queue, Forwarded(st.b, sid));
    TracedWrite(st.b.tickets, Forwarded(st.b, sid), Queue(st.b.wire, sid), Queue(st.marks, sid), queue[..n]);
  }

  lemma {:induction false} RunIsTraced(steps: seq<Step>, sid: SessionId)
    ensures TracedAt(Run(steps), sid)
  {
    if steps != [] {
      var st, step := Run(steps[..|steps| - 1]), steps[|steps| - 1];
      RunIsTraced(steps[..|steps| - 1], sid);
      if Enabled(st, step) { StepKeepsTraced(st, step, sid); }
    }
  }

  lemma BehindItsOwn(marks: seq<Mark>, n: nat, k: nat, j: nat)
    requires Behind(marks, n, k) && n > 0 && j < |marks| && marks[j].event == n
    requires forall i, j | 0 <= i < j < |marks| :: marks[i].event < marks[j].event && marks[i].written <= marks[j].written
    ensures marks[j].written <= k
  {}

  /**
   A written status comes after an event with at least its number; if the session's events
   were written in order, it comes after the very event it is armed with.
   */
  lemma StatusFollowsItsEvent(steps: seq<Step>, sid: SessionId, k: nat)
    requires k < |Queue(Run(steps).b.wire, sid)|
    ensures var st := Run(steps);
      var t, marks := Queue(st.b.wire, sid)[k], Queue(st.marks, sid);
      && t < |st.b.tickets|
      && Behind(marks, st.b.tickets[t].seqNo, k)
      && ((forall i, j | 0 <= i < j < |marks| :: marks[i].event < marks[j].event) ==>
          forall j | 0 <= j < |marks| && marks[j].event == st.b.tickets[t].seqNo > 0 :: marks[j].written <= k)
  {
    RunIsTraced(steps, sid);
    var st := Run(steps);
    var marks, n := Queue(st.marks, sid), st.b.tickets[Queue(st.b.wire, sid)[k]].seqNo;
    if forall i, j | 0 <= i < j < |marks| :: marks[i].event < marks[j].event {
      forall j: nat | j < |marks| && marks[j].event == n > 0 ensures marks[j].written <= k { BehindItsOwn(marks, n, k, j); }
    }
  }

  // ---------- A status comes before the next event ----------

  lemma RunSnoc(steps: seq<Step>, step: Step)
    ensures Run(steps + [step]) == Do(Run(steps), step)
  {
    assert (steps + [step])[..|steps|] == steps;
  }

  /**
   Status `t`, armed with event `s`, did not miss its place: `s` is the session's event
   number `i`, and when the next one was written the status was no longer to be written.
   After the server has closed nothing is claimed.
   */
  predicate OnTime(st: State, sid: SessionId, t: nat, s: nat, i: nat) {
    var marks, wire := Queue(st.marks, sid), Queue(st.b.wire, sid);
    st.open && |marks| > i + 1 && t < |st.b.tickets| && st.b.tickets[t].armed && st.b.tickets[t].seqNo == s ==>
      t !in Queue(st.b.pending, sid) && forall k | marks[i + 1].written <= k < |wire| :: wire[k] != t
  }

  ghost predicate AlwaysOnTime(steps: seq<Step>, sid: SessionId, t: nat, s: nat, i: nat) {
    forall more: seq<Step> :: OnTime(Run(steps + more), sid, t, s, i)
  }

  function Later(n: nat, m: nat): nat {
    if n > m then n else m
  }

  /** The flush behind the event writes `t` as well. */
  predicate Served(tickets: seq<Ticket>, queue: seq<nat>, t: nat, upTo: nat) {
    t in queue[..ReadyCount(tickets, queue, upTo)]
  }

  lemma {:induction false} ServedExactlyWhen(tickets: seq<Ticket>, queue: seq<nat>, q: nat, upTo: nat)
    requires Increasing(queue) && q < |queue|
    ensures Served(tickets, queue, queue[q], upTo) <==> forall k | 0 <= k <= q :: Ready(tickets, queue[k], upTo)
  {
    var n := ReadyCount(tickets, queue, upTo);
    if q < n { assert queue[..n][q] == queue[q]; }
  }

  lemma {:induction false} ReadyCountLonger(tickets: seq<Ticket>, more: seq<Ticket>, queue: seq<nat>, tail: seq<nat>, upTo: nat)
    requires Grown(tickets, more)
    ensures ReadyCount(tickets, queue, upTo) <= ReadyCount(more, queue + tail, upTo)
  {
    if queue != [] && Ready(tickets, queue[0], upTo) {
      assert (queue + tail)[1..] == queue[1..] + tail;
      ReadyCountLonger(tickets, more, queue[1..], tail, upTo);
    }
  }

  lemma ServedGrown(tickets: seq<Ticket>, more: seq<Ticket>, queue: seq<nat>, tail: seq<nat>, t: nat, upTo: nat)
    requires Grown(tickets, more) && Served(tickets, queue, t, upTo)
    ensures Served(more, queue + tail, t, upTo)
  {
    ReadyCountLonger(tickets, more, queue, tail, upTo);
    var n, longer := ReadyCount(tickets, queue, upTo), ReadyCount(more, queue + tail, upTo);
    assert queue[..n] == (queue + tail)[..longer][..n];
  }

  lemma ServedFirst(tickets: seq<Ticket>, queue: seq<nat>, t: nat, upTo: nat)
    requires queue != []
    ensures Served(tickets, queue, t, upTo) <==>
      Ready(tickets, queue[0], upTo) && (t == queue[0] || Served(tickets, queue[1..], t, upTo))
  {
    var n := ReadyCount(tickets, queue, upTo);
    if n > 0 { assert queue[..n] == [queue[0]] + queue[1..][..n - 1]; }
  }

  lemma {:induction false} ServedWithout(tickets: seq<Ticket>, queue: seq<nat>, t: nat, u: nat, upTo: nat)
    requires Served(tickets, queue, t, upTo) && t != u
    ensures Served(tickets, Without(queue, u), t, upTo)
  {
    ServedFirst(tickets, queue, t, upTo);
    if queue[0] != u {
      if t != queue[0] { ServedWithout(tickets, queue[1..], t, u, upTo); }
      assert Without(queue, u)[1..] == Without(queue[1..], u);
      ServedFirst(tickets, Without(queue, u), t, upTo);
    }
  }

  lemma {:induction false} ReadyCountDrop(tickets: seq<Ticket>, queue: seq<nat>, n: nat, upTo: nat)
    requires n <= ReadyCount(tickets, queue, upTo)
    ensures ReadyCount(tickets, queue[n..], upTo) == ReadyCount(tickets, queue, upTo) - n
  {
    if n > 0 {
      assert queue[1..][n - 1..] == queue[n..];
      ReadyCountDrop(tickets, queue[1..], n - 1, upTo);
    }
  }

  lemma {:induction false} ReadyCountFurther(tickets: seq<Ticket>, queue: seq<nat>, upTo: nat, further: nat)
    requires upTo <= further
    ensures ReadyCount(tickets, queue, upTo) <= ReadyCount(tickets, queue, further)
  {
    if queue != [] { ReadyCountFurther(tickets, queue[1..], upTo, further); }
  }

  lemma DropKeeps(queue: seq<nat>, n: nat, m: nat, t: nat)
    requires Increasing(queue) && n <= m <= |queue| && t in queue[..m] && t in queue[n..]
    ensures t in queue[n..][..m - n]
  {
    var j :| 0 <= j < m && queue[..m][j] == t;
    var k :| 0 <= k < |queue| - n && queue[n..][k] == t;
    assert queue[j] == queue[n + k];
    assert queue[n..][..m - n][k] == t;
  }

  /** A flush that has not got as far as `further` leaves `t` to be served, unless it writes it. */
  lemma ServedDrop(tickets: seq<Ticket>, queue: seq<nat>, t: nat, upTo: nat, further: nat)
    requires Increasing(queue) && upTo <= further && Served(tickets, queue, t, further)
    ensures var n := ReadyCount(tickets, queue, upTo); t in queue[n..] ==> Served(tickets, queue[n..], t, further)
  {
    var n, m := ReadyCount(tickets, queue, upTo), ReadyCount(tickets, queue, further);
    ReadyCountFurther(tickets, queue, upTo, further);
    ReadyCountDrop(tickets, queue, n, further);
    if t in queue[n..] { DropKeeps(queue, n, m, t); }
  }

  /** The flush right behind the event writes `t`. */
  lemma ServedIsWritten(tickets: seq<Ticket>, queue: seq<nat>, t: nat, upTo: nat)
    requires Increasing(queue) && Served(tickets, queue, t, upTo)
    ensures t !in queue[ReadyCount(tickets, queue, upTo)..]
  {
    var n := ReadyCount(tickets, queue, upTo);
    if t in queue[n..] { DropKeeps(queue, n, n, t); }
  }

  /** `t` is no longer to be written, and was not written behind the event after number `i`. */
  predicate Gone(marks: seq<Mark>, wire: seq<nat>, queue: seq<nat>, t: nat, i: nat) {
    t !in queue && (|marks| > i + 1 ==> forall k | marks[i + 1].written <= k < |wire| :: wire[k] != t)
  }

  predicate GoneAt(st: State, sid: SessionId, t: nat, i: nat) {
    Gone(Queue(st.marks, sid), Queue(st.b.wire, sid), Queue(st.b.pending, sid), t, i)
  }

  /** `t` is queued, and the section of event `s` will write it. */
  predicate Due(st: State, sid: SessionId, t: nat, s: nat, i: nat) {
    var queue, marks := Queue(st.b.pending, sid), Queue(st.marks, sid);
    if st.forwarder.Writing? then
      st.forwarder.sid == sid && |marks| == i + 1 && Served(st.b.tickets, queue, t, Forwarded(st.b, sid))
    else
      st.forwarder == Cleared(sid, s) && |marks| == i && Served(st.b.tickets, queue, t, Later(s, Forwarded(st.b, sid)))
  }

  predicate Placed(st: State, sid: SessionId, t: nat, s: nat, i: nat) {
    t < |st.b.tickets| && (st.open ==> GoneAt(st, sid, t, i) || Due(st, sid, t, s, i))
  }

  // Gone stays gone.

  lemma {:induction false} WithoutInside(queue: seq<nat>, u: nat)
    ensures forall x | x in Without(queue, u) :: x in queue
    ensures Increasing(queue) ==> u !in Without(queue, u)
  {
    if queue != [] {
      WithoutInside(queue[1..], u);
      assert forall x | x in queue[1..] :: x in queue;
    }
  }

  lemma QueueIncreases(st: State, sid: SessionId)
    requires Inv(st)
    ensures Increasing(Queue(st.b.pending, sid))
    ensures forall t | t in Queue(st.b.pending, sid) :: t < |st.b.tickets| && st.b.tickets[t].session == sid && sid in st.reserved
  {
    assert Right(st, sid);
    var wire, queue, reserved := Queue(st.b.wire, sid), Queue(st.b.pending, sid), Queue(st.reserved, sid);
    KeptIncreasing(reserved, st.dropped);
    forall k | 0 <= k < |queue| ensures queue[k] == (wire + queue)[|wire| + k] {}
    forall t | t in queue ensures t in reserved { assert t in wire + queue; }
  }

  lemma GoneWritten(marks: seq<Mark>, wire: seq<nat>, queue: seq<nat>, n: nat, t: nat, i: nat)
    requires Gone(marks, wire, queue, t, i) && n <= |queue|
    ensures Gone(marks, wire + queue[..n], queue[n..], t, i)
  {
    var longer := wire + queue[..n];
    forall k | |wire| <= k < |longer| ensures longer[k] != t { assert longer[k] == queue[k - |wire|]; }
  }

  lemma GoneFlushed(st: State, after: Board, sid: SessionId, t: nat, i: nat)
    requires GoneAt(st, sid, t, i) && IsFlushOf(after, st.b)
    ensures GoneAt(st.(b := after), sid, t, i)
  {
    assert FlushedAt(after, st.b, sid);
    var queue := Queue(st.b.pending, sid);
    GoneWritten(Queue(st.marks, sid), Queue(st.b.wire, sid), queue, ReadyCount(st.b.tickets, queue, Forwarded(st.b, sid)), t, i);
  }

  lemma GoneStays(st: State, step: Step, sid: SessionId, t: nat, i: nat)
    requires Enabled(st, step) && t < |st.b.tickets| && GoneAt(st, sid, t, i)
    ensures GoneAt(Do(st, step), sid, t, i)
  {
    match step
    case Flush(after) => GoneFlushed(st, after, sid, t, i);
    case RaiseDone(after) => GoneFlushed(st, after, sid, t, i);
    case Cancel(u) => CancelledQueue(st.b, u, sid); WithoutInside(Queue(st.b.pending, sid), u);
    case _ =>
  }

  // Due stays due until the status is written or cancelled.

  lemma DueFlushed(st: State, after: Board, sid: SessionId, t: nat, s: nat, i: nat)
    requires Inv(st) && Due(st, sid, t, s, i) && !st.forwarder.Writing? && IsFlushOf(after, st.b)
    ensures var next := st.(b := after); GoneAt(next, sid, t, i) || Due(next, sid, t, s, i)
  {
    assert FlushedAt(after, st.b, sid);
    QueueIncreases(st, sid);
    ServedDrop(st.b.tickets, Queue(st.b.pending, sid), t, Forwarded(st.b, sid), Later(s, Forwarded(st.b, sid)));
  }

  lemma DueWritten(st: State, after: Board, sid: SessionId, t: nat, s: nat, i: nat)
    requires Inv(st) && Due(st, sid, t, s, i) && st.forwarder.Writing? && IsFlushOf(after, st.b)
    ensures GoneAt(st.(b := after), sid, t, i)
  {
    assert FlushedAt(after, st.b, sid);
    QueueIncreases(st, sid);
    ServedIsWritten(st.b.tickets, Queue(st.b.pending, sid), t, Forwarded(st.b, sid));
  }

  /** How far the forwarder will have got when the section of event `s` flushes. */
  function Reach(st: State, sid: SessionId, s: nat): nat {
    if st.forwarder.Writing? then Forwarded(st.b, sid) else Later(s, Forwarded(st.b, sid))
  }

  /** A step that only changes tickets and queues. */
  predicate SameForwarder(st: State, next: State) {
    next.b.forwarded == st.b.forwarded && next.forwarder == st.forwarder && next.marks == st.marks
  }

  lemma StillDue(st: State, next: State, sid: SessionId, t: nat, s: nat, i: nat)
    requires Due(st, sid, t, s, i) && SameForwarder(st, next)
    requires Served(next.b.tickets, Queue(next.b.pending, sid), t, Reach(st, sid, s))
    ensures Due(next, sid, t, s, i)
  {}

  lemma DueCancel(st: State, u: nat, sid: SessionId, t: nat, s: nat, i: nat)
    requires Inv(st) && Due(st, sid, t, s, i) && u < |st.b.tickets|
    ensures var next := Do(st, Cancel(u)); GoneAt(next, sid, t, i) || Due(next, sid, t, s, i)
  {
    var next, queue := Do(st, Cancel(u)), Queue(st.b.pending, sid);
    CancelledQueue(st.b, u, sid);
    if u != t || st.b.tickets[u].session != sid {
      if st.b.tickets[u].session == sid { ServedWithout(st.b.tickets, queue, t, u, Reach(st, sid, s)); }
      StillDue(st, next, sid, t, s, i);
    } else {
      QueueIncreases(st, sid);
      WithoutInside(queue, t);
      assert |Queue(st.marks, sid)| <= i + 1;
    }
  }

  lemma DueGrown(st: State, next: State, tail: seq<nat>, sid: SessionId, t: nat, s: nat, i: nat)
    requires Due(st, sid, t, s, i) && Grown(st.b.tickets, next.b.tickets) && SameForwarder(st, next)
    requires Queue(next.b.pending, sid) == Queue(st.b.pending, sid) + tail
    ensures Due(next, sid, t, s, i)
  {
    ServedGrown(st.b.tickets, next.b.tickets, Queue(st.b.pending, sid), tail, t, Reach(st, sid, s));
    StillDue(st, next, sid, t, s, i);
  }

  lemma DueRaised(st: State, known: bool, sid: SessionId, t: nat, s: nat, i: nat)
    requires Inv(st) && Due(st, sid, t, s, i) && st.open && Enabled(st, Raise(known))
    ensures Due(Do(st, Raise(known)), sid, t, s, i)
  {
    QueueIncreases(st, sid);
    assert t in Queue(st.b.pending, sid);
  }

  lemma DueStays(st: State, step: Step, sid: SessionId, t: nat, s: nat, i: nat)
    requires Inv(st) && Enabled(st, step) && Due(st, sid, t, s, i) && st.open
    ensures var next := Do(st, step); next.open ==> GoneAt(next, sid, t, i) || Due(next, sid, t, s, i)
  {
    var next := Do(st, step);
    match step
    case Flush(after) => DueFlushed(st, after, sid, t, s, i);
    case RaiseDone(after) => DueWritten(st, after, sid, t, s, i);
    case Cancel(u) => DueCancel(st, u, sid, t, s, i);
    case Raise(known) => DueRaised(st, known, sid, t, s, i);
    case Reserve(x) => DueGrown(st, next, if x == sid then [|st.b.tickets|] else [], sid, t, s, i);
    case Arm(_, _) => DueGrown(st, next, [], sid, t, s, i);
    case _ =>
  }

  lemma {:induction false} StaysPlaced(steps: seq<Step>, more: seq<Step>, sid: SessionId, t: nat, s: nat, i: nat)
    requires Placed(Run(steps), sid, t, s, i)
    ensures Placed(Run(steps + more), sid, t, s, i)
  {
    if more == [] {
      assert steps + more == steps;
    } else {
      var front, step := more[..|more| - 1], more[|more| - 1];
      StaysPlaced(steps, front, sid, t, s, i);
      assert steps + more == (steps + front) + [step];
      RunSnoc(steps + front, step);
      PlacedStep(steps + front, step, sid, t, s, i);
    }
  }

  lemma PlacedStep(steps: seq<Step>, step: Step, sid: SessionId, t: nat, s: nat, i: nat)
    requires Placed(Run(steps), sid, t, s, i)
    ensures Placed(Do(Run(steps), step), sid, t, s, i)
  {
    var st := Run(steps);
    RunKeepsInv(steps);
    if Enabled(st, step) && st.open {
      if GoneAt(st, sid, t, i) { GoneStays(st, step, sid, t, i); } else { DueStays(st, step, sid, t, s, i); }
    }
  }

  // ---------- Where the wait is not enough ----------

  function LeftQueue(b: Board, sid: SessionId): seq<nat> {
    var queue := Queue(b.pending, sid);
    queue[ReadyCount(b.tickets, queue, Forwarded(b, sid))..]
  }

  function WrittenWire(b: Board, sid: SessionId): seq<nat> {
    var queue := Queue(b.pending, sid);
    Queue(b.wire, sid) + queue[..ReadyCount(b.tickets, queue, Forwarded(b, sid))]
  }

  lemma FlushExists(b: Board) returns (after: Board)
    ensures IsFlushOf(after, b)
  {
    var pending := map sid | sid in b.pending && LeftQueue(b, sid) != [] :: LeftQueue(b, sid);
    var wire := map sid | sid in b.wire.Keys + b.pending.Keys :: WrittenWire(b, sid);
    after := b.(pending := pending, wire := wire);
    forall sid: SessionId ensures FlushedAt(after, b, sid) {
      assert Queue(pending, sid) == LeftQueue(b, sid);
      assert Queue(wire, sid) == WrittenWire(b, sid);
    }
  }

  lemma RunTwo(steps: seq<Step>, a: Step, b: Step)
    ensures Run(steps + [a, b]) == Do(Do(Run(steps), a), b)
  {
    assert steps + [a, b] == steps + [a] + [b];
    RunSnoc(steps, a);
    RunSnoc(steps + [a], b);
  }

  /** `next` is `st` behind the section of event `s`. */
  predicate BehindEvent(st: State, next: State, sid: SessionId, s: nat) {
    && next.b.tickets == st.b.tickets && next.forwarder.Idle? && next.open == st.open
    && (var queue := Queue(st.b.pending, sid);
        Queue(next.b.pending, sid) == queue[ReadyCount(st.b.tickets, queue, Later(s, Forwarded(st.b, sid)))..])
    && |Queue(next.marks, sid)| == |Queue(st.marks, sid)| + 1
  }

  /** The event is written, and the flush still to come. */
  lemma RaisedIs(st: State, sid: SessionId, s: nat)
    requires st.forwarder == Cleared(sid, s)
    ensures var raised := Do(st, Raise(true));
      && raised.b.tickets == st.b.tickets && raised.b.pending == st.b.pending && raised.open == st.open
      && Forwarded(raised.b, sid) == Later(s, Forwarded(st.b, sid)) && raised.forwarder == Writing(sid)
      && |Queue(raised.marks, sid)| == |Queue(st.marks, sid)| + 1
  {}

  lemma FlushLeaves(after: Board, b: Board, sid: SessionId)
    requires IsFlushOf(after, b)
    ensures after.tickets == b.tickets && Queue(after.pending, sid) == LeftQueue(b, sid)
  {
    assert FlushedAt(after, b, sid);
  }

  lemma WriteAndFlush(st: State, sid: SessionId, s: nat) returns (after: Board)
    requires st.forwarder == Cleared(sid, s)
    ensures BehindEvent(st, Do(Do(st, Raise(true)), RaiseDone(after)), sid, s)
  {
    var raised := Do(st, Raise(true));
    RaisedIs(st, sid, s);
    after := FlushExists(raised.b);
    FlushLeaves(after, raised.b, sid);
    assert Do(raised, RaiseDone(after)) == raised.(b := after, forwarder := Idle);
  }

  /** The section of the event that has passed the wait. */
  lemma EventSection(steps: seq<Step>, sid: SessionId, s: nat) returns (more: seq<Step>)
    requires Run(steps).forwarder == Cleared(sid, s)
    ensures BehindEvent(Run(steps), Run(steps + more), sid, s)
  {
    var after := WriteAndFlush(Run(steps), sid, s);
    RunTwo(steps, Raise(true), RaiseDone(after));
    more := [Raise(true), RaiseDone(after)];
  }

  predicate ArmedWith(tickets: seq<Ticket>, t: nat, n: nat) {
    t < |tickets| && tickets[t].armed && tickets[t].seqNo == n
  }

  lemma ArmIfNot(steps: seq<Step>, t: nat, n: nat) returns (more: seq<Step>)
    requires t < |Run(steps).b.tickets|
    ensures var st, next := Run(steps), Run(steps + more);
      && Grown(st.b.tickets, next.b.tickets) && next.b.tickets[t].armed
      && (!st.b.tickets[t].armed ==> next.b.tickets[t].seqNo == n)
      && (forall u | 0 <= u < |st.b.tickets| && u != t :: next.b.tickets[u] == st.b.tickets[u])
      && next.b.pending == st.b.pending && next.forwarder == st.forwarder && next.open == st.open && next.marks == st.marks
  {
    if Run(steps).b.tickets[t].armed {
      more := [];
      assert steps + more == steps;
    } else {
      more := [Arm(t, n)];
      RunSnoc(steps, Arm(t, n));
    }
  }

  /** One more event of the session is written, and nothing else has changed. */
  predicate OneMoreEvent(st: State, next: State, sid: SessionId) {
    && next.b.tickets == st.b.tickets && next.b.pending == st.b.pending && next.open == st.open
    && |Queue(next.marks, sid)| == |Queue(st.marks, sid)| + 1
  }

  lemma PassAndWrite(st: State, sid: SessionId, n: nat)
    requires st.forwarder == Waiting(sid, n) && MayPass(st.b, sid)
    ensures OneMoreEvent(st, Do(Do(st, Pass), Raise(true)), sid)
  {}

  /** The next event of the session is written as soon as its first status is armed. */
  lemma NextEvent(steps: seq<Step>, sid: SessionId, n: nat) returns (more: seq<Step>)
    requires Run(steps).forwarder.Idle? && MayPass(Run(steps).b, sid)
    ensures OneMoreEvent(Run(steps), Run(steps + more), sid)
  {
    RunSnoc(steps, Take(sid, n));
    RunTwo(steps + [Take(sid, n)], Pass, Raise(true));
    PassAndWrite(Run(steps + [Take(sid, n)]), sid, n);
    more := [Take(sid, n)] + [Pass, Raise(true)];
    assert steps + more == steps + [Take(sid, n)] + [Pass, Raise(true)];
  }

  /** Nothing has changed from `st` but that both tickets are armed, `t` with `n`. */
  predicate BothArmed(st: State, next: State, t: nat, u: nat, n: nat) {
    && ArmedWith(next.b.tickets, t, n) && u < |next.b.tickets| && next.b.tickets[u].armed
    && next.b.pending == st.b.pending && next.forwarder == st.forwarder && next.open == st.open && next.marks == st.marks
  }

  /** Arms both, where `t` is not armed with another number. */
  lemma ArmBoth(steps: seq<Step>, t: nat, u: nat, n: nat) returns (more: seq<Step>)
    requires t < |Run(steps).b.tickets| && u < |Run(steps).b.tickets|
    requires var st := Run(steps); st.b.tickets[t].armed ==> st.b.tickets[t].seqNo == n
    ensures BothArmed(Run(steps), Run(steps + more), t, u, n)
  {
    var a := ArmIfNot(steps, t, n);
    var b := ArmIfNot(steps + a, u, n);
    more := a + b;
    assert steps + more == steps + a + b;
  }

  /** Between two events, `t` is queued, and armed with `s` if at all. */
  predicate Pending(st: State, sid: SessionId, t: nat, s: nat) {
    var queue := Queue(st.b.pending, sid);
    && st.forwarder.Idle? && st.open && t < |st.b.tickets| && (st.b.tickets[t].armed ==> st.b.tickets[t].seqNo == s)
    && t in queue && queue[0] < |st.b.tickets|
  }

  /** Then the next event can be written before `t`. */
  lemma NextEventOvertakes(steps: seq<Step>, sid: SessionId, t: nat, s: nat) returns (more: seq<Step>)
    requires Pending(Run(steps), sid, t, s) && |Queue(Run(steps).marks, sid)| > 0
    ensures !OnTime(Run(steps + more), sid, t, s, |Queue(Run(steps).marks, sid)| - 1)
  {
    var u := Queue(Run(steps).b.pending, sid)[0];
    var a := ArmBoth(steps, t, u, s);
    FirstMayPass(Run(steps), Run(steps + a), sid, t, u, s);
    var b := NextEvent(steps + a, sid, s + 1);
    more := a + b;
    assert steps + more == steps + a + b;
    StillQueuedIsLate(Run(steps), Run(steps + a), Run(steps + more), sid, t, u, s);
  }

  lemma FirstMayPass(st: State, armed: State, sid: SessionId, t: nat, u: nat, s: nat)
    requires BothArmed(st, armed, t, u, s) && Queue(st.b.pending, sid) != [] && Queue(st.b.pending, sid)[0] == u
    ensures MayPass(armed.b, sid)
  {}

  lemma StillQueuedIsLate(st: State, armed: State, next: State, sid: SessionId, t: nat, u: nat, s: nat)
    requires BothArmed(st, armed, t, u, s) && OneMoreEvent(armed, next, sid) && st.open
    requires t in Queue(st.b.pending, sid) && |Queue(st.marks, sid)| > 0
    ensures !OnTime(next, sid, t, s, |Queue(st.marks, sid)| - 1)
  {}

  /** Past the wait of event `s`, the flush behind it would leave `t` queued, armed with `s` if at all. */
  predicate LeftBehind(st: State, sid: SessionId, s: nat, t: nat) {
    var queue := Queue(st.b.pending, sid);
    && st.open && st.forwarder == Cleared(sid, s)
    && t < |st.b.tickets| && (st.b.tickets[t].armed ==> st.b.tickets[t].seqNo == s)
    && t in queue[ReadyCount(st.b.tickets, queue, Later(s, Forwarded(st.b, sid)))..]
  }

  predicate AllBelow(queue: seq<nat>, n: nat) {
    forall k | 0 <= k < |queue| :: queue[k] < n
  }

  lemma LeftIsPending(st: State, next: State, sid: SessionId, s: nat, t: nat)
    requires BehindEvent(st, next, sid, s) && LeftBehind(st, sid, s, t)
    requires AllBelow(Queue(st.b.pending, sid), |st.b.tickets|)
    ensures Pending(next, sid, t, s)
  {
    var queue, left := Queue(st.b.pending, sid), Queue(next.b.pending, sid);
    var n := ReadyCount(st.b.tickets, queue, Later(s, Forwarded(st.b, sid)));
    assert left == queue[n..] && n < |queue|;
    assert left[0] == queue[n];
  }

  /** Then the next event can overtake it. */
  lemma CanBeLate(steps: seq<Step>, sid: SessionId, s: nat, t: nat) returns (more: seq<Step>)
    requires LeftBehind(Run(steps), sid, s, t)
    ensures !OnTime(Run(steps + more), sid, t, s, |Queue(Run(steps).marks, sid)|)
  {
    RunKeepsInv(steps);
    QueueIncreases(Run(steps), sid);
    var queue := Queue(Run(steps).b.pending, sid);
    forall k | 0 <= k < |queue| ensures queue[k] < |Run(steps).b.tickets| { assert queue[k] in queue; }
    var a := EventSection(steps, sid, s);
    LeftIsPending(Run(steps), Run(steps + a), sid, s, t);
    var b := NextEventOvertakes(steps + a, sid, t, s);
    more := a + b;
    assert steps + more == steps + a + b;
  }

  /** The status is armed, for an event no later than this one. */
  predicate IsArmedFor(tickets: seq<Ticket>, t: nat, event: nat) {
    t < |tickets| && tickets[t].armed && tickets[t].seqNo <= event
  }

  /**
   Of the statuses that are queued when event `s` is past its wait, and are armed with it
   by then or later: one is certain to be written, or cancelled, before the next event of
   the session exactly if it and every status queued before it is armed already, for an
   event no later than `s` or one already forwarded.  So the first in the queue is on time
   whenever the wait has found it armed with `s`; any other can be overtaken.
   */
  lemma OnTimeExactlyWhen(steps: seq<Step>, sid: SessionId, s: nat, q: nat)
    requires var st := Run(steps);
      && st.open && st.forwarder == Cleared(sid, s) && q < |Queue(st.b.pending, sid)|
      && var t := Queue(st.b.pending, sid)[q]; t < |st.b.tickets| && (st.b.tickets[t].armed ==> st.b.tickets[t].seqNo == s)
    ensures var st := Run(steps);
      var queue := Queue(st.b.pending, sid);
      AlwaysOnTime(steps, sid, queue[q], s, |Queue(st.marks, sid)|) <==>
        forall k | 0 <= k <= q :: IsArmedFor(st.b.tickets, queue[k], Later(s, Forwarded(st.b, sid)))
  {
    RunKeepsInv(steps);
    var st := Run(steps);
    QueueIncreases(st, sid);
    var queue, upTo, i := Queue(st.b.pending, sid), Later(s, Forwarded(st.b, sid)), |Queue(st.marks, sid)|;
    ServedExactlyWhen(st.b.tickets, queue, q, upTo);
    ServedOrLeft(queue, ReadyCount(st.b.tickets, queue, upTo), q);
    if Served(st.b.tickets, queue, queue[q], upTo) {
      forall more: seq<Step> ensures OnTime(Run(steps + more), sid, queue[q], s, i) {
        StaysPlaced(steps, more, sid, queue[q], s, i);
      }
    } else {
      var more := CanBeLate(steps, sid, s, queue[q]);
      assert !OnTime(Run(steps + more), sid, queue[q], s, i);
    }
  }

  lemma ServedOrLeft(queue: seq<nat>, n: nat, q: nat)
    requires n <= |queue| && q < |queue|
    ensures queue[q] in queue[..n] || queue[q] in queue[n..]
  {
    if q < n { assert queue[..n][q] == queue[q]; } else { assert queue[n..][q - n] == queue[q]; }
  }

  lemma TwoReserved()
    ensures var st := Run([Reserve(7), Reserve(7)]);
      && st.b.tickets == [Ticket(7, false, 0), Ticket(7, false, 0)] && Queue(st.b.pending, 7) == [0, 1]
      && st.forwarder.Idle? && st.open && st.marks == map[]
  {
    RunTwo([], Reserve(7), Reserve(7));
    assert [] + [Reserve(7), Reserve(7)] == [Reserve(7), Reserve(7)];
  }

  lemma FirstIsArmed(st: State)
    requires st.b.tickets == [Ticket(7, false, 0), Ticket(7, false, 0)] && Queue(st.b.pending, 7) == [0, 1] && st.forwarder.Idle?
    ensures var next := Do(Do(Do(st, Arm(0, 1)), Take(7, 1)), Pass);
      && next.b.tickets == [Ticket(7, true, 1), Ticket(7, false, 0)] && next.b.pending == st.b.pending
      && next.forwarder == Cleared(7, 1) && next.open == st.open && next.marks == st.marks
  {}

  /** A run that can go on so: the second of two statuses, whose event is the first's too, comes after the next event. */
  lemma SecondStatusCanBeLate()
    ensures var steps := [Reserve(7), Reserve(7)] + [Arm(0, 1)] + [Take(7, 1), Pass];
      Queue(Run(steps).b.pending, 7) == [0, 1] && !AlwaysOnTime(steps, 7, 1, 1, 0)
  {
    var two := [Reserve(7), Reserve(7)];
    TwoReserved();
    FirstIsArmed(Run(two));
    RunSnoc(two, Arm(0, 1));
    RunTwo(two + [Arm(0, 1)], Take(7, 1), Pass);
    var steps := two + [Arm(0, 1)] + [Take(7, 1), Pass];
    OnTimeExactlyWhen(steps, 7, 1, 1);
    assert !Ready(Run(steps).b.tickets, 1, Later(1, Forwarded(Run(steps).b, 7)));
  }

  // ---------- Coming to rest ----------

  lemma {:induction false} DebtsCanBePaid(steps: seq<Step>) returns (more: seq<Step>)
    requires !Run(steps).forwarder.Writing?
    ensures Run(steps + more).debts == 0 && !Run(steps + more).forwarder.Writing?
    decreases Run(steps).debts
  {
    if Run(steps).debts == 0 {
      more := [];
      assert steps + more == steps;
    } else {
      var after := FlushExists(Run(steps).b);
      RunSnoc(steps, Flush(after));
      var rest := DebtsCanBePaid(steps + [Flush(after)]);
      more := [Flush(after)] + rest;
      assert steps + more == steps + [Flush(after)] + rest;
    }
  }

  lemma EventCanBeDone(steps: seq<Step>) returns (more: seq<Step>)
    ensures !Run(steps + more).forwarder.Writing?
  {
    if Run(steps).forwarder.Writing? {
      var after := FlushExists(Run(steps).b);
      more := [RaiseDone(after)];
      RunSnoc(steps, RaiseDone(after));
    } else {
      more := [];
      assert steps + more == steps;
    }
  }

  /** Every run can be completed by the sections that are outstanding, so that no ready status is left. */
  lemma EveryRunCanRest(steps: seq<Step>) returns (more: seq<Step>)
    ensures Run(steps + more).debts == 0 && !Run(steps + more).forwarder.Writing?
  {
    var done := EventCanBeDone(steps);
    var paid := DebtsCanBePaid(steps + done);
    more := done + paid;
    assert steps + more == steps + done + paid;
  }

  // ---------- What the wait holds back ----------

  /** The forwarder waits, with some event, for a session whose first status `t` is not armed. */
  predicate HeldBack(st: State, forwarder: Forwarder, t: nat, marks: map<SessionId, seq<Mark>>) {
    && st.marks == marks
    && (st.forwarder == forwarder || st.forwarder.Stopped?)
    && forwarder.Waiting?
    && t < |st.b.tickets| && !st.b.tickets[t].armed && st.b.tickets[t].session == forwarder.sid
    && var queue := Queue(st.b.pending, forwarder.sid); queue != [] && queue[0] == t
  }

  lemma HeldBackStep(st: State, step: Step, forwarder: Forwarder, t: nat, marks: map<SessionId, seq<Mark>>)
    requires HeldBack(st, forwarder, t, marks) && Enabled(st, step)
    requires !(step.Arm? && step.t == t) && !(step.Cancel? && step.t == t)
    ensures HeldBack(Do(st, step), forwarder, t, marks)
  {
    match step
    case Flush(after) => assert FlushedAt(after, st.b, forwarder.sid);
    case Cancel(u) => CancelledQueue(st.b, u, forwarder.sid);
    case _ =>
  }

  lemma {:induction false} StaysHeldBack(steps: seq<Step>, more: seq<Step>, t: nat)
    requires HeldBack(Run(steps), Run(steps).forwarder, t, Run(steps).marks)
    requires forall step | step in more :: !(step.Arm? && step.t == t) && !(step.Cancel? && step.t == t)
    ensures HeldBack(Run(steps + more), Run(steps).forwarder, t, Run(steps).marks)
  {
    if more == [] {
      assert steps + more == steps;
    } else {
      var front, step := more[..|more| - 1], more[|more| - 1];
      StaysHeldBack(steps, front, t);
      assert steps + more == (steps + front) + [step];
      RunSnoc(steps + front, step);
      if Enabled(Run(steps + front), step) {
        HeldBackStep(Run(steps + front), step, Run(steps).forwarder, t, Run(steps).marks);
      }
    }
  }

  /**
   While a session's first status stays reserved and unarmed, an event of that session that
   is next to be forwarded holds back the events of all sessions: whatever else happens, none
   is written until that status is armed or cancelled.  An idle status is reserved when a
   prompt is accepted, and armed when the session is idle again.  Closing the server ends
   the wait.
   */
  lemma UnarmedStatusHoldsBackAllEvents(steps: seq<Step>, more: seq<Step>, sid: SessionId, t: nat)
    requires var st := Run(steps);
      && st.forwarder.Waiting? && st.forwarder.sid == sid && t < |st.b.tickets|
      && Queue(st.b.pending, sid) != [] && Queue(st.b.pending, sid)[0] == t && !st.b.tickets[t].armed
    requires forall step | step in more :: !(step.Arm? && step.t == t) && !(step.Cancel? && step.t == t)
    ensures Run(steps + more).marks == Run(steps).marks
    ensures Do(Do(Run(steps + more), Shut), GiveUp).forwarder.Stopped?
  {
    RunKeepsInv(steps);
    QueueIncreases(Run(steps), sid);
    StaysHeldBack(steps, more, t);
  }
}
