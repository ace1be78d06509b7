/**
 Status notifications of the SDK server (cmd/sta/sdk.go).  A status is reserved before the
 operation that produces an event, armed with that event's sequence number, and written
 once the event forwarder has got that far; per session, statuses keep reservation order.
 */
module SdkStatus {
  /** Session ids are only compared, so that numbers stand for them. */
  type SessionId = nat

  /** A reserved status; tickets are numbered in reservation order. */
  datatype Ticket = Ticket(session: SessionId, armed: bool, seqNo: nat)

  /** The server's queues.  `wire` lists, per session, the statuses written so far. */
  datatype Board = Board(
    tickets: seq<Ticket>,
    pending: map<SessionId, seq<nat>>,
    forwarded: map<SessionId, nat>,
    wire: map<SessionId, seq<nat>>)

  function Queue<T>(m: map<SessionId, seq<T>>, sid: SessionId): seq<T> {
    if sid in m then m[sid] else []
  }

  function Forwarded(b: Board, sid: SessionId): nat {
    if sid in b.forwarded then b.forwarded[sid] else 0
  }

  predicate Ready(tickets: seq<Ticket>, t: nat, upTo: nat) {
    t < |tickets| && tickets[t].armed && upTo >= tickets[t].seqNo
  }

  /** How many statuses at the head of a queue may be written. */
  function ReadyCount(tickets: seq<Ticket>, queue: seq<nat>, upTo: nat): (n: nat)
    ensures n <= |queue|
    ensures forall k | 0 <= k < n :: Ready(tickets, queue[k], upTo)
    ensures n < |queue| ==> !Ready(tickets, queue[n], upTo)
  {
    if queue == [] || !Ready(tickets, queue[0], upTo) then 0 else 1 + ReadyCount(tickets, queue[1..], upTo)
  }

  function Reserved(b: Board, sid: SessionId): Board {
    b.(tickets := b.tickets + [Ticket(sid, false, 0)],
       pending := b.pending[sid := Queue(b.pending, sid) + [|b.tickets|]])
  }

  function Armed(b: Board, t: nat, n: nat): Board
    requires t < |b.tickets|
  {
    b.(tickets := b.tickets[t := b.tickets[t].(armed := true, seqNo := n)])
  }

  function Without(queue: seq<nat>, t: nat): seq<nat> {
    if queue == [] then []
    else if queue[0] == t then queue[1..]
    else [queue[0]] + Without(queue[1..], t)
  }

  lemma WithoutAt(queue: seq<nat>, t: nat, i: nat)
    requires i <= |queue| && t !in queue[..i] && (i < |queue| ==> queue[i] == t)
    ensures Without(queue, t) == if i < |queue| then queue[..i] + queue[i + 1..] else queue
  {
    assert queue == queue[..i] + queue[i..];
    WithoutAppend(queue[..i], queue[i..], t);
    if i < |queue| { assert queue[i..][1..] == queue[i + 1..]; }
  }

  function Cancelled(b: Board, t: nat): Board
    requires t < |b.tickets|
  {
    var sid := b.tickets[t].session;
    var rest := Without(Queue(b.pending, sid), t);
    b.(pending := if rest == [] then b.pending - {sid} else b.pending[sid := rest])
  }

  /** A cancelled ticket leaves its session's queue; the other queues stay. */
  lemma CancelledQueue(b: Board, t: nat, sid: SessionId)
    requires t < |b.tickets|
    ensures var queue := Queue(b.pending, sid);
      Queue(Cancelled(b, t).pending, sid) == if b.tickets[t].session == sid then Without(queue, t) else queue
  {}

  function Advanced(b: Board, sid: SessionId, n: nat): Board {
    if n > Forwarded(b, sid) then b.(forwarded := b.forwarded[sid := n]) else b
  }

  /** In `after`, the ready head statuses that session `sid` had in `b` are written. */
  predicate FlushedAt(after: Board, b: Board, sid: SessionId) {
    var n := ReadyCount(b.tickets, Queue(b.pending, sid), Forwarded(b, sid));
    && Queue(after.pending, sid) == Queue(b.pending, sid)[n..]
    && Queue(after.wire, sid) == Queue(b.wire, sid) + Queue(b.pending, sid)[..n]
  }

  predicate SameAt(after: Board, b: Board, sid: SessionId) {
    (sid in after.pending <==> sid in b.pending) && Queue(after.pending, sid) == Queue(b.pending, sid) && Queue(after.wire, sid) == Queue(b.wire, sid)
  }

  predicate PartwayAt(here: Board, b: Board, sid: SessionId, waiting: bool) {
    if waiting then sid in here.pending && SameAt(here, b, sid)
    else FlushedAt(here, b, sid) && (sid in here.pending ==> here.pending[sid] != [])
  }

  /** A flush that has still to visit the sessions in `todo`. */
  ghost predicate Partway(here: Board, b: Board, todo: set<SessionId>) {
    && here.tickets == b.tickets && here.forwarded == b.forwarded
    && forall sid: SessionId :: PartwayAt(here, b, sid, sid in todo)
  }

  ghost predicate OneFlushed(after: Board, here: Board, sid: SessionId) {
    && after.tickets == here.tickets && after.forwarded == here.forwarded
    && FlushedAt(after, here, sid) && (sid in after.pending ==> after.pending[sid] != [])
    && forall s: SessionId | s != sid :: SameAt(after, here, s)
  }

  lemma FlushStep(after: Board, here: Board, b: Board, todo: set<SessionId>, sid: SessionId)
    requires Partway(here, b, todo) && sid in todo && OneFlushed(after, here, sid)
    ensures Partway(after, b, todo - {sid})
  {
    forall s: SessionId ensures PartwayAt(after, b, s, s in todo - {sid}) {
      assert PartwayAt(here, b, s, s in todo);
      if s != sid { assert SameAt(after, here, s); }
    }
  }

  ghost predicate IsFlushOf(after: Board, b: Board) {
    && after.tickets == b.tickets && after.forwarded == b.forwarded
    && (forall sid: SessionId :: FlushedAt(after, b, sid))
    && (forall sid | sid in after.pending :: after.pending[sid] != [])
  }

  lemma FlushDone(after: Board, b: Board, todo: set<SessionId>)
    requires Partway(after, b, todo) && todo == {}
    ensures IsFlushOf(after, b)
  {
    forall sid: SessionId ensures FlushedAt(after, b, sid) && (sid in after.pending ==> after.pending[sid] != []) {
      assert PartwayAt(after, b, sid, sid in todo);
    }
  }

  // ---------- The sections under the order and status locks ----------

  class StatusQueues {
    var tickets: seq<Ticket>
    var pending: map<SessionId, seq<nat>>
    var forwarded: map<SessionId, nat>
    var wire: map<SessionId, seq<nat>>

    ghost function View(): Board
      reads this
    {
      Board(tickets, pending, forwarded, wire)
    }

    constructor ()
      ensures View() == Board([], map[], map[], map[])
    {
      tickets, pending, forwarded, wire := [], map[], map[], map[];
    }

    method Reserve(sid: SessionId) returns (t: nat)
      modifies this
      ensures t == |old(tickets)| && View() == Reserved(old(View()), sid)
    {
      t := |tickets|;
      tickets := tickets + [Ticket(sid, false, 0)];
      pending := pending[sid := Queue(pending, sid) + [t]];
    }

    method Arm(t: nat, n: nat)
      requires t < |tickets|
      modifies this
      ensures View() == Armed(old(View()), t, n)
    {
      tickets := tickets[t := tickets[t].(armed := true, seqNo := n)];
    }

    /** Takes a ticket out of its session's queue; a ticket not queued any more stays as it is. */
    method Cancel(t: nat)
      requires t < |tickets|
      modifies this
      ensures View() == Cancelled(old(View()), t)
    {
      var sid := tickets[t].session;
      var queue := Queue(pending, sid);
      var i := 0;
      while i < |queue| && queue[i] != t
        invariant 0 <= i <= |queue| && t !in queue[..i]
      {
        i := i + 1;
      }
      var rest := if i < |queue| then queue[..i] + queue[i + 1..] else queue;
      WithoutAt(queue, t, i);
      if rest == [] { pending := pending - {sid}; } else { pending := pending[sid := rest]; }
    }

    /** Writes every session's ready statuses, head first; sessions come in any order. */
    method FlushReady()
      modifies this
      ensures IsFlushOf(View(), old(View()))
    {
      ghost var before := View();
      var todo := pending.Keys;
      while todo != {}
        invariant Partway(View(), before, todo)
        decreases todo
      {
        var sid :| sid in todo;
        ghost var here := View();
        assert PartwayAt(here, before, sid, true);
        FlushSession(sid);
        FlushStep(View(), here, before, todo, sid);
        todo := todo - {sid};
      }
      FlushDone(View(), before, todo);
    }

    /** The inner loop of a flush. */
    method FlushSession(sid: SessionId)
      requires sid in pending
      modifies this
      ensures OneFlushed(View(), old(View()), sid)
    {
      var all, upTo := pending[sid], if sid in forwarded then forwarded[sid] else 0;
      var queue, written := all, Queue(wire, sid);
      ghost var n := 0;
      while queue != [] && Ready(tickets, queue[0], upTo)
        invariant 0 <= n <= |all| && queue == all[n..]
        invariant written == Queue(wire, sid) + all[..n]
        invariant forall k | 0 <= k < n :: Ready(tickets, all[k], upTo)
        decreases |queue|
      {
        written := written + [queue[0]];
        queue := queue[1..];
        n := n + 1;
      }
      assert n == ReadyCount(tickets, all, upTo);
      wire := wire[sid := written];
      if queue == [] { pending := pending - {sid}; } else { pending := pending[sid := queue]; }
    }

    method Advance(sid: SessionId, n: nat)
      modifies this
      ensures View() == Advanced(old(View()), sid, n)
    {
      if n > (if sid in forwarded then forwarded[sid] else 0) { forwarded := forwarded[sid := n]; }
    }
  }

  // ---------- All interleavings ----------

  /** An event on the wire, and how many statuses of its session were written before it. */
  datatype Mark = Mark(event: nat, written: nat)

  /**
   The goroutine that forwards the events of all sessions, one after another: it waits for
   the session's first reservation, is past that wait, holds the order lock between writing
   an event and flushing, or has given up because the server closed.
   */
  datatype Forwarder = Idle | Waiting(sid: SessionId, event: nat) | Cleared(sid: SessionId, event: nat)
    | Writing(sid: SessionId) | Stopped

  /**
   `debts` counts the arms and cancels whose flush is still to come; `open` is false once
   the server has closed.  History: the tickets `reserved` per session, those `dropped` by a
   cancel that found them, and the events written per session.
   */
  datatype State = State(
    b: Board,
    debts: nat,
    forwarder: Forwarder,
    open: bool,
    reserved: map<SessionId, seq<nat>>,
    dropped: set<nat>,
    marks: map<SessionId, seq<Mark>>)

  datatype Step =
    | Reserve(sid: SessionId)
    | Arm(t: nat, n: nat)
    | Cancel(t: nat)
    | Flush(after: Board)
    | Take(sid: SessionId, n: nat)
    | Pass
    | Raise(known: bool)
    | RaiseDone(after: Board)
    | Shut
    | GiveUp

  const Init := State(Board([], map[], map[], map[]), 0, Idle, true, map[], {}, map[])

  /** The wait ends when no status of the session is queued or the first one is armed. */
  predicate MayPass(b: Board, sid: SessionId) {
    var queue := Queue(b.pending, sid);
    queue == [] || (queue[0] < |b.tickets| && b.tickets[queue[0]].armed)
  }

  /**
   An event's session has a record from before its first reservation until the server
   closes; without one the event is written and nothing else happens.
   */
  ghost predicate Enabled(st: State, step: Step) {
    match step
    case Reserve(_) => true
    case Arm(t, _) => t < |st.b.tickets| && !st.b.tickets[t].armed
    case Cancel(t) => t < |st.b.tickets|
    case Flush(after) => st.debts > 0 && !st.forwarder.Writing? && IsFlushOf(after, st.b)
    case Take(_, _) => st.forwarder.Idle?
    case Pass => st.forwarder.Waiting? && MayPass(st.b, st.forwarder.sid)
    case Raise(known) => st.forwarder.Cleared? && (known || !st.open || st.forwarder.sid !in st.reserved)
    case RaiseDone(after) => st.forwarder.Writing? && IsFlushOf(after, st.b)
    case Shut => true
    case GiveUp => st.forwarder.Waiting? && !st.open
  }

  function Marked(st: State, sid: SessionId, n: nat): State {
    st.(marks := st.marks[sid := Queue(st.marks, sid) + [Mark(n, |Queue(st.b.wire, sid)|)]])
  }

  /** A step that is not enabled leaves the state as it is. */
  ghost function Do(st: State, step: Step): State {
    if !Enabled(st, step) then st else
    match step
    case Reserve(sid) =>
      st.(b := Reserved(st.b, sid), reserved := st.reserved[sid := Queue(st.reserved, sid) + [|st.b.tickets|]])
    case Arm(t, n) => st.(b := Armed(st.b, t, n), debts := st.debts + 1)
    case Cancel(t) =>
      st.(b := Cancelled(st.b, t), debts := st.debts + 1,
          dropped := if t in Queue(st.b.pending, st.b.tickets[t].session) then st.dropped + {t} else st.dropped)
    case Flush(after) => st.(b := after, debts := st.debts - 1)
    case Take(sid, n) => st.(forwarder := Waiting(sid, n))
    case Pass => st.(forwarder := Cleared(st.forwarder.sid, st.forwarder.event))
    case Raise(known) =>
      var (sid, n) := (st.forwarder.sid, st.forwarder.event);
      if known then Marked(st, sid, n).(b := Advanced(st.b, sid, n), forwarder := Writing(sid))
      else Marked(st, sid, n).(forwarder := Idle)
    case RaiseDone(after) => st.(b := after, forwarder := Idle)
    case Shut => st.(open := false)
    case GiveUp => st.(forwarder := Stopped)
  }

  ghost function Run(steps: seq<Step>): State {
    if steps == [] then Init else Do(Run(steps[..|steps| - 1]), steps[|steps| - 1])
  }

  /** The reservations that no cancel took away. */
  function Kept(reserved: seq<nat>, dropped: set<nat>): (kept: seq<nat>)
    ensures forall t | t in kept :: t in reserved && t !in dropped
  {
    if reserved == [] then []
    else if reserved[0] in dropped then Kept(reserved[1..], dropped)
    else [reserved[0]] + Kept(reserved[1..], dropped)
  }

  predicate Increasing(s: seq<nat>) {
    forall i, j | 0 <= i < j < |s| :: s[i] < s[j]
  }

  lemma {:induction false} KeptSnoc(reserved: seq<nat>, dropped: set<nat>, t: nat)
    requires t !in dropped
    ensures Kept(reserved + [t], dropped) == Kept(reserved, dropped) + [t]
  {
    if reserved == [] {
      assert Kept([t], dropped) == [t] + Kept([], dropped);
    } else {
      assert (reserved + [t])[1..] == reserved[1..] + [t];
      KeptSnoc(reserved[1..], dropped, t);
    }
  }

  lemma {:induction false} KeptWithout(reserved: seq<nat>, dropped: set<nat>, t: nat)
    requires Increasing(reserved)
    ensures Kept(reserved, dropped + {t}) == Without(Kept(reserved, dropped), t)
  {
    if reserved != [] {
      KeptWithout(reserved[1..], dropped, t);
      assert forall k | 0 < k < |reserved| :: reserved[k] > reserved[0];
      if reserved[0] == t {
        WithoutAbsent(Kept(reserved[1..], dropped), t);
        if t !in dropped { assert Kept(reserved, dropped)[1..] == Kept(reserved[1..], dropped); }
      } else if reserved[0] !in dropped {
        assert Kept(reserved, dropped)[1..] == Kept(reserved[1..], dropped);
      }
    }
  }

  lemma {:induction false} WithoutAbsent(s: seq<nat>, t: nat)
    requires t !in s
    ensures Without(s, t) == s
  {
    if s != [] { WithoutAbsent(s[1..], t); }
  }

  lemma {:induction false} WithoutAppend(a: seq<nat>, b: seq<nat>, t: nat)
    requires t !in a
    ensures Without(a + b, t) == a + Without(b, t)
  {
    if a == [] {
      assert a + b == b;
    } else {
      assert (a + b)[1..] == a[1..] + b;
      WithoutAppend(a[1..], b, t);
    }
  }

  lemma {:induction false} KeptIncreasing(reserved: seq<nat>, dropped: set<nat>)
    requires Increasing(reserved)
    ensures Increasing(Kept(reserved, dropped))
  {
    if reserved != [] {
      KeptIncreasing(reserved[1..], dropped);
      var rest := Kept(reserved[1..], dropped);
      forall k | 0 <= k < |rest| ensures reserved[0] < rest[k] {
        assert rest[k] in reserved[1..];
      }
    }
  }

  /** One session's tickets: the reservations kept are the written statuses and then the queue. */
  predicate QueuesRight(st: State, sid: SessionId, reserved: seq<nat>, wire: seq<nat>, queue: seq<nat>) {
    && Kept(reserved, st.dropped) == wire + queue
    && Increasing(reserved)
    && (forall t | t in reserved :: t < |st.b.tickets| && st.b.tickets[t].session == sid)
    && (forall t | t in wire :: Ready(st.b.tickets, t, Forwarded(st.b, sid)))
    && (queue != [] && Ready(st.b.tickets, queue[0], Forwarded(st.b, sid)) ==> st.debts > 0 || st.forwarder == Writing(sid))
  }

  /** What holds of session `sid` in every reachable state. */
  predicate Right(st: State, sid: SessionId) {
    QueuesRight(st, sid, Queue(st.reserved, sid), Queue(st.b.wire, sid), Queue(st.b.pending, sid))
  }

  ghost predicate Inv(st: State) {
    (forall sid: SessionId :: Right(st, sid)) && (forall t | t in st.dropped :: t < |st.b.tickets|)
  }

  lemma ReserveKeepsRight(st: State, s: SessionId, sid: SessionId)
    requires Inv(st)
    ensures Right(Do(st, Reserve(s)), sid)
  {
    assert Right(st, sid);
    if s == sid {
      NewestIsLast(st, Do(st, Reserve(s)), sid, Queue(st.reserved, sid), Queue(st.b.wire, sid), Queue(st.b.pending, sid));
    }
  }

  lemma IncreasingSnoc(s: seq<nat>, t: nat)
    requires Increasing(s) && forall k | 0 <= k < |s| :: s[k] < t
    ensures Increasing(s + [t])
  {}

  lemma NewestIsLast(st: State, next: State, sid: SessionId, reserved: seq<nat>, wire: seq<nat>, queue: seq<nat>)
    requires QueuesRight(st, sid, reserved, wire, queue)
    requires forall t | t in st.dropped :: t < |st.b.tickets|
    requires next.b.tickets == st.b.tickets + [Ticket(sid, false, 0)] && next.dropped == st.dropped
    requires next.b.forwarded == st.b.forwarded && next.debts == st.debts && next.forwarder == st.forwarder
    ensures QueuesRight(next, sid, reserved + [|st.b.tickets|], wire, queue + [|st.b.tickets|])
  {
    var t := |st.b.tickets|;
    KeptSnoc(reserved, st.dropped, t);
    assert (wire + queue) + [t] == wire + (queue + [t]);
    forall k | 0 <= k < |reserved| ensures reserved[k] < t { assert reserved[k] in reserved; }
    IncreasingSnoc(reserved, t);
  }

  lemma ArmKeepsRight(st: State, t: nat, n: nat, sid: SessionId)
    requires Inv(st) && Enabled(st, Arm(t, n))
    ensures Right(Do(st, Arm(t, n)), sid)
  {
    assert Right(st, sid);
  }

  lemma CancelKeepsRight(st: State, t: nat, sid: SessionId)
    requires Inv(st) && Enabled(st, Cancel(t))
    ensures Right(Do(st, Cancel(t)), sid)
  {
    assert Right(st, sid);
    var own := st.b.tickets[t].session;
    var reserved, queue, wire := Queue(st.reserved, sid), Queue(st.b.pending, sid), Queue(st.b.wire, sid);
    if sid != own {
      KeptWithout(reserved, st.dropped, t);
      WithoutAbsent(Kept(reserved, st.dropped), t);
    } else if t !in queue {
      WithoutAbsent(queue, t);
    } else {
      KeptWithout(reserved, st.dropped, t);
      KeptIncreasing(reserved, st.dropped);
      QueuedIsNotBefore(wire, queue, t);
      WithoutAppend(wire, queue, t);
    }
  }

  lemma QueuedIsNotBefore(wire: seq<nat>, queue: seq<nat>, t: nat)
    requires Increasing(wire + queue) && t in queue
    ensures t !in wire
  {
    var k :| 0 <= k < |queue| && queue[k] == t;
    assert (wire + queue)[|wire| + k] == t;
    assert forall j | 0 <= j < |wire| :: (wire + queue)[j] == wire[j];
  }

  lemma FlushKeepsRight(st: State, step: Step, sid: SessionId)
    requires Inv(st) && Enabled(st, step) && (step.Flush? || step.RaiseDone?)
    ensures Right(Do(st, step), sid)
  {
    assert Right(st, sid) && FlushedAt(step.after, st.b, sid);
    var next := Do(st, step);
    var wire, queue := Queue(st.b.wire, sid), Queue(st.b.pending, sid);
    FlushedQueuesRight(st, next, sid, Queue(st.reserved, sid), wire, queue);
  }

  lemma FlushedQueuesRight(st: State, next: State, sid: SessionId, reserved: seq<nat>, wire: seq<nat>, queue: seq<nat>)
    requires QueuesRight(st, sid, reserved, wire, queue)
    requires next.dropped == st.dropped && next.b.tickets == st.b.tickets && next.b.forwarded == st.b.forwarded
    ensures var n := ReadyCount(st.b.tickets, queue, Forwarded(st.b, sid));
      QueuesRight(next, sid, reserved, wire + queue[..n], queue[n..])
  {
    var n := ReadyCount(st.b.tickets, queue, Forwarded(st.b, sid));
    assert wire + queue == (wire + queue[..n]) + queue[n..];
  }

  lemma RaiseKeepsRight(st: State, known: bool, sid: SessionId)
    requires Inv(st) && Enabled(st, Raise(known))
    ensures Right(Do(st, Raise(known)), sid)
  {
    assert Right(st, sid);
  }

  lemma StepKeepsRight(st: State, step: Step, sid: SessionId)
    requires Inv(st) && Enabled(st, step)
    ensures Right(Do(st, step), sid)
  {
    match step
    case Reserve(s) => ReserveKeepsRight(st, s, sid);
    case Arm(t, n) => ArmKeepsRight(st, t, n, sid);
    case Cancel(t) => CancelKeepsRight(st, t, sid);
    case Raise(known) => RaiseKeepsRight(st, known, sid);
    case Flush(_) => FlushKeepsRight(st, step, sid);
    case RaiseDone(_) => FlushKeepsRight(st, step, sid);
    case _ => assert Right(st, sid);
  }

  lemma {:induction false} RunKeepsInv(steps: seq<Step>)
    ensures Inv(Run(steps))
  {
    if steps == [] {
      assert forall sid: SessionId :: Right(Init, sid);
    } else {
      var st, step := Run(steps[..|steps| - 1]), steps[|steps| - 1];
      RunKeepsInv(steps[..|steps| - 1]);
      if Enabled(st, step) {
        forall sid: SessionId ensures Right(Do(st, step), sid) { StepKeepsRight(st, step, sid); }
      }
    }
  }

  // ---------- What every run guarantees ----------

  /**
   Per session, the statuses written are the first uncancelled reservations, in reservation
   order and each once; the rest of them is still queued.
   */
  lemma WrittenInReservationOrder(steps: seq<Step>, sid: SessionId)
    ensures var st := Run(steps);
      && Queue(st.b.wire, sid) + Queue(st.b.pending, sid) == Kept(Queue(st.reserved, sid), st.dropped)
      && Increasing(Queue(st.b.wire, sid) + Queue(st.b.pending, sid))
  {
    RunKeepsInv(steps);
    assert Right(Run(steps), sid);
    KeptIncreasing(Queue(Run(steps).reserved, sid), Run(steps).dropped);
  }

  /** A written status was armed, the forwarder had reached its event, and it was never cancelled. */
  lemma WrittenWhenForwarded(steps: seq<Step>, sid: SessionId, t: nat)
    requires t in Queue(Run(steps).b.wire, sid)
    ensures var st := Run(steps);
      t < |st.b.tickets| && st.b.tickets[t].armed && st.b.tickets[t].seqNo <= Forwarded(st.b, sid) && t !in st.dropped
  {
    RunKeepsInv(steps);
    var st := Run(steps);
    assert Right(st, sid);
    assert t in Queue(st.b.wire, sid) + Queue(st.b.pending, sid);
  }

  /** Once every arm, cancel and advance has completed, no session has a ready status left to write. */
  lemma NoReadyStatusIsLeft(steps: seq<Step>, sid: SessionId)
    requires Run(steps).debts == 0 && !Run(steps).forwarder.Writing?
    ensures var st := Run(steps);
      var queue := Queue(st.b.pending, sid);
      queue != [] ==> queue[0] < |st.b.tickets| && (!st.b.tickets[queue[0]].armed || st.b.tickets[queue[0]].seqNo > Forwarded(st.b, sid))
  {
    RunKeepsInv(steps);
    assert Right(Run(steps), sid);
  }
}
