/**
 The Team mailbox outbox (cmd/sta/team.go).  A message is queued in the lead's log, receipted
 in its target's log, acknowledged in the lead's log, and only then acknowledged on the
 in-memory board.  Deliveries of many messages interleave, any append may fail, and the
 process may stop between any two writes and restart from the logs.
 */
module TeamMailbox {
  /** Sessions and message ids are only compared, so that numbers stand for them. */
  datatype Event = Queued(msg: nat) | Receipt(msg: nat) | Delivered(msg: nat, target: nat)

  /** Where one delivery stands.  The first five belong to the dispatch body. */
  datatype Stage =
    | Dispatching   // about to look for the receipt
    | Sending       // found none, about to put the message in the target's inbox
    | Receipted     // about to look for the delivered event
    | Recording     // found none, about to append it
    | Recorded      // about to return from the dispatch
    | Following     // coalesced with a dispatch in flight
    | Confirming    // dispatch returned "delivered"; about to look for the delivered event again
    | Amending      // found none, about to append it
    | Confirmed     // about to acknowledge the board

  /** One event in one session's log.  The protocol looks events up; it never uses their order. */
  datatype Entry = Entry(session: nat, event: Event)

  datatype Worker = Worker(msg: nat, stage: Stage)

  /**
   `targets` and the log entries survive a crash; the board (message to "acknowledged"), the workers
   and the set of dispatches that have returned "delivered" do not.  The lead is a session
   too, and may be the target of a message.
   */
  datatype State = State(
    lead: nat,
    targets: map<nat, nat>,
    entries: multiset<Entry>,
    board: map<nat, bool>,
    workers: map<nat, Worker>,
    returned: set<nat>)

  datatype Step =
    | Post(msg: nat, target: nat)     // the board takes a new message
    | Queue(msg: nat)                 // its queued event is appended
    | Withdraw(msg: nat)              // or that append fails
    | Begin(w: nat, msg: nat)         // a send or a redelivery pass dispatches a message
    | Advance(w: nat)                 // the next read or write of a delivery succeeds
    | Fail(w: nat)                    // or fails, or the caller gives up
    | Crash(board: map<nat, bool>)    // restart with the board rebuilt from the lead's log

  function Init(lead: nat): State { State(lead, map[], multiset{}, map[], map[], {}) }

  /** How often an event occurs in a session's log. */
  function Count(st: State, session: nat, e: Event): nat {
    st.entries[Entry(session, e)]
  }

  function Target(st: State, msg: nat): nat {
    if msg in st.targets then st.targets[msg] else 0
  }

  function Receipts(st: State, msg: nat): nat { Count(st, Target(st, msg), Receipt(msg)) }

  function Deliveries(st: State, msg: nat): nat { Count(st, st.lead, Delivered(msg, Target(st, msg))) }

  predicate InBody(stage: Stage) {
    stage.Dispatching? || stage.Sending? || stage.Receipted? || stage.Recording? || stage.Recorded?
  }

  predicate IsBody(st: State, w: nat, msg: nat) {
    w in st.workers && st.workers[w].msg == msg && InBody(st.workers[w].stage)
  }

  predicate BodyInFlight(st: State, msg: nat) {
    exists w | w in st.workers :: IsBody(st, w, msg)
  }

  predicate Enabled(st: State, step: Step) {
    match step
    case Post(m, _) => m !in st.targets
    case Queue(m) => m in st.board && m in st.targets
    case Withdraw(m) => m in st.board
    case Begin(w, m) => w !in st.workers && m in st.targets
    case Advance(w) => w in st.workers && (st.workers[w].stage.Following? ==> st.workers[w].msg in st.returned)
    case Fail(w) => w in st.workers
    // A rebuilt board knows messages that were posted, and none as delivered without its event.
    case Crash(board) => forall m | m in board :: m in st.targets && (board[m] ==> Deliveries(st, m) > 0)
  }

  /** The entries a step appends to the logs. */
  function Written(st: State, step: Step): multiset<Entry>
    requires Enabled(st, step)
  {
    match step
    case Queue(m) => multiset{Entry(st.lead, Queued(m))}
    case Advance(w) =>
      var m := st.workers[w].msg;
      (match st.workers[w].stage
       case Sending => multiset{Entry(Target(st, m), Receipt(m))}
       case Recording => multiset{Entry(st.lead, Delivered(m, Target(st, m)))}
       case Amending => multiset{Entry(st.lead, Delivered(m, Target(st, m)))}
       case _ => multiset{})
    case _ => multiset{}
  }

  /** Where a delivery of `m` goes next; a confirmed one ends instead. */
  function Next(st: State, m: nat, stage: Stage): Stage {
    match stage
    case Dispatching => if Receipts(st, m) > 0 then Receipted else Sending
    case Sending => Receipted
    case Receipted => if Deliveries(st, m) > 0 then Recorded else Recording
    case Recording => Recorded
    case Recorded => Confirming
    case Following => Confirming
    case Confirming => if Deliveries(st, m) > 0 then Confirmed else Amending
    case Amending => Confirmed
    case Confirmed => Confirmed
  }

  /** The effect of a step on everything but the logs. */
  function Control(st: State, step: Step): State
    requires Enabled(st, step)
  {
    match step
    case Post(m, target) => st.(targets := st.targets[m := target], board := st.board[m := false])
    case Queue(_) => st
    case Withdraw(m) => st.(board := st.board - {m})
    case Begin(w, m) => st.(workers := st.workers[w := Worker(m, if BodyInFlight(st, m) then Following else Dispatching)])
    case Advance(w) =>
      var m, stage := st.workers[w].msg, st.workers[w].stage;
      if stage.Confirmed?
      then st.(workers := st.workers - {w}, board := if m in st.board then st.board[m := true] else st.board)
      else st.(workers := st.workers[w := Worker(m, Next(st, m, stage))],
               returned := if stage.Recorded? then st.returned + {m} else st.returned)
    case Fail(w) => st.(workers := st.workers - {w})
    case Crash(board) => st.(board := board, workers := map[], returned := {})
  }

  /** A step that is not enabled leaves the state as it is. */
  function Do(st: State, step: Step): State {
    if !Enabled(st, step) then st
    else Control(st, step).(entries := st.entries + Written(st, step))
  }

  function Run(lead: nat, steps: seq<Step>): State {
    if steps == [] then Init(lead) else Do(Run(lead, steps[..|steps| - 1]), steps[|steps| - 1])
  }

  // ---------- The invariant ----------

  /** What holds of message `m` in every reachable state. */
  predicate MessageRight(st: State, m: nat) {
    && Receipts(st, m) <= 1
    && Deliveries(st, m) <= Receipts(st, m)
    && (m in st.board && st.board[m] ==> Deliveries(st, m) == 1)
    && (m in st.returned ==> Deliveries(st, m) == 1)
    && (m in st.board || m in st.returned ==> m in st.targets)
    && (m !in st.targets ==> Receipts(st, m) == 0 && Deliveries(st, m) == 0)
  }

  predicate WorkerRight(st: State, w: nat) {
    w in st.workers ==>
      var m := st.workers[w].msg;
      && m in st.targets
      && match st.workers[w].stage
         case Dispatching => true
         case Following => true
         case Sending => Receipts(st, m) == 0
         case Receipted => Receipts(st, m) == 1
         case Recording => Receipts(st, m) == 1 && Deliveries(st, m) == 0
         case Amending => false
         case _ => Deliveries(st, m) == 1
  }

  predicate OneBody(st: State, w: nat, v: nat) {
    (w in st.workers && v in st.workers && InBody(st.workers[w].stage) && InBody(st.workers[v].stage)
      && st.workers[w].msg == st.workers[v].msg) ==> w == v
  }

  /** Receipts stand only in the target's log, delivered events only in the lead's. */
  predicate InPlace(st: State, m: nat, session: nat, target: nat) {
    && (Count(st, session, Receipt(m)) > 0 ==> m in st.targets && st.targets[m] == session)
    && (Count(st, session, Delivered(m, target)) > 0 ==> m in st.targets && st.targets[m] == target && session == st.lead)
  }

  ghost predicate Inv(st: State) {
    && (forall m: nat :: MessageRight(st, m))
    && (forall w: nat :: WorkerRight(st, w))
    && (forall w: nat, v: nat :: OneBody(st, w, v))
    && (forall m: nat, s: nat, t: nat :: InPlace(st, m, s, t))
  }

  /** A new message has no receipt and no delivered event anywhere yet. */
  lemma PostKeepsMessageRight(st: State, step: Step, m: nat)
    requires Inv(st) && Enabled(st, step) && step.Post?
    ensures MessageRight(Do(st, step), m)
  {
    assert MessageRight(st, m);
    var target := Target(Do(st, step), m);
    assert InPlace(st, m, target, target) && InPlace(st, m, st.lead, target);
  }

  lemma AdvanceKeepsMessageRight(st: State, step: Step, m: nat)
    requires Inv(st) && Enabled(st, step) && step.Advance?
    ensures MessageRight(Do(st, step), m)
  {
    assert MessageRight(st, m) && WorkerRight(st, step.w);
  }

  lemma StepKeepsMessageRight(st: State, step: Step, m: nat)
    requires Inv(st) && Enabled(st, step)
    ensures MessageRight(Do(st, step), m)
  {
    if step.Post? {
      PostKeepsMessageRight(st, step, m);
    } else if step.Advance? {
      AdvanceKeepsMessageRight(st, step, m);
    } else {
      assert MessageRight(st, m);
    }
  }

  /** A worker's own step. */
  lemma AdvanceKeepsOwnStage(st: State, w: nat)
    requires Inv(st) && Enabled(st, Advance(w))
    ensures WorkerRight(Do(st, Advance(w)), w)
  {
    assert WorkerRight(st, w) && MessageRight(st, st.workers[w].msg);
  }

  /** Everybody else's: two deliveries of one message are never both in the dispatch body. */
  lemma AdvanceKeepsOtherStage(st: State, w: nat, v: nat)
    requires Inv(st) && Enabled(st, Advance(w)) && v in st.workers && v != w
    ensures WorkerRight(Do(st, Advance(w)), v)
  {
    assert WorkerRight(st, v) && WorkerRight(st, w) && OneBody(st, v, w);
    assert MessageRight(st, st.workers[v].msg);
    assert Do(st, Advance(w)).workers[v] == st.workers[v];
  }

  lemma StepKeepsWorkerRight(st: State, step: Step, v: nat)
    requires Inv(st) && Enabled(st, step)
    ensures WorkerRight(Do(st, step), v)
  {
    assert WorkerRight(st, v);
    if step.Advance? && v in st.workers {
      if v == step.w { AdvanceKeepsOwnStage(st, v); } else { AdvanceKeepsOtherStage(st, step.w, v); }
    }
  }

  /** A delivery joins the body of its message if one is in flight. */
  lemma BeginKeepsOneBody(st: State, step: Step, u: nat, v: nat)
    requires OneBody(st, u, v) && Enabled(st, step) && step.Begin?
    ensures OneBody(Do(st, step), u, v)
  {
    assert u in st.workers && IsBody(st, u, step.msg) ==> BodyInFlight(st, step.msg);
    assert v in st.workers && IsBody(st, v, step.msg) ==> BodyInFlight(st, step.msg);
  }

  /** No other step leads into a body that was not one before. */
  lemma BodiesStayBodies(st: State, step: Step, v: nat)
    requires Enabled(st, step) && !step.Begin?
    ensures var next := Do(st, step);
      v in next.workers && InBody(next.workers[v].stage) ==>
        v in st.workers && InBody(st.workers[v].stage) && next.workers[v].msg == st.workers[v].msg
  {}

  lemma StepKeepsOneBody(st: State, step: Step, u: nat, v: nat)
    requires Inv(st) && Enabled(st, step)
    ensures OneBody(Do(st, step), u, v)
  {
    assert OneBody(st, u, v);
    if step.Begin? {
      BeginKeepsOneBody(st, step, u, v);
    } else {
      BodiesStayBodies(st, step, u);
      BodiesStayBodies(st, step, v);
    }
  }

  lemma StepKeepsInPlace(st: State, step: Step, m: nat, s: nat, t: nat)
    requires Inv(st) && Enabled(st, step)
    ensures InPlace(Do(st, step), m, s, t)
  {
    assert InPlace(st, m, s, t);
    if step.Advance? { assert WorkerRight(st, step.w); }
  }

  lemma {:induction false} RunKeepsInv(lead: nat, steps: seq<Step>)
    ensures Inv(Run(lead, steps)) && Run(lead, steps).lead == lead
  {
    if steps == [] {
      assert forall m: nat :: MessageRight(Init(lead), m);
      assert forall m: nat, s: nat, t: nat :: InPlace(Init(lead), m, s, t);
    } else {
      var st, step := Run(lead, steps[..|steps| - 1]), steps[|steps| - 1];
      RunKeepsInv(lead, steps[..|steps| - 1]);
      if Enabled(st, step) {
        forall m: nat ensures MessageRight(Do(st, step), m) { StepKeepsMessageRight(st, step, m); }
        forall v: nat ensures WorkerRight(Do(st, step), v) { StepKeepsWorkerRight(st, step, v); }
        forall u: nat, v: nat ensures OneBody(Do(st, step), u, v) { StepKeepsOneBody(st, step, u, v); }
        forall m: nat, s: nat, t: nat ensures InPlace(Do(st, step), m, s, t) { StepKeepsInPlace(st, step, m, s, t); }
      }
    }
  }

  // ---------- What every run guarantees, crashes included ----------

  /** A delivered event in the lead's log implies the receipt in the log of the target it names. */
  lemma DeliveredImpliesReceipt(lead: nat, steps: seq<Step>, m: nat, session: nat, target: nat)
    requires Count(Run(lead, steps), session, Delivered(m, target)) > 0
    ensures session == lead && Count(Run(lead, steps), target, Receipt(m)) == 1
  {
    RunKeepsInv(lead, steps);
    var st := Run(lead, steps);
    assert InPlace(st, m, session, target) && MessageRight(st, m);
  }

  /** A message is receipted at most once, in one log, and acknowledged at most once, for one target. */
  lemma AtMostOnce(lead: nat, steps: seq<Step>, m: nat, s: nat, t: nat)
    ensures var st := Run(lead, steps);
      && Count(st, s, Receipt(m)) <= 1
      && Count(st, s, Delivered(m, t)) <= 1
      && (Count(st, s, Receipt(m)) > 0 && Count(st, t, Receipt(m)) > 0 ==> s == t)
      && (Count(st, lead, Delivered(m, s)) > 0 && Count(st, lead, Delivered(m, t)) > 0 ==> s == t)
  {
    RunKeepsInv(lead, steps);
    var st := Run(lead, steps);
    assert MessageRight(st, m) && InPlace(st, m, s, t) && InPlace(st, m, t, s) && InPlace(st, m, lead, s) && InPlace(st, m, lead, t);
  }

  /** The board shows a message as acknowledged only after its delivered event is in the log. */
  lemma AckImpliesDelivered(lead: nat, steps: seq<Step>, m: nat)
    requires var st := Run(lead, steps); m in st.board && st.board[m]
    ensures var st := Run(lead, steps); m in st.targets && Count(st, lead, Delivered(m, st.targets[m])) == 1
  {
    RunKeepsInv(lead, steps);
    assert MessageRight(Run(lead, steps), m);
  }

  /** Whoever looks for the delivered event after a dispatch that returned "delivered" finds it, and never appends it again. */
  lemma {:induction false} ConfirmationFindsTheEvent(lead: nat, steps: seq<Step>, w: nat)
    requires w in Run(lead, steps).workers
    ensures var st := Run(lead, steps);
      && !st.workers[w].stage.Amending?
      && (st.workers[w].stage.Confirming? ==> Do(st, Advance(w)).workers[w].stage.Confirmed?)
  {
    RunKeepsInv(lead, steps);
    assert WorkerRight(Run(lead, steps), w);
  }

  // ---------- Deliveries can succeed ----------

  lemma RunSnoc(lead: nat, steps: seq<Step>, step: Step)
    ensures Run(lead, steps + [step]) == Do(Run(lead, steps), step)
  {
    assert (steps + [step])[..|steps|] == steps;
  }

  /** How many successful steps a delivery is from its end, at most. */
  function Distance(stage: Stage): nat {
    match stage
    case Dispatching => 8
    case Sending => 7
    case Receipted => 6
    case Recording => 5
    case Recorded => 4
    case Following => 4
    case Confirming => 3
    case Amending => 2
    case Confirmed => 1
  }

  /** A delivery of `m` has ended: the worker is gone, the board acknowledges what it has, and nothing else of it has changed. */
  predicate EndedWell(st: State, next: State, w: nat, m: nat) {
    && next.workers == st.workers - {w} && next.targets == st.targets
    && next.board == if m in st.board then st.board[m := true] else st.board
  }

  lemma OneStepOn(st: State, w: nat)
    requires Inv(st) && Enabled(st, Advance(w)) && !st.workers[w].stage.Confirmed?
    ensures var next := Do(st, Advance(w));
      && w in next.workers && next.workers[w].msg == st.workers[w].msg
      && Distance(next.workers[w].stage) < Distance(st.workers[w].stage) && !next.workers[w].stage.Following?
      && next.workers - {w} == st.workers - {w} && next.targets == st.targets && next.board == st.board
  {
    assert WorkerRight(st, w);
  }

  lemma {:induction false} CanEndWell(lead: nat, steps: seq<Step>, w: nat) returns (more: seq<Step>)
    requires var st := Run(lead, steps); w in st.workers && (st.workers[w].stage.Following? ==> st.workers[w].msg in st.returned)
    ensures var st := Run(lead, steps); EndedWell(st, Run(lead, steps + more), w, st.workers[w].msg)
    decreases Distance(Run(lead, steps).workers[w].stage)
  {
    RunKeepsInv(lead, steps);
    RunSnoc(lead, steps, Advance(w));
    if Run(lead, steps).workers[w].stage.Confirmed? {
      more := [Advance(w)];
    } else {
      OneStepOn(Run(lead, steps), w);
      var rest := CanEndWell(lead, steps + [Advance(w)], w);
      more := [Advance(w)] + rest;
      assert steps + more == steps + [Advance(w)] + rest;
    }
  }

  /**
   Whatever has happened to a message, crashes and failed appends included: if no dispatch of
   it is in flight, a delivery that meets no further failure ends with one receipt in the
   target's log and one delivered event in the lead's, and with the message acknowledged on
   the board, if it is there.
   */
  lemma DeliveryCanSucceed(lead: nat, steps: seq<Step>, w: nat, m: nat) returns (more: seq<Step>)
    requires var st := Run(lead, steps); m in st.targets && w !in st.workers && !BodyInFlight(st, m)
    ensures var st, next := Run(lead, steps), Run(lead, steps + more);
      && next.workers == st.workers && next.board == (if m in st.board then st.board[m := true] else st.board)
      && next.targets == st.targets
      && (m in st.board ==> Count(next, lead, Delivered(m, st.targets[m])) == 1 && Count(next, st.targets[m], Receipt(m)) == 1)
  {
    var st := Run(lead, steps);
    RunSnoc(lead, steps, Begin(w, m));
    var begun := steps + [Begin(w, m)];
    assert Run(lead, begun).workers == st.workers[w := Worker(m, Dispatching)];
    var rest := CanEndWell(lead, begun, w);
    more := [Begin(w, m)] + rest;
    assert steps + more == begun + rest;
    assert Run(lead, begun).workers - {w} == st.workers;
    if m in st.board {
      AckImpliesDelivered(lead, steps + more, m);
      DeliveredImpliesReceipt(lead, steps + more, m, lead, st.targets[m]);
    }
  }

  /** A dispatch that fails, at whatever step, can be repeated. */
  lemma FailedDeliveryCanBeRepeated(lead: nat, steps: seq<Step>, w: nat) returns (more: seq<Step>)
    requires w in Run(lead, steps).workers && InBody(Run(lead, steps).workers[w].stage) && Run(lead, steps).workers[w].msg in Run(lead, steps).board
    ensures var m, last := Run(lead, steps).workers[w].msg, Run(lead, steps + [Fail(w)] + more);
      && m in last.targets && m in last.board && last.board[m] && w !in last.workers
      && Count(last, lead, Delivered(m, last.targets[m])) == 1 && Count(last, last.targets[m], Receipt(m)) == 1
  {
    var st, m := Run(lead, steps), Run(lead, steps).workers[w].msg;
    RunKeepsInv(lead, steps);
    assert WorkerRight(st, w);
    RunSnoc(lead, steps, Fail(w));
    forall v: nat ensures !IsBody(Run(lead, steps + [Fail(w)]), v, m) { assert OneBody(st, w, v); }
    more := DeliveryCanSucceed(lead, steps + [Fail(w)], w, m);
  }

  /** So a crash loses no message that the rebuilt board still shows as pending. */
  lemma PendingSurvivesCrash(lead: nat, steps: seq<Step>, board: map<nat, bool>, m: nat) returns (more: seq<Step>)
    requires Enabled(Run(lead, steps), Crash(board)) && m in board
    ensures var st, next := Run(lead, steps), Run(lead, steps + [Crash(board)] + more);
      && next.board == board[m := true] && m in st.targets
      && Count(next, lead, Delivered(m, st.targets[m])) == 1 && Count(next, st.targets[m], Receipt(m)) == 1
  {
    RunSnoc(lead, steps, Crash(board));
    more := DeliveryCanSucceed(lead, steps + [Crash(board)], 0, m);
  }

  /** And a new message is pending on the board, in no log yet, until it is delivered. */
  lemma NewMessageCanBeDelivered(lead: nat, steps: seq<Step>, m: nat, target: nat, w: nat) returns (more: seq<Step>)
    requires m !in Run(lead, steps).targets && w !in Run(lead, steps).workers
    ensures var next := Run(lead, steps + [Post(m, target)]);
      && next.board == Run(lead, steps).board[m := false]
      && Count(next, lead, Delivered(m, target)) == 0 && Count(next, target, Receipt(m)) == 0
    ensures var last := Run(lead, steps + [Post(m, target)] + more);
      && m in last.board && last.board[m]
      && Count(last, lead, Delivered(m, target)) == 1 && Count(last, target, Receipt(m)) == 1
  {
    RunSnoc(lead, steps, Post(m, target));
    var posted := steps + [Post(m, target)];
    RunKeepsInv(lead, steps);
    RunKeepsInv(lead, posted);
    var st := Run(lead, steps);
    assert InPlace(st, m, lead, target) && InPlace(st, m, target, target);
    forall v | v in st.workers ensures st.workers[v].msg != m { assert WorkerRight(st, v); }
    more := DeliveryCanSucceed(lead, posted, w, m);
  }

  // ---------- A redelivery pass ----------

  /** The two entries that the delivery of a message in `todo` may append. */
  predicate BelongsTo(e: Entry, lead: nat, targets: map<nat, nat>, todo: set<nat>) {
    match e.event
    case Receipt(m) => m in todo && m in targets && e.session == targets[m]
    case Delivered(m, target) => m in todo && m in targets && target == targets[m] && e.session == lead
    case Queued(_) => false
  }

  /** A new delivered event has its receipt. */
  predicate HasItsReceipt(e: Entry, entries: multiset<Entry>) {
    e.event.Delivered? ==> Entry(e.event.target, Receipt(e.event.msg)) in entries
  }

  /**
   What deliveries of the messages in `todo` may append: an entry of one of them that was
   missing, once, and a delivered event only beside its receipt.
   */
  ghost predicate Appends(before: multiset<Entry>, after: multiset<Entry>, lead: nat, targets: map<nat, nat>, todo: set<nat>) {
    forall e: Entry :: AppendsAt(before, after, lead, targets, todo, e)
  }

  predicate AppendsAt(before: multiset<Entry>, after: multiset<Entry>, lead: nat, targets: map<nat, nat>, todo: set<nat>, e: Entry) {
    || after[e] == before[e]
    || (before[e] == 0 && after[e] == 1 && BelongsTo(e, lead, targets, todo) && HasItsReceipt(e, after))
  }

  /** The entry, if it is new. */
  function IfNew(before: multiset<Entry>, after: multiset<Entry>, e: Entry): multiset<Entry> {
    if e !in before && e in after then multiset{e} else multiset{}
  }

  /** One delivery of a message appends exactly what is new of its two entries, the receipt first. */
  predicate Dispatched(before: multiset<Entry>, after: multiset<Entry>, lead: nat, m: nat, target: nat) {
    var receipt, delivered := Entry(target, Receipt(m)), Entry(lead, Delivered(m, target));
    && after == before + IfNew(before, after, receipt) + IfNew(before, after, delivered)
    && (IfNew(before, after, delivered) != multiset{} ==> receipt in after)
  }

  lemma DispatchedAppends(before: multiset<Entry>, after: multiset<Entry>, lead: nat, m: nat, targets: map<nat, nat>)
    requires m in targets && Dispatched(before, after, lead, m, targets[m])
    ensures before <= after && Appends(before, after, lead, targets, {m})
  {}

  function Members(roster: seq<nat>): set<nat> { set t | t in roster }

  /** The messages that wait for delivery to some of the members. */
  function Waiting(board: map<nat, bool>, targets: map<nat, nat>, members: set<nat>): set<nat> {
    set m | m in board && !board[m] && m in targets && targets[m] in members
  }

  /** What a delivery may do to the board: acknowledge pending messages in `todo` whose two entries are there. */
  ghost predicate Acks(before: map<nat, bool>, after: map<nat, bool>, entries: multiset<Entry>, lead: nat, targets: map<nat, nat>, todo: set<nat>) {
    after.Keys == before.Keys && forall m: nat :: AcksAt(before, after, entries, lead, targets, todo, m)
  }

  predicate AcksAt(before: map<nat, bool>, after: map<nat, bool>, entries: multiset<Entry>, lead: nat, targets: map<nat, nat>, todo: set<nat>, m: nat) {
    m in before && m in after && after[m] != before[m] ==>
      && after[m] && m in todo && m in targets
      && Entry(targets[m], Receipt(m)) in entries && Entry(lead, Delivered(m, targets[m])) in entries
  }

  /** The logs and the board behind a delivery, against those before it. */
  ghost predicate Delivers(e: multiset<Entry>, b: map<nat, bool>, entries: multiset<Entry>, board: map<nat, bool>,
                           lead: nat, targets: map<nat, nat>, todo: set<nat>)
  {
    e <= entries && Appends(e, entries, lead, targets, todo) && Acks(b, board, entries, lead, targets, todo)
  }

  lemma DeliversMore(e: multiset<Entry>, b: map<nat, bool>, entries: multiset<Entry>, board: map<nat, bool>,
                     later: multiset<Entry>, now: map<nat, bool>, lead: nat, targets: map<nat, nat>, more: set<nat>, todo: set<nat>)
    requires Delivers(e, b, entries, board, lead, targets, todo) && Delivers(entries, board, later, now, lead, targets, more)
    requires more <= todo
    ensures Delivers(e, b, later, now, lead, targets, todo)
  {
    forall x: Entry ensures AppendsAt(e, later, lead, targets, todo, x) {
      assert AppendsAt(e, entries, lead, targets, todo, x) && AppendsAt(entries, later, lead, targets, more, x);
    }
    forall m: nat ensures AcksAt(b, now, later, lead, targets, todo, m) {
      assert AcksAt(b, board, entries, lead, targets, todo, m) && AcksAt(board, now, later, lead, targets, more, m);
    }
  }

  lemma DeliversNext(e: multiset<Entry>, b: map<nat, bool>, entries: multiset<Entry>, board: map<nat, bool>,
                     later: multiset<Entry>, now: map<nat, bool>, lead: nat, targets: map<nat, nat>, member: nat, members: set<nat>)
    requires Delivers(e, b, entries, board, lead, targets, Waiting(b, targets, members))
    requires Delivers(entries, board, later, now, lead, targets, Waiting(board, targets, {member})) && member in members
    ensures Delivers(e, b, later, now, lead, targets, Waiting(b, targets, members))
  {
    forall m | m in Waiting(board, targets, {member}) ensures m in Waiting(b, targets, members) {
      assert AcksAt(b, board, entries, lead, targets, Waiting(b, targets, members), m);
    }
    DeliversMore(e, b, entries, board, later, now, lead, targets, Waiting(board, targets, {member}), Waiting(b, targets, members));
  }

  /** Who has nothing waiting is not given anything by a later delivery. */
  lemma OneMoreServed(before: map<nat, bool>, entries: multiset<Entry>, after: map<nat, bool>, lead: nat, targets: map<nat, nat>, roster: seq<nat>, i: nat)
    requires i < |roster| && Acks(before, after, entries, lead, targets, Waiting(before, targets, {roster[i]}))
    ensures Waiting(before, targets, Members(roster[..i])) == {} && Waiting(after, targets, {roster[i]}) == {}
      ==> Waiting(after, targets, Members(roster[..i + 1])) == {}
  {
    forall m | m in Waiting(after, targets, Members(roster[..i + 1]))
      ensures m in Waiting(before, targets, Members(roster[..i])) || m in Waiting(after, targets, {roster[i]})
    {
      assert roster[..i + 1] == roster[..i] + [roster[i]];
      assert AcksAt(before, after, entries, lead, targets, Waiting(before, targets, {roster[i]}), m);
    }
  }

  class TeamSession {
    const lead: nat
    var targets: map<nat, nat>
    var entries: multiset<Entry>
    var board: map<nat, bool>
    ghost var failures: nat

    constructor (lead: nat)
      ensures this.lead == lead && targets == map[] && entries == multiset{} && board == map[] && failures == 0
    {
      this.lead := lead;
      targets, entries, board, failures := map[], multiset{}, map[], 0;
    }

    ghost predicate Valid()
      reads this
    {
      forall m | m in board :: m in targets
    }

    ghost predicate HasReceipt(m: nat)
      reads this
      requires m in targets
    {
      Entry(targets[m], Receipt(m)) in entries
    }

    ghost predicate HasDelivered(m: nat)
      reads this
      requires m in targets
    {
      Entry(lead, Delivered(m, targets[m])) in entries
    }

    /** Appends one event or fails without a trace; the first is not up to the caller. */
    method Append(e: Entry) returns (ok: bool)
      modifies this`entries, this`failures
      ensures ok ==> entries == old(entries) + multiset{e} && failures == old(failures)
      ensures !ok ==> entries == old(entries) && failures == old(failures) + 1
    {
      ok := *;
      if ok { entries := entries + multiset{e}; } else { failures := failures + 1; }
    }

    /** Appends an event unless it is there already. */
    method Ensure(e: Entry) returns (ok: bool)
      modifies this`entries, this`failures
      ensures entries == old(entries) + (if ok && e !in old(entries) then multiset{e} else multiset{})
      ensures ok ==> e in entries
      ensures failures == old(failures) + if ok then 0 else 1
    {
      ok := true;
      if e !in entries { ok := Append(e); }
    }

    /** One dispatch body: receipt in the target's log first, then the lead's acknowledgement. */
    method DispatchNow(m: nat, live: set<nat>) returns (delivered: bool)
      requires Valid() && m in targets
      modifies this`entries, this`failures
      ensures failures >= old(failures)
      ensures delivered ==> HasReceipt(m) && HasDelivered(m)
      ensures targets[m] in live && failures == old(failures) ==> delivered
      ensures targets[m] !in live ==> !delivered && entries == old(entries)
      ensures Dispatched(old(entries), entries, lead, m, targets[m])
    {
      if targets[m] !in live { return false; }
      delivered := Ensure(Entry(targets[m], Receipt(m)));
      if !delivered { return; }
      delivered := Ensure(Entry(lead, Delivered(m, targets[m])));
    }

    /** Dispatches one message and acknowledges it on the board once it is delivered. */
    method RedeliverOne(m: nat, live: set<nat>)
      requires Valid() && m in board && !board[m]
      modifies this`entries, this`failures, this`board
      ensures failures >= old(failures)
      ensures board == old(board) || board == old(board)[m := true]
      ensures board[m] ==> HasReceipt(m) && HasDelivered(m)
      ensures targets[m] in live && failures == old(failures) ==> board[m]
      ensures targets[m] !in live ==> board == old(board) && entries == old(entries)
      ensures Dispatched(old(entries), entries, lead, m, targets[m])
      ensures Delivers(old(entries), old(board), entries, board, lead, targets, {m})
    {
      var delivered := DispatchNow(m, live);
      DispatchedAppends(old(entries), entries, lead, m, targets);
      if delivered {
        // The pass looks for the delivered event once more; it is there, so nothing is appended.
        assert Entry(lead, Delivered(m, targets[m])) in entries;
        board := board[m := true];
      }
    }

    /** Dispatches every pending message of one member; the order of the messages does not matter here. */
    method RedeliverTo(member: nat, live: set<nat>)
      requires Valid()
      modifies this`entries, this`failures, this`board
      ensures Valid() && failures >= old(failures)
      ensures Delivers(old(entries), old(board), entries, board, lead, targets, Waiting(old(board), targets, {member}))
      ensures failures == old(failures) && member in live ==> Waiting(board, targets, {member}) == {}
      ensures member !in live ==> board == old(board) && entries == old(entries)
    {
      ghost var e, b, pending := entries, board, Waiting(board, targets, {member});
      var todo := set m | m in board && targets[m] == member && !board[m];
      while todo != {}
        invariant Valid() && failures >= old(failures)
        invariant todo <= pending && todo <= Waiting(board, targets, {member})
        invariant Delivers(e, b, entries, board, lead, targets, pending)
        invariant failures == old(failures) && member in live ==> Waiting(board, targets, {member}) <= todo
        invariant member !in live ==> board == b && entries == e
        decreases todo
      {
        var m :| m in todo;
        todo := todo - {m};
        ghost var entriesThen, boardThen := entries, board;
        RedeliverOne(m, live);
        DeliversMore(e, b, entriesThen, boardThen, entries, board, lead, targets, {m}, pending);
      }
    }

    /**
     An error-free pass over a live roster leaves nothing pending for its members; with
     failures or without, it appends only what was missing of messages pending for them, and
     acknowledges only those whose entries are there.
     */
    method RedeliverPending(roster: seq<nat>, live: set<nat>)
      requires Valid()
      modifies this`entries, this`failures, this`board
      ensures Valid() && failures >= old(failures)
      ensures Delivers(old(entries), old(board), entries, board, lead, targets, Waiting(old(board), targets, Members(roster)))
      ensures failures == old(failures) && (forall t | t in roster :: t in live) ==> Waiting(board, targets, Members(roster)) == {}
    {
      ghost var e, b, members := entries, board, Members(roster);
      for i := 0 to |roster|
        invariant Valid() && failures >= old(failures)
        invariant Delivers(e, b, entries, board, lead, targets, Waiting(b, targets, members))
        invariant failures == old(failures) && (forall t | t in roster :: t in live) ==> Waiting(board, targets, Members(roster[..i])) == {}
      {
        ghost var entriesThen, boardThen := entries, board;
        RedeliverTo(roster[i], live);
        DeliversNext(e, b, entriesThen, boardThen, entries, board, lead, targets, roster[i], members);
        OneMoreServed(boardThen, entries, board, lead, targets, roster, i);
      }
      assert roster[..|roster|] == roster;
    }
  }
}
