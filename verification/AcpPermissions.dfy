/**
 Routing of reverse permission requests (internal/acp/server.go): the server asks the
 client, a waiter blocks on a one-slot channel, and the reader goroutine delivers the
 reply, while the waiter may give up and teardown may answer everybody.
 */
module AcpPermissions {
  import opened Common

  /** What is sent down a waiter's channel: an outcome, or the teardown error. */
  datatype Reply = Outcome(optionID: string) | Failed(message: string)

  // ---------- The sections under the permission lock ----------

  class PermissionTable {
    var pending: set<nat>
    var nextID: nat

    constructor ()
      ensures pending == {} && nextID == 0
    {
      pending, nextID := {}, 0;
    }

    method Register() returns (id: nat)
      modifies this
      ensures nextID == old(nextID) + 1 && id == nextID && pending == old(pending) + {id}
    {
      nextID := nextID + 1;
      id := nextID;
      pending := pending + {id};
    }

    method Remove(id: nat)
      modifies this`pending
      ensures pending == old(pending) - {id}
    {
      pending := pending - {id};
    }

    /** Claims the waiter a reply is addressed to; an unknown id changes nothing. */
    method Claim(id: nat) returns (matched: bool)
      modifies this`pending
      ensures matched == (id in old(pending)) && pending == old(pending) - {id}
      ensures !matched ==> pending == old(pending)
    {
      matched := id in pending;
      if matched { pending := pending - {id}; }
    }

    method ClaimAll() returns (ids: set<nat>)
      modifies this`pending
      ensures ids == old(pending) && pending == {}
    {
      ids, pending := pending, {};
    }
  }

  // ---------- Waiters, the reader goroutine, and the channels ----------

  datatype Send = Send(id: nat, reply: Reply)

  datatype Waiter = Waiting | Answered(reply: Reply) | GaveUp

  /**
   `owed` are the sends the reader goroutine has still to do, in order; `buffer` the value
   sitting in each channel; `torn` is the last id given out before the teardown, once that
   has come.  History: `sent`, and the reply `accepted` for each id.
   */
  datatype State = State(
    nextID: nat,
    pending: set<nat>,
    waiters: map<nat, Waiter>,
    owed: seq<Send>,
    buffer: map<nat, Reply>,
    torn: Option<nat>,
    sent: seq<Send>,
    accepted: map<nat, Reply>)

  datatype Step =
    | Request                          // registers a waiter and writes the request
    | GiveUp(id: nat)                  // the write failed, or the waiter's context ended
    | Deliver(id: nat, reply: Reply)   // a reply frame arrives
    | Teardown(order: seq<nat>, broken: bool)  // cancelPermissions, in some order of the table; no frame is read any more
    | SendNext                         // the reader goroutine does its next channel send
    | Receive(id: nat)

  const Init := State(0, {}, map[], [], map[], None, [], map[])

  /** What a teardown answers, after the end of the input or a read error. */
  function ClosedReply(broken: bool): Reply {
    Failed(if broken then "ACP transport failed" else "ACP server closed")
  }

  predicate IsOrderOf(order: seq<nat>, ids: set<nat>) {
    (forall i, j | 0 <= i < j < |order| :: order[i] != order[j]) && (set id | id in order) == ids
  }

  predicate Enabled(st: State, step: Step) {
    match step
    case Request => true
    case GiveUp(id) => id in st.waiters && st.waiters[id].Waiting?
    case Deliver(id, _) => st.owed == [] && st.torn.None?  // the goroutine reads a frame only between sends
    case Teardown(order, _) => st.owed == [] && st.torn.None? && IsOrderOf(order, st.pending)
    case SendNext => st.owed != []
    case Receive(id) => id in st.waiters && st.waiters[id].Waiting? && id in st.buffer
  }

  /** A reply is matched to a waiter, or reported unmatched. */
  predicate Matched(st: State, id: nat) { id in st.pending }

  /** A step that is not enabled leaves the state as it is. */
  function Do(st: State, step: Step): State {
    if !Enabled(st, step) then st else
    match step
    case Request =>
      var id := st.nextID + 1;
      st.(nextID := id, pending := st.pending + {id}, waiters := st.waiters[id := Waiting])
    case GiveUp(id) =>
      st.(pending := st.pending - {id}, waiters := st.waiters[id := GaveUp])
    case Deliver(id, reply) =>
      if !Matched(st, id) then st
      else st.(pending := st.pending - {id}, owed := [Send(id, reply)], accepted := st.accepted[id := reply])
    case Teardown(order, broken) =>
      st.(pending := {}, torn := Some(st.nextID),
          owed := seq(|order|, i requires 0 <= i < |order| => Send(order[i], ClosedReply(broken))),
          accepted := st.accepted + (map id | id in st.pending :: ClosedReply(broken)))
    case SendNext =>
      st.(owed := st.owed[1..], sent := st.sent + [st.owed[0]],
          buffer := st.buffer[st.owed[0].id := st.owed[0].reply])
    case Receive(id) =>
      st.(waiters := st.waiters[id := Answered(st.buffer[id])], buffer := st.buffer - {id}, pending := st.pending - {id})
  }

  function Run(steps: seq<Step>): State {
    if steps == [] then Init else Do(Run(steps[..|steps| - 1]), steps[|steps| - 1])
  }

  // ---------- The invariant ----------

  predicate Sends(st: State) {
    && (forall i, j | 0 <= i < j < |st.owed| :: st.owed[i].id != st.owed[j].id)
    && (forall i, j | 0 <= i < j < |st.sent| :: st.sent[i].id != st.sent[j].id)
    && (forall i, j | 0 <= i < |st.owed| && 0 <= j < |st.sent| :: st.owed[i].id != st.sent[j].id)
    && (forall i | 0 <= i < |st.owed| :: st.owed[i].id in st.accepted && st.accepted[st.owed[i].id] == st.owed[i].reply)
    && (forall i | 0 <= i < |st.sent| :: st.sent[i].id in st.accepted && st.accepted[st.sent[i].id] == st.sent[i].reply)
  }

  predicate IsOwed(st: State, id: nat) {
    exists i :: 0 <= i < |st.owed| && st.owed[i].id == id
  }

  predicate Right(st: State, id: nat) {
    && (id in st.waiters <==> 1 <= id <= st.nextID)
    && (id in st.pending ==> id in st.waiters && st.waiters[id].Waiting? && id !in st.accepted)
    && (id in st.accepted ==> id in st.waiters)
    && (id in st.buffer ==> Send(id, st.buffer[id]) in st.sent)
    && (id in st.waiters && st.waiters[id].Answered? ==> id in st.accepted && st.accepted[id] == st.waiters[id].reply)
    // After the teardown, the table holds later requests only, and nothing is accepted for those.
    && (st.torn.Some? ==> st.torn.value <= st.nextID && (id in st.pending ==> id > st.torn.value) && (id in st.accepted ==> id <= st.torn.value))
    // A waiting waiter is registered, or has its answer on the way.
    && (id in st.waiters && st.waiters[id].Waiting? ==> id in st.pending || IsOwed(st, id) || id in st.buffer)
  }

  ghost predicate Inv(st: State) {
    Sends(st) && forall id: nat :: Right(st, id)
  }

  lemma StepKeepsSends(st: State, step: Step)
    requires Inv(st) && Enabled(st, step)
    ensures Sends(Do(st, step))
  {
    match step
    case Deliver(id, _) => assert Right(st, id);
    case Teardown(order, _) =>
      forall i | 0 <= i < |order| ensures order[i] in st.pending && order[i] !in st.accepted {
        assert order[i] in (set id | id in order);
        assert Right(st, order[i]);
      }
    case _ =>
  }

  lemma StepKeepsRight(st: State, step: Step, id: nat)
    requires Inv(st) && Enabled(st, step)
    ensures Right(Do(st, step), id)
  {
    var next := Do(st, step);
    assert Right(st, id);
    match step
    case Deliver(i, _) => if Matched(st, i) { assert next.owed[0].id == i; }
    case Teardown(order, _) =>
      if id in st.pending {
        assert id in (set i | i in order);
        var k :| 0 <= k < |order| && order[k] == id;
        assert next.owed[k].id == id;
      }
    case SendNext =>
      if IsOwed(st, id) && st.owed[0].id != id {
        var k :| 0 <= k < |st.owed| && st.owed[k].id == id;
        assert next.owed[k - 1].id == id;
      }
    case Receive(i) => assert Right(st, i) && Send(i, st.buffer[i]) in st.sent;
    case _ =>
  }

  lemma {:induction false} RunKeepsInv(steps: seq<Step>)
    ensures Inv(Run(steps))
  {
    if steps == [] {
      assert forall id: nat :: Right(Init, id);
    } else {
      var st, step := Run(steps[..|steps| - 1]), steps[|steps| - 1];
      RunKeepsInv(steps[..|steps| - 1]);
      if Enabled(st, step) {
        StepKeepsSends(st, step);
        forall id: nat ensures Right(Do(st, step), id) { StepKeepsRight(st, step, id); }
      }
    }
  }

  // ---------- What every run guarantees ----------

  /** Each waiter's channel receives at most one value, so that no send ever blocks. */
  lemma AtMostOneSend(steps: seq<Step>)
    ensures var st := Run(steps);
      && (forall i, j | 0 <= i < j < |st.sent| :: st.sent[i].id != st.sent[j].id)
      && (st.owed != [] ==> st.owed[0].id !in st.buffer && forall i | 0 <= i < |st.sent| :: st.sent[i].id != st.owed[0].id)
  {
    RunKeepsInv(steps);
    var st := Run(steps);
    if st.owed != [] { assert Right(st, st.owed[0].id); }
  }

  /** What a waiter returns is the reply that was accepted for its own id. */
  lemma AnswerIsTheAcceptedReply(steps: seq<Step>, id: nat)
    requires id in Run(steps).waiters && Run(steps).waiters[id].Answered?
    ensures id in Run(steps).accepted && Run(steps).waiters[id].reply == Run(steps).accepted[id]
  {
    RunKeepsInv(steps);
    assert Right(Run(steps), id);
  }

  /** A reply to a registered waiter arrives: once sent and received it is what the waiter returns. */
  lemma MatchedReplyArrives(steps: seq<Step>, id: nat, reply: Reply)
    requires var st := Run(steps); Matched(st, id) && st.owed == [] && st.torn.None?
    ensures var st := Do(Do(Do(Run(steps), Deliver(id, reply)), SendNext), Receive(id));
      id in st.waiters && st.waiters[id] == Answered(reply) && id !in st.pending && id !in st.buffer
  {
    RunKeepsInv(steps);
    assert Right(Run(steps), id);
  }

  /**
   A reply is matched only while its waiter waits and nothing was accepted for it; otherwise
   the frame is reported unmatched and changes nothing.
   */
  lemma SettledReplyIsUnmatched(steps: seq<Step>, id: nat, reply: Reply)
    ensures var st := Run(steps);
      && (Matched(st, id) ==> id in st.waiters && st.waiters[id].Waiting? && id !in st.accepted)
      && (!Matched(st, id) ==> Do(st, Deliver(id, reply)) == st)
      && (id in st.accepted ==> !Matched(st, id))
  {
    RunKeepsInv(steps);
    assert Right(Run(steps), id);
  }

  /** A request id is new: no waiter, reply or send was ever recorded under it. */
  lemma IdsAreNeverReused(steps: seq<Step>)
    ensures var st := Run(steps); var id := Do(st, Request).nextID;
      && id !in st.waiters && id !in st.pending && id !in st.accepted && id !in st.buffer
      && (forall i | 0 <= i < |st.sent| :: st.sent[i].id != id)
  {
    RunKeepsInv(steps);
    var st := Run(steps);
    assert Right(st, st.nextID + 1);
    forall i | 0 <= i < |st.sent| ensures st.sent[i].id != st.nextID + 1 { assert Right(st, st.sent[i].id); }
  }

  /**
   With no send left, a waiter that still waits has an answer in its channel exactly if it is
   not in the table; and once the teardown has come, exactly if it registered before that.
   */
  lemma AnsweredAfterTeardownExactlyWhen(steps: seq<Step>, id: nat)
    requires var st := Run(steps); st.owed == [] && id in st.waiters && st.waiters[id].Waiting?
    ensures var st := Run(steps);
      && (id in st.buffer <==> id !in st.pending)
      && (st.torn.Some? ==> (id in st.buffer <==> id <= st.torn.value))
  {
    RunKeepsInv(steps);
    assert Right(Run(steps), id);
  }

  lemma {:induction false} AcceptedStays(steps: seq<Step>, more: seq<Step>, id: nat)
    requires id in Run(steps).accepted
    ensures id in Run(steps + more).accepted && Run(steps + more).accepted[id] == Run(steps).accepted[id]
  {
    if more == [] {
      assert steps + more == steps;
    } else {
      var before := steps + more[..|more| - 1];
      AcceptedStays(steps, more[..|more| - 1], id);
      assert (steps + more)[..|steps + more| - 1] == before;
      RunKeepsInv(before);
      assert Right(Run(before), id);
      forall k | k in Run(before).pending ensures k !in Run(before).accepted { assert Right(Run(before), k); }
    }
  }

  /** Whoever waits in the table when the teardown comes is answered by an error, if by anything. */
  lemma TeardownFailsWhoWaits(steps: seq<Step>, order: seq<nat>, broken: bool, more: seq<Step>, id: nat)
    requires Enabled(Run(steps), Teardown(order, broken)) && id in Run(steps).pending
    ensures var st := Run(steps + [Teardown(order, broken)] + more);
      && id in st.waiters && (st.waiters[id].Answered? ==> st.waiters[id].reply.Failed?)
      && (id in st.buffer ==> st.buffer[id].Failed?)
  {
    var torn := steps + [Teardown(order, broken)];
    assert torn[..|torn| - 1] == steps;
    AcceptedStays(torn, more, id);
    RunKeepsInv(torn + more);
    assert Right(Run(torn + more), id);
  }

  /** Who registers after the teardown is never answered: only its own context ends its wait. */
  lemma LateRequestIsNeverAnswered(steps: seq<Step>, id: nat)
    requires var st := Run(steps); st.torn.Some? && id > st.torn.value && id in st.waiters
    ensures var st := Run(steps);
      && id !in st.buffer && !st.waiters[id].Answered?
      && (forall reply :: !Enabled(st, Deliver(id, reply)))
      && Do(st, GiveUp(id)).waiters[id].GaveUp?
  {
    RunKeepsInv(steps);
    assert Right(Run(steps), id);
  }

  /** Such a run exists. */
  lemma RequestAfterTeardown()
    ensures var st := Run([Teardown([], false), Request]); st.torn == Some(0) && st.waiters == map[1 := Waiting] && st.owed == []
  {
    var steps := [Teardown([], false), Request];
    assert steps[..1] == [Teardown([], false)] && [Teardown([], false)][..0] == [];
    assert Run([]) == Init && IsOrderOf([], {});
  }
}
