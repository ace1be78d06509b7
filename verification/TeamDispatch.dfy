/**
 Ordered Team dispatch (cmd/sta/team.go): deliveries to one target queue up behind each
 other's "tail" channels, and callers with the same dispatch id share one delivery.
 Targets and dispatch ids are only compared, so that numbers stand for them.
 */
module TeamDispatch {
  import opened Common

  // ---------- The sections under the dispatch lock ----------

  /** Calls are numbered in admission order; a call's number names its tail and done channels. */
  class DispatchTable {
    var tails: map<nat, nat>
    var inFlight: map<nat, nat>

    constructor ()
      ensures tails == map[] && inFlight == map[]
    {
      tails, inFlight := map[], map[];
    }

    /** Joins the call in flight for `msg`, or becomes the last in `target`'s queue. */
    method Admit(call: nat, target: nat, msg: nat) returns (leader: Option<nat>, prior: Option<nat>)
      modifies this
      ensures leader == Lookup(old(inFlight), msg)
      ensures leader.Some? ==> tails == old(tails) && inFlight == old(inFlight)
      ensures leader.None? ==>
        && prior == Lookup(old(tails), target)
        && tails == old(tails)[target := call] && inFlight == old(inFlight)[msg := call]
    {
      leader, prior := Lookup(inFlight, msg), None;
      if leader.None? {
        prior := Lookup(tails, target);
        tails := tails[target := call];
        inFlight := inFlight[msg := call];
      }
    }

    /** Ends a call: it leaves the maps unless a later one has taken its place there. */
    method Finish(call: nat, target: nat, msg: nat)
      modifies this
      ensures tails == Removed(old(tails), target, call) && inFlight == Removed(old(inFlight), msg, call)
    {
      if msg in inFlight && inFlight[msg] == call { inFlight := inFlight - {msg}; }
      if target in tails && tails[target] == call { tails := tails - {target}; }
    }
  }

  function Lookup(m: map<nat, nat>, k: nat): Option<nat> {
    if k in m then Some(m[k]) else None
  }

  function Removed(m: map<nat, nat>, k: nat, v: nat): map<nat, nat> {
    if k in m && m[k] == v then m - {k} else m
  }

  // ---------- Calls and their interleavings ----------

  datatype Result = Returned(delivered: bool, failed: bool) | Cancelled

  datatype Role = Leader(prior: Option<nat>) | Follower(of: nat)

  datatype Phase = Waiting | Running | Done(result: Result)

  datatype Call = Call(target: nat, msg: nat, role: Role, phase: Phase)

  datatype State = State(calls: seq<Call>, tails: map<nat, nat>, inFlight: map<nat, nat>)

  datatype Step =
    | Admit(target: nat, msg: nat)
    | Start(call: nat)                 // the wait on `prior` is over, the body begins
    | Finish(call: nat, result: Result)
    | CancelWait(call: nat)            // the caller is cancelled while it waits on `prior`
    | Share(call: nat)                 // a coalesced caller takes the leader's result
    | CancelShare(call: nat)

  const Init := State([], map[], map[])

  predicate IsLeader(st: State, c: nat) {
    c < |st.calls| && st.calls[c].role.Leader?
  }

  predicate IsDone(st: State, c: nat) {
    c < |st.calls| && st.calls[c].phase.Done?
  }

  predicate PriorDone(st: State, c: nat)
    requires IsLeader(st, c)
  {
    st.calls[c].role.prior.None? || IsDone(st, st.calls[c].role.prior.value)
  }

  predicate Enabled(st: State, step: Step) {
    match step
    case Admit(_, _) => true
    case Start(c) => IsLeader(st, c) && st.calls[c].phase.Waiting? && PriorDone(st, c)
    case Finish(c, _) => IsLeader(st, c) && st.calls[c].phase.Running?
    case CancelWait(c) => IsLeader(st, c) && st.calls[c].phase.Waiting? && st.calls[c].role.prior.Some?
    case Share(c) => c < |st.calls| && st.calls[c].role.Follower? && st.calls[c].phase.Waiting? && IsDone(st, st.calls[c].role.of)
    case CancelShare(c) => c < |st.calls| && st.calls[c].role.Follower? && st.calls[c].phase.Waiting?
  }

  function Ended(st: State, c: nat, result: Result): State
    requires c < |st.calls|
  {
    State(st.calls[c := st.calls[c].(phase := Done(result))],
          Removed(st.tails, st.calls[c].target, c), Removed(st.inFlight, st.calls[c].msg, c))
  }

  /** A step that is not enabled leaves the state as it is. */
  function Do(st: State, step: Step): State {
    if !Enabled(st, step) then st else
    match step
    case Admit(target, msg) =>
      var c := |st.calls|;
      if msg in st.inFlight
      then st.(calls := st.calls + [Call(target, msg, Follower(st.inFlight[msg]), Waiting)])
      else State(st.calls + [Call(target, msg, Leader(Lookup(st.tails, target)), Waiting)],
                 st.tails[target := c], st.inFlight[msg := c])
    case Start(c) => st.(calls := st.calls[c := st.calls[c].(phase := Running)])
    case Finish(c, result) => Ended(st, c, result)
    case CancelWait(c) => Ended(st, c, Cancelled)
    case Share(c) => st.(calls := st.calls[c := st.calls[c].(phase := st.calls[st.calls[c].role.of].phase)])
    case CancelShare(c) => st.(calls := st.calls[c := st.calls[c].(phase := Done(Cancelled))])
  }

  function Run(st: State, steps: seq<Step>): State {
    if steps == [] then st else Do(Run(st, steps[..|steps| - 1]), steps[|steps| - 1])
  }

  // ---------- What holds in every run ----------

  /** What holds of call `c` in every reachable state. */
  predicate Right(st: State, c: nat) {
    c < |st.calls| ==>
      match st.calls[c].role
      case Leader(prior) =>
        && (prior.Some? ==> prior.value < c && IsLeader(st, prior.value) && st.calls[prior.value].target == st.calls[c].target)
        && (!st.calls[c].phase.Done? ==> Lookup(st.inFlight, st.calls[c].msg) == Some(c))
      case Follower(l) =>
        && l < c && IsLeader(st, l) && st.calls[l].msg == st.calls[c].msg
        && !st.calls[c].phase.Running?
        && (st.calls[c].phase.Done? ==> st.calls[c].phase.result == Cancelled || st.calls[c].phase == st.calls[l].phase)
  }

  predicate TailRight(st: State, target: nat) {
    target in st.tails ==> IsLeader(st, st.tails[target]) && !IsDone(st, st.tails[target]) && st.calls[st.tails[target]].target == target
  }

  predicate FlightRight(st: State, msg: nat) {
    msg in st.inFlight ==> IsLeader(st, st.inFlight[msg]) && !IsDone(st, st.inFlight[msg]) && st.calls[st.inFlight[msg]].msg == msg
  }

  ghost predicate Inv(st: State) {
    && (forall c: nat :: Right(st, c))
    && (forall t: nat :: TailRight(st, t))
    && (forall m: nat :: FlightRight(st, m))
  }

  lemma StepKeepsRight(st: State, step: Step, c: nat)
    requires Inv(st) && Enabled(st, step)
    ensures Right(Do(st, step), c)
  {
    assert Right(st, c);
    if step.Admit? { assert FlightRight(st, step.msg) && TailRight(st, step.target); } else { assert Right(st, step.call); }
  }

  lemma StepKeepsTail(st: State, step: Step, target: nat)
    requires Inv(st) && Enabled(st, step)
    ensures TailRight(Do(st, step), target)
  {
    assert TailRight(st, target);
    if !step.Admit? { assert Right(st, step.call); }
  }

  lemma StepKeepsFlight(st: State, step: Step, msg: nat)
    requires Inv(st) && Enabled(st, step)
    ensures FlightRight(Do(st, step), msg)
  {
    assert FlightRight(st, msg);
    if !step.Admit? { assert Right(st, step.call); }
  }

  lemma StepKeepsInv(st: State, step: Step)
    requires Inv(st) && Enabled(st, step)
    ensures Inv(Do(st, step))
  {
    forall c: nat ensures Right(Do(st, step), c) { StepKeepsRight(st, step, c); }
    forall t: nat ensures TailRight(Do(st, step), t) { StepKeepsTail(st, step, t); }
    forall m: nat ensures FlightRight(Do(st, step), m) { StepKeepsFlight(st, step, m); }
  }

  lemma {:induction false} RunKeepsInv(steps: seq<Step>)
    ensures Inv(Run(Init, steps))
  {
    if steps == [] {
      assert forall c: nat :: Right(Init, c);
    } else {
      var st, step := Run(Init, steps[..|steps| - 1]), steps[|steps| - 1];
      RunKeepsInv(steps[..|steps| - 1]);
      if Enabled(st, step) { StepKeepsInv(st, step); }
    }
  }

  /** At most one delivery per dispatch id is in flight, cancellations or not. */
  lemma OneDeliveryPerMessage(steps: seq<Step>, a: nat, b: nat)
    requires var st := Run(Init, steps);
      IsLeader(st, a) && IsLeader(st, b) && st.calls[a].msg == st.calls[b].msg && !IsDone(st, a) && !IsDone(st, b)
    ensures a == b
  {
    RunKeepsInv(steps);
    assert Right(Run(Init, steps), a) && Right(Run(Init, steps), b);
  }

  /** A coalesced caller that was not cancelled returns what its leader returned. */
  lemma FollowersShareTheResult(steps: seq<Step>, c: nat)
    requires var st := Run(Init, steps); c < |st.calls| && st.calls[c].role.Follower? && IsDone(st, c)
    ensures var st := Run(Init, steps); var l := st.calls[c].role.of;
      && IsLeader(st, l) && st.calls[l].msg == st.calls[c].msg
      && (st.calls[c].phase.result == Cancelled || st.calls[c].phase == st.calls[l].phase)
  {
    RunKeepsInv(steps);
    assert Right(Run(Init, steps), c);
  }

  /** When every call has returned, both maps are empty again. */
  lemma QuietMapsAreEmpty(steps: seq<Step>)
    requires forall c: nat | c < |Run(Init, steps).calls| :: IsDone(Run(Init, steps), c)
    ensures Run(Init, steps).tails == map[] && Run(Init, steps).inFlight == map[]
  {
    RunKeepsInv(steps);
    var st := Run(Init, steps);
    forall t: nat ensures t !in st.tails { assert TailRight(st, t); }
    forall m: nat ensures m !in st.inFlight { assert FlightRight(st, m); }
  }

  // ---------- Order, when no waiting caller is cancelled too early ----------

  /** The cancellation that closes a tail before its predecessor has ended. */
  predicate EarlyCancel(st: State, step: Step) {
    step.CancelWait? && Enabled(st, step) && !PriorDone(st, step.call)
  }

  predicate Calm(st: State, steps: seq<Step>) {
    steps == [] || (Calm(st, steps[..|steps| - 1]) && !EarlyCancel(Run(st, steps[..|steps| - 1]), steps[|steps| - 1]))
  }

  predicate SameQueue(st: State, a: nat, b: nat) {
    a < b && IsLeader(st, a) && IsLeader(st, b) && st.calls[a].target == st.calls[b].target
  }

  /** Of two leaders in one queue, the later starts after the earlier has ended. */
  predicate Fifo(st: State, a: nat, b: nat) {
    SameQueue(st, a, b) ==>
      && (!st.calls[b].phase.Waiting? ==> IsDone(st, a))
      && (st.calls[b].role.prior.None? ==> IsDone(st, a))
      && (st.calls[b].role.prior.Some? ==> a <= st.calls[b].role.prior.value)
  }

  predicate LastIsTail(st: State, c: nat) {
    IsLeader(st, c) ==>
      if st.calls[c].target in st.tails then c <= st.tails[st.calls[c].target] else IsDone(st, c)
  }

  ghost predicate Ordered(st: State) {
    && Inv(st)
    && (forall a: nat, b: nat :: Fifo(st, a, b))
    && (forall c: nat :: LastIsTail(st, c))
  }

  lemma StepKeepsOrder(st: State, step: Step)
    requires Ordered(st) && Enabled(st, step) && !EarlyCancel(st, step)
    ensures Ordered(Do(st, step))
  {
    var next := Do(st, step);
    StepKeepsInv(st, step);
    if !step.Admit? && IsLeader(st, step.call) { PredecessorsDone(st, step.call); }
    if step.Admit? { assert TailRight(st, step.target); }
    forall a: nat, b: nat ensures Fifo(next, a, b) {
      assert Fifo(st, a, b) && LastIsTail(st, a);
      if !step.Admit? && step.call == b { assert SameQueue(st, a, b) == SameQueue(next, a, b); }
    }
    forall c: nat ensures LastIsTail(next, c) {
      assert LastIsTail(st, c);
      if !step.Admit? { assert LastIsTail(st, step.call) && SameQueue(st, c, step.call) == SameQueue(next, c, step.call); }
    }
  }

  /** Behind a finished prior, or once a call has started, the queue before it is finished. */
  lemma PredecessorsDone(st: State, c: nat)
    requires Ordered(st) && IsLeader(st, c) && (PriorDone(st, c) || !st.calls[c].phase.Waiting?)
    ensures forall a: nat | SameQueue(st, a, c) :: IsDone(st, a)
  {
    assert Right(st, c);
    forall a: nat | SameQueue(st, a, c) ensures IsDone(st, a) {
      assert Fifo(st, a, c);
      if st.calls[c].role.prior.Some? { assert Fifo(st, a, st.calls[c].role.prior.value); }
    }
  }

  lemma {:induction false} CalmRunIsOrdered(st: State, steps: seq<Step>)
    requires Ordered(st) && Calm(st, steps)
    ensures Ordered(Run(st, steps))
  {
    if steps != [] {
      CalmRunIsOrdered(st, steps[..|steps| - 1]);
      var last := Run(st, steps[..|steps| - 1]);
      if Enabled(last, steps[|steps| - 1]) { StepKeepsOrder(last, steps[|steps| - 1]); }
    }
  }

  lemma InitIsOrdered()
    ensures Ordered(Init)
  {
    assert forall c: nat :: Right(Init, c);
  }

  predicate Overlap(st: State, a: nat, b: nat) {
    SameQueue(st, a, b) && st.calls[a].phase.Running? && st.calls[b].phase.Running?
  }

  /** Unless a waiting caller is cancelled early, bodies of one target run one at a time, in admission order. */
  lemma CalmRunsAreExclusive(steps: seq<Step>, a: nat, b: nat)
    requires Calm(Init, steps) && SameQueue(Run(Init, steps), a, b) && !Run(Init, steps).calls[b].phase.Waiting?
    ensures IsDone(Run(Init, steps), a)
  {
    InitIsOrdered();
    CalmRunIsOrdered(Init, steps);
    assert Fifo(Run(Init, steps), a, b);
  }

  // ---------- What an early cancellation makes possible ----------

  /** The first unfinished leader of a queue can run at once. */
  lemma {:induction false} FrontOfQueue(st: State, p: nat) returns (q: nat)
    requires Ordered(st) && IsLeader(st, p) && !IsDone(st, p)
    ensures q <= p && IsLeader(st, q) && st.calls[q].target == st.calls[p].target
    ensures st.calls[q].phase.Running? || Enabled(st, Start(q))
    decreases p
  {
    assert Right(st, p);
    if PriorDone(st, p) { q := p; } else { q := FrontOfQueue(st, st.calls[p].role.prior.value); }
  }

  /** The call that waits on `c`, if `c` is not the last of its queue. */
  lemma {:induction false} NextInQueue(st: State, c: nat, last: nat) returns (d: nat)
    requires Ordered(st) && SameQueue(st, c, last) && !IsDone(st, c)
    ensures SameQueue(st, c, d) && st.calls[d].role.prior == Some(c) && st.calls[d].phase.Waiting?
    decreases last
  {
    assert Fifo(st, c, last) && Right(st, last);
    var p := st.calls[last].role.prior.value;
    if p == c { d := last; } else { d := NextInQueue(st, c, p); }
  }

  /** How a cancelled wait lets a later delivery overtake: the front of the queue runs, and so does one behind the gap. */
  lemma EarlyCancelLetsBodiesOverlap(st: State, c: nat, freshMsg: nat) returns (more: seq<Step>, a: nat, b: nat)
    requires Ordered(st) && EarlyCancel(st, CancelWait(c)) && freshMsg !in st.inFlight
    ensures Calm(Do(st, CancelWait(c)), more) && Overlap(Run(Do(st, CancelWait(c)), more), a, b)
  {
    assert Right(st, c);
    var target := st.calls[c].target;
    a := FrontOfQueue(st, st.calls[c].role.prior.value);
    var s0 := Do(st, CancelWait(c));
    var s1 := Do(s0, Start(a));
    if target in st.tails && st.tails[target] == c {
      b := |st.calls|;
      var s2 := Do(s1, Admit(target, freshMsg));
      var s3 := Do(s2, Start(b));
      more := [Start(a), Admit(target, freshMsg), Start(b)];
      RunOfThree(s0, Start(a), Admit(target, freshMsg), Start(b));
      assert Overlap(s3, a, b);
    } else {
      assert LastIsTail(st, c) && TailRight(st, target);
      b := NextInQueue(st, c, st.tails[target]);
      more := [Start(a), Start(b)];
      RunOfTwo(s0, Start(a), Start(b));
      assert Overlap(Do(s1, Start(b)), a, b);
    }
  }

  lemma RunOfTwo(st: State, x: Step, y: Step)
    ensures Run(st, [x, y]) == Do(Do(st, x), y)
    ensures x.Start? && y.Start? ==> Calm(st, [x, y])
  {
    assert [x, y][..1] == [x] && [x][..0] == [];
    assert Run(st, [x]) == Do(Run(st, []), x);
    assert Calm(st, []) && Calm(st, [x]) == !EarlyCancel(st, x);
    assert Calm(st, [x, y]) == (Calm(st, [x]) && !EarlyCancel(Run(st, [x]), y));
  }

  lemma RunOfThree(st: State, x: Step, y: Step, z: Step)
    ensures Run(st, [x, y, z]) == Do(Do(Do(st, x), y), z)
    ensures x.Start? && y.Admit? && z.Start? ==> Calm(st, [x, y, z])
  {
    assert [x, y, z][..2] == [x, y] && [x, y][..1] == [x] && [x][..0] == [];
    assert Run(st, [x]) == Do(Run(st, []), x);
    assert Run(st, [x, y]) == Do(Run(st, [x]), y);
    assert Calm(st, []) && Calm(st, [x]) == !EarlyCancel(st, x);
    assert Calm(st, [x, y]) == (Calm(st, [x]) && !EarlyCancel(Run(st, [x]), y));
  }

  /** Some continuation without early cancellations runs two bodies of one target at once. */
  ghost predicate CanOverlap(st: State) {
    exists more: seq<Step>, a: nat, b: nat :: Calm(st, more) && Overlap(Run(st, more), a, b)
  }

  /**
   The exact condition.  After a run without early cancellations, a further step can ever
   lead to two bodies of one target running at once (with no other early cancellation)
   if and only if it is an early cancellation.
   */
  lemma ExclusiveUnlessEarlyCancel(steps: seq<Step>, step: Step, freshMsg: nat)
    requires Calm(Init, steps) && freshMsg !in Run(Init, steps).inFlight
    ensures EarlyCancel(Run(Init, steps), step) <==> CanOverlap(Do(Run(Init, steps), step))
  {
    InitIsOrdered();
    CalmRunIsOrdered(Init, steps);
    var st := Run(Init, steps);
    if EarlyCancel(st, step) {
      var more, a, b := EarlyCancelLetsBodiesOverlap(st, step.call, freshMsg);
    } else {
      if Enabled(st, step) { StepKeepsOrder(st, step); }
      forall more, a: nat, b: nat | Calm(Do(st, step), more) ensures !Overlap(Run(Do(st, step), more), a, b) {
        CalmRunIsOrdered(Do(st, step), more);
        assert Fifo(Run(Do(st, step), more), a, b);
      }
    }
  }
}
