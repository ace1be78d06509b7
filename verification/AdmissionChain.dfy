/**
 Admission order of concurrent request handlers.  The ACP loop lets every handler wait for
 the last lifecycle request read before it (internal/acp/server.go); the SDK loop lets each
 handler wait for the one before it (cmd/sta/sdk.go), which is the case where every frame
 is a barrier.
 */
module AdmissionChain {
  import opened Common

  /**
   The reader loop and its handlers.  Frame `i` is a barrier or not, and waits for the done
   channel of frame `priors[i]`; `tail` is the loop's variable.  `started` lists handler
   bodies in the order they began; `finished` holds the frames whose done channel is closed.
   */
  datatype State = State(
    barriers: seq<bool>,
    priors: seq<Option<nat>>,
    tail: Option<nat>,
    started: seq<nat>,
    finished: set<nat>)

  datatype Step = Read(barrier: bool) | Start(frame: nat) | Finish(frame: nat)

  const Init := State([], [], None, [], {})

  predicate Enabled(st: State, step: Step) {
    match step
    case Read(_) => true
    case Start(i) => i < |st.priors| && i !in st.started
                     && (st.priors[i].Some? ==> st.priors[i].value in st.finished)
    case Finish(i) => i in st.started && i !in st.finished
  }

  /** A step that is not enabled leaves the state as it is. */
  function Do(st: State, step: Step): State {
    if !Enabled(st, step) then st else
    match step
    case Read(barrier) =>
      st.(barriers := st.barriers + [barrier], priors := st.priors + [st.tail],
          tail := if barrier then Some(|st.barriers|) else st.tail)
    case Start(i) => st.(started := st.started + [i])
    case Finish(i) => st.(finished := st.finished + {i})
  }

  function Run(steps: seq<Step>): State {
    if steps == [] then Init else Do(Run(steps[..|steps| - 1]), steps[|steps| - 1])
  }

  /** `prior` is the last barrier among the first `i` frames. */
  predicate LastBarrier(barriers: seq<bool>, i: nat, prior: Option<nat>)
    requires i <= |barriers|
  {
    match prior
    case None => forall j | 0 <= j < i :: !barriers[j]
    case Some(p) => p < i && barriers[p] && forall j | p < j < i :: !barriers[j]
  }

  predicate Linked(barriers: seq<bool>, priors: seq<Option<nat>>) {
    |priors| == |barriers| && forall i | 0 <= i < |barriers| :: LastBarrier(barriers, i, priors[i])
  }

  lemma LinksAreUnique(barriers: seq<bool>, priors: seq<Option<nat>>, others: seq<Option<nat>>)
    requires Linked(barriers, priors) && Linked(barriers, others)
    ensures priors == others
  {
    forall i | 0 <= i < |barriers| ensures priors[i] == others[i] {
      assert LastBarrier(barriers, i, priors[i]) && LastBarrier(barriers, i, others[i]);
    }
  }

  /**
   The reader loop on its own: each frame is linked to the last barrier before it, and these
   are the links of every run that has read the same frames, whatever its handlers do.
   */
  method LinkFrames(barriers: seq<bool>) returns (priors: seq<Option<nat>>)
    ensures |priors| == |barriers|
    ensures forall i | 0 <= i < |barriers| :: LastBarrier(barriers, i, priors[i])
    ensures forall steps | Run(steps).barriers == barriers :: Run(steps).priors == priors
  {
    var tail: Option<nat> := None;
    priors := [];
    for i := 0 to |barriers|
      invariant |priors| == i && LastBarrier(barriers, i, tail)
      invariant forall k | 0 <= k < i :: LastBarrier(barriers, k, priors[k])
    {
      priors := priors + [tail];
      if barriers[i] { tail := Some(i); }
    }
    forall steps | Run(steps).barriers == barriers ensures Run(steps).priors == priors {
      RunKeepsInv(steps);
      LinksAreUnique(barriers, priors, Run(steps).priors);
    }
  }

  predicate Inv(st: State) {
    && Linked(st.barriers, st.priors)
    && LastBarrier(st.barriers, |st.barriers|, st.tail)
    && (forall i | i in st.started :: i < |st.priors| && (st.priors[i].Some? ==> st.priors[i].value in st.finished))
    && (forall i, j | 0 <= i < j < |st.started| :: st.started[i] != st.started[j])
    && (forall i | i in st.finished :: i in st.started)
  }

  lemma {:induction false} RunKeepsInv(steps: seq<Step>)
    ensures Inv(Run(steps))
  {
    if steps != [] {
      RunKeepsInv(steps[..|steps| - 1]);
    }
  }

  /** When a handler body starts, every lifecycle request read before it has finished. */
  lemma BarrierHolds(steps: seq<Step>, i: nat, j: nat)
    requires i in Run(steps).started && j < i < |Run(steps).barriers| && Run(steps).barriers[j]
    ensures j in Run(steps).finished
  {
    RunKeepsInv(steps);
    BarrierAlongChain(Run(steps), i, j);
  }

  lemma {:induction false} BarrierAlongChain(st: State, i: nat, j: nat)
    requires Inv(st) && i in st.started && j < i < |st.barriers| && st.barriers[j]
    ensures j in st.finished
    decreases i
  {
    var p := st.priors[i].value;
    if p != j { BarrierAlongChain(st, p, j); }
  }

  /**
   In the SDK loop bodies run one at a time, in frame order: the k-th body to start is
   frame k, and it starts only after all earlier ones have finished.
   */
  lemma OrderedHandlers(steps: seq<Step>)
    requires forall k | 0 <= k < |Run(steps).barriers| :: Run(steps).barriers[k]
    ensures var st := Run(steps);
      && (forall k | 0 <= k < |st.started| :: st.started[k] == k)
      && (forall k | 0 <= k < |st.started| - 1 :: k in st.finished)
  {
    RunKeepsInv(steps);
    StartsInOrder(steps);
    var st := Run(steps);
    forall k: nat | k < |st.started| - 1 ensures k in st.finished {
      var last := st.started[|st.started| - 1];
      BarrierAlongChain(st, last, k);
    }
  }

  lemma {:induction false} StartsInOrder(steps: seq<Step>)
    requires forall k | 0 <= k < |Run(steps).barriers| :: Run(steps).barriers[k]
    ensures forall k | 0 <= k < |Run(steps).started| :: Run(steps).started[k] == k
  {
    if steps != [] {
      var st, step := Run(steps[..|steps| - 1]), steps[|steps| - 1];
      RunKeepsInv(steps[..|steps| - 1]);
      assert forall k | 0 <= k < |st.barriers| :: st.barriers[k] == Run(steps).barriers[k];
      StartsInOrder(steps[..|steps| - 1]);
      if step.Start? && Enabled(st, step) {
        var i := step.frame;
        if i > 0 { assert st.barriers[i - 1] && i - 1 in st.finished; }
        forall k: nat | k < |st.started| ensures k in st.started { assert st.started[k] == k; }
      }
    }
  }

  lemma RunSnoc(steps: seq<Step>, step: Step)
    ensures Run(steps + [step]) == Do(Run(steps), step)
  {
    assert (steps + [step])[..|steps|] == steps;
  }

  predicate AllFinished(st: State, n: nat) {
    forall i: nat | i < n :: i in st.finished
  }

  lemma HandleOne(steps: seq<Step>, i: nat) returns (more: seq<Step>)
    requires i < |Run(steps).barriers| && AllFinished(Run(steps), i)
    ensures Run(steps + more).barriers == Run(steps).barriers && AllFinished(Run(steps + more), i + 1)
  {
    RunKeepsInv(steps);
    assert LastBarrier(Run(steps).barriers, i, Run(steps).priors[i]);
    var start := StartOne(steps, i);
    var finish := FinishOne(steps + start, i);
    more := start + finish;
    assert steps + more == steps + start + finish;
  }

  /**
   No handler waits for ever: the chain leads back to frames that wait for nobody, so that
   every run can be continued until the bodies of the first `n` frames have finished.
   */
  lemma {:induction false} EveryHandlerCanFinish(steps: seq<Step>, n: nat) returns (more: seq<Step>)
    requires n <= |Run(steps).barriers|
    ensures Run(steps + more).barriers == Run(steps).barriers && AllFinished(Run(steps + more), n)
  {
    if n == 0 {
      more := [];
      assert steps + more == steps;
    } else {
      var front := EveryHandlerCanFinish(steps, n - 1);
      var last := HandleOne(steps + front, n - 1);
      more := front + last;
      assert steps + more == steps + front + last;
    }
  }

  lemma StartOne(steps: seq<Step>, i: nat) returns (more: seq<Step>)
    requires i < |Run(steps).priors| && (Run(steps).priors[i].Some? ==> Run(steps).priors[i].value in Run(steps).finished)
    ensures Run(steps + more).barriers == Run(steps).barriers && Run(steps + more).finished == Run(steps).finished
    ensures i in Run(steps + more).started
  {
    if i in Run(steps).started {
      more := [];
      assert steps + more == steps;
    } else {
      more := [Start(i)];
      RunSnoc(steps, Start(i));
    }
  }

  lemma FinishOne(steps: seq<Step>, i: nat) returns (more: seq<Step>)
    requires i in Run(steps).started
    ensures Run(steps + more).barriers == Run(steps).barriers && Run(steps + more).finished == Run(steps).finished + {i}
  {
    if i in Run(steps).finished {
      more := [];
      assert steps + more == steps;
    } else {
      more := [Finish(i)];
      RunSnoc(steps, Finish(i));
    }
  }

  /** And a frame is always taken up, linked to the last barrier before it. */
  lemma FrameIsTakenUp(steps: seq<Step>, barrier: bool)
    ensures var st, next := Run(steps), Run(steps + [Read(barrier)]);
      && next.barriers == st.barriers + [barrier] && |next.priors| == |st.barriers| + 1
      && LastBarrier(next.barriers, |st.barriers|, next.priors[|st.barriers|])
      && next.started == st.started && next.finished == st.finished
  {
    RunSnoc(steps, Read(barrier));
    RunKeepsInv(steps);
    RunKeepsInv(steps + [Read(barrier)]);
  }
}
