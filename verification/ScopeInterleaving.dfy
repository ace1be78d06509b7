/**
 Scope closing under concurrency (internal/agent/scope.go): any number of callers
 create scopes and close them, interleaved at the granularity of the scope locks.
 A step is one section under a lock, or the return of one `Close` activation, at
 which that activation runs the disposers it took.  Only one activation can seal a
 scope, so an activation that did is named by its scope.
 */
module ScopeInterleaving {
  import opened Common

  /** A sealing activation: children still to close, the one being closed now, and who called it. */
  datatype Activation = Activation(kids: seq<nat>, waitsFor: Option<nat>, caller: Option<nat>)

  /** Scopes are numbered in creation order. */
  datatype State = State(
    parent: seq<Option<nat>>,
    children: seq<seq<nat>>,
    closed: seq<bool>,
    bornClosed: set<nat>,
    active: map<nat, Activation>,
    disposed: seq<nat>)

  datatype Step =
    | New(above: Option<nat>)   // NewScope
    | Begin(scope: nat)         // a fresh call of Close
    | Descend(scope: nat)       // the activation at `scope` calls Close on its next child
    | Return(scope: nat)        // the activation at `scope` runs its disposers and returns

  const Init := State([], [], [], {}, map[], [])

  predicate IsScope(st: State, s: nat) {
    s < |st.parent| && s < |st.children| && s < |st.closed|
  }

  predicate Enabled(st: State, step: Step) {
    match step
    case New(above) => above.Some? ==> IsScope(st, above.value)
    case Begin(s) => IsScope(st, s)
    case Descend(s) => s in st.active && st.active[s].waitsFor.None?
                       && st.active[s].kids != [] && IsScope(st, st.active[s].kids[0])
    case Return(s) => s in st.active && st.active[s].waitsFor.None? && st.active[s].kids == []
  }

  /** The section of `Close` under the lock of an open scope. */
  function Seal(st: State, s: nat, caller: Option<nat>): State
    requires IsScope(st, s)
  {
    st.(closed := st.closed[s := true], children := st.children[s := []],
        active := st.active[s := Activation(st.children[s], None, caller)])
  }

  /** A step that is not enabled leaves the state as it is. */
  function Do(st: State, step: Step): State {
    if !Enabled(st, step) then st else
    match step
    case New(above) =>
      var born := above.Some? && st.closed[above.value];
      var id := |st.closed|;
      st.(parent := st.parent + [above],
          closed := st.closed + [born],
          bornClosed := if born then st.bornClosed + {id} else st.bornClosed,
          children := (if above.Some? && !born
                       then st.children[above.value := st.children[above.value] + [id]]
                       else st.children) + [[]])
    case Begin(s) =>
      if st.closed[s] then st else Seal(st, s, None)
    case Descend(s) =>
      var a := st.active[s];
      var c := a.kids[0];
      if st.closed[c] then st.(active := st.active[s := a.(kids := a.kids[1..])])
      else Seal(st.(active := st.active[s := a.(kids := a.kids[1..], waitsFor := Some(c))]), c, Some(s))
    case Return(s) =>
      var rest := st.active - {s};
      var caller := st.active[s].caller;
      st.(disposed := st.disposed + [s],
          active := if caller.Some? && caller.value in rest
                    then rest[caller.value := rest[caller.value].(waitsFor := None)]
                    else rest)
  }

  function Run(steps: seq<Step>): State {
    if steps == [] then Init else Do(Run(steps[..|steps| - 1]), steps[|steps| - 1])
  }

  // ---------- The invariant ----------

  predicate Shape(st: State) {
    && |st.parent| == |st.children| == |st.closed|
    && (forall s | 0 <= s < |st.parent| && st.parent[s].Some? :: st.parent[s].value < s)
    && (forall s | s in st.bornClosed :: s < |st.closed| && st.closed[s])
    && (forall s | s in st.active :: s < |st.closed| && st.closed[s])
  }

  /** The activation at `p` has still to close `s`. */
  predicate Pending(st: State, p: nat, s: nat) {
    p in st.active && s in st.active[p].kids
  }

  /** An open scope is listed by an open parent, and about to be closed by a closed one. */
  predicate Covered(st: State)
    requires Shape(st)
  {
    forall s | 0 <= s < |st.closed| && !st.closed[s] && st.parent[s].Some? ::
      if st.closed[st.parent[s].value] then Pending(st, st.parent[s].value, s)
      else s in st.children[st.parent[s].value]
  }

  /** A closed scope was disposed once, or is being disposed, or was born closed. */
  predicate DisposedOnce(st: State)
    requires Shape(st)
  {
    && (forall i, j | 0 <= i < j < |st.disposed| :: st.disposed[i] != st.disposed[j])
    && (forall s | s in st.disposed :: s < |st.closed| && st.closed[s] && s !in st.bornClosed && s !in st.active)
    && (forall s | s in st.active :: s !in st.bornClosed)
    && (forall s | 0 <= s < |st.closed| && st.closed[s] :: s in st.bornClosed || s in st.disposed || s in st.active)
  }

  predicate Inv(st: State) {
    Shape(st) && Covered(st) && DisposedOnce(st)
  }

  lemma NewKeepsInv(st: State, step: Step)
    requires Inv(st) && step.New? && Enabled(st, step)
    ensures Inv(Do(st, step))
  {}

  lemma BeginKeepsInv(st: State, step: Step)
    requires Inv(st) && step.Begin? && Enabled(st, step)
    ensures Inv(Do(st, step))
  {}

  lemma DescendKeepsCovered(st: State, step: Step)
    requires Inv(st) && step.Descend? && Enabled(st, step)
    ensures Shape(Do(st, step)) && Covered(Do(st, step))
  {
    var kids := st.active[step.scope].kids;
    assert forall s | s in kids :: s == kids[0] || s in kids[1..];
  }

  lemma DescendKeepsDisposed(st: State, step: Step)
    requires Inv(st) && step.Descend? && Enabled(st, step) && Shape(Do(st, step))
    ensures DisposedOnce(Do(st, step))
  {}

  lemma DescendKeepsInv(st: State, step: Step)
    requires Inv(st) && step.Descend? && Enabled(st, step)
    ensures Inv(Do(st, step))
  {
    DescendKeepsCovered(st, step);
    DescendKeepsDisposed(st, step);
  }

  lemma ReturnKeepsInv(st: State, step: Step)
    requires Inv(st) && step.Return? && Enabled(st, step)
    ensures Inv(Do(st, step))
  {}

  lemma {:induction false} RunKeepsInv(steps: seq<Step>)
    ensures Inv(Run(steps))
  {
    if steps != [] {
      var st, step := Run(steps[..|steps| - 1]), steps[|steps| - 1];
      RunKeepsInv(steps[..|steps| - 1]);
      if Enabled(st, step) {
        match step
        case New(_) => NewKeepsInv(st, step);
        case Begin(_) => BeginKeepsInv(st, step);
        case Descend(_) => DescendKeepsInv(st, step);
        case Return(_) => ReturnKeepsInv(st, step);
      }
    }
  }

  // ---------- What every run guarantees ----------

  /** `u` is `s` or lies below it. */
  predicate Under(st: State, u: nat, s: nat)
    decreases u
  {
    u == s || (u < |st.parent| && st.parent[u].Some? && st.parent[u].value < u && Under(st, st.parent[u].value, s))
  }

  /** An activation at or below `s` still has an open child of its scope to close. */
  predicate Unfinished(st: State, s: nat) {
    exists p, c :: p in st.active && c in st.active[p].kids
      && Under(st, p, s) && c < |st.closed| && !st.closed[c] && c < |st.parent| && st.parent[c] == Some(p)
  }

  lemma {:induction false} OpenBelowClosed(st: State, u: nat, s: nat)
    requires Inv(st) && u < |st.closed| && s < |st.closed|
    requires Under(st, u, s) && st.closed[s] && !st.closed[u]
    ensures Unfinished(st, s)
    decreases u
  {
    var p := st.parent[u].value;
    if st.closed[p] {
      assert Pending(st, p, u);
    } else {
      OpenBelowClosed(st, p, s);
    }
  }

  /**
   In every run: below a closed scope everything is closed, unless some activation is
   still on its way to an open scope there.
   */
  lemma ClosedMeansAllBelowClosed(steps: seq<Step>, s: nat)
    requires s < |Run(steps).closed| && Run(steps).closed[s]
    ensures (forall u | 0 <= u < |Run(steps).closed| && Under(Run(steps), u, s) :: Run(steps).closed[u])
       <==> !Unfinished(Run(steps), s)
  {
    RunKeepsInv(steps);
    var st := Run(steps);
    forall u | 0 <= u < |st.closed| && Under(st, u, s) && !st.closed[u] ensures Unfinished(st, s) {
      OpenBelowClosed(st, u, s);
    }
    forall p, c | p in st.active && c in st.active[p].kids && Under(st, p, s)
                  && c < |st.closed| && !st.closed[c] && st.parent[c] == Some(p)
      ensures Under(st, c, s)
    {}
  }

  /** When no close is in progress, the scopes closed by a close were each disposed exactly once. */
  lemma QuietRunDisposedOnce(steps: seq<Step>)
    requires Run(steps).active == map[]
    ensures forall i, j | 0 <= i < j < |Run(steps).disposed| :: Run(steps).disposed[i] != Run(steps).disposed[j]
    ensures forall s :: s in Run(steps).disposed <==>
              0 <= s < |Run(steps).closed| && Run(steps).closed[s] && s !in Run(steps).bornClosed
    ensures forall u, s | 0 <= s < |Run(steps).closed| && 0 <= u < |Run(steps).closed| ::
              Under(Run(steps), u, s) && Run(steps).closed[s] ==> Run(steps).closed[u]
  {
    RunKeepsInv(steps);
    var st := Run(steps);
    forall u, s | 0 <= s < |st.closed| && 0 <= u < |st.closed| && Under(st, u, s) && st.closed[s]
      ensures st.closed[u]
    {
      if !st.closed[u] { OpenBelowClosed(st, u, s); }
    }
  }

  // ---------- One child after another, and children first ----------

  /** Who closes a child waits for it, and for it alone. */
  predicate CallerWaits(st: State, c: nat) {
    c in st.active && st.active[c].caller.Some? ==>
      var s := st.active[c].caller.value;
      s in st.active && st.active[s].waitsFor == Some(c)
  }

  /** A closed scope lists nothing, and an open one lists children of its own. */
  predicate ListsItsOwn(st: State, s: nat) {
    s < |st.closed| && s < |st.children| ==>
      && (st.closed[s] ==> st.children[s] == [])
      && (forall c | c in st.children[s] :: c < |st.parent| && st.parent[c] == Some(s))
  }

  lemma StepKeepsLists(st: State, step: Step, s: nat)
    requires Inv(st) && Enabled(st, step) && ListsItsOwn(st, s)
    ensures ListsItsOwn(Do(st, step), s)
  {}

  lemma StepKeepsCallers(st: State, step: Step, c: nat)
    requires Inv(st) && Enabled(st, step) && forall k: nat :: CallerWaits(st, k)
    ensures CallerWaits(Do(st, step), c)
  {
    assert CallerWaits(st, c);
    if step.Return? { assert CallerWaits(st, step.scope); }
  }

  lemma {:induction false} RunKeepsOrder(steps: seq<Step>)
    ensures forall s: nat :: ListsItsOwn(Run(steps), s)
    ensures forall c: nat :: CallerWaits(Run(steps), c)
  {
    if steps != [] {
      var st, step := Run(steps[..|steps| - 1]), steps[|steps| - 1];
      RunKeepsInv(steps[..|steps| - 1]);
      RunKeepsOrder(steps[..|steps| - 1]);
      if Enabled(st, step) {
        forall s: nat ensures ListsItsOwn(Do(st, step), s) { StepKeepsLists(st, step, s); }
        forall c: nat ensures CallerWaits(Do(st, step), c) { StepKeepsCallers(st, step, c); }
      }
    }
  }

  /**
   When a close is about to run its disposers, every close that it called has returned, and
   so has disposed of its scope; and it is about to close no other child of its own.
   */
  lemma CalledClosesReturnFirst(steps: seq<Step>, s: nat)
    requires Enabled(Run(steps), Return(s))
    ensures var st := Run(steps);
      && (forall c | c in st.active :: st.active[c].caller != Some(s))
      && st.active[s].kids == [] && s !in st.disposed && Do(st, Return(s)).disposed == st.disposed + [s]
  {
    RunKeepsInv(steps);
    RunKeepsOrder(steps);
    forall c | c in Run(steps).active ensures Run(steps).active[c].caller != Some(s) { assert CallerWaits(Run(steps), c); }
  }

  /** Below a closed scope nothing is listed, so that a scope created there is born closed and stays unlisted. */
  lemma ClosedScopeListsNothing(steps: seq<Step>, s: nat)
    requires s < |Run(steps).closed| && Run(steps).closed[s]
    ensures var st, next := Run(steps), Do(Run(steps), New(Some(s)));
      && s < |st.children| && st.children[s] == [] && next.children == st.children + [[]]
      && next.closed == st.closed + [true] && |st.closed| in next.bornClosed
  {
    RunKeepsInv(steps);
    RunKeepsOrder(steps);
    assert ListsItsOwn(Run(steps), s);
  }

  lemma TwoNested()
    ensures Do(Do(Init, New(None)), New(Some(0))) == State([None, Some(0)], [[1], []], [false, false], {}, map[], [])
  {
    var s1 := Do(Init, New(None));
    assert s1 == State([None], [[]], [false], {}, map[], []);
    assert s1.children[0] + [1] == [1];
    assert Do(s1, New(Some(0))).children == [[1], []];
  }

  lemma ThreeNested()
    ensures Do(Do(Do(Init, New(None)), New(Some(0))), New(Some(1)))
         == State([None, Some(0), Some(1)], [[1], [2], []], [false, false, false], {}, map[], [])
  {
    TwoNested();
    var s2 := State([None, Some(0)], [[1], []], [false, false], {}, map[], []);
    assert s2.children[1] + [2] == [2];
    assert Do(s2, New(Some(1))).children == [[1], [2], []];
  }

  /**
   Closing an inner scope at the same time makes the outer `Close` return early: here the
   close of 0 has returned while scope 2 below it is still open.
   */
  lemma OverlappingCloseReturnsEarly()
    ensures var st := Run([New(None), New(Some(0)), New(Some(1)), Begin(1), Begin(0), Descend(0), Return(0)]);
      st.disposed == [0] && st.closed == [true, true, false] && Under(st, 2, 0)
  {
    ThreeNested();
    var s1 := Do(Init, New(None));
    var s2 := Do(s1, New(Some(0)));
    var s3 := Do(s2, New(Some(1)));
    var s4 := Do(s3, Begin(1));
    assert s4.active == map[1 := Activation([2], None, None)];
    var s5 := Do(s4, Begin(0));
    assert s5.active[0] == Activation([1], None, None) && s5.closed == [true, true, false];
    var s6 := Do(s5, Descend(0));
    assert s6.active[0] == Activation([], None, None);
    var s7 := Do(s6, Return(0));
    RunOf([New(None), New(Some(0)), New(Some(1)), Begin(1), Begin(0), Descend(0), Return(0)], [Init, s1, s2, s3, s4, s5, s6, s7]);
  }

  lemma {:induction false} RunOf(steps: seq<Step>, states: seq<State>)
    requires |states| == |steps| + 1 && states[0] == Init
    requires forall i | 0 <= i < |steps| :: states[i + 1] == Do(states[i], steps[i])
    ensures Run(steps) == states[|steps|]
  {
    if steps != [] {
      RunOf(steps[..|steps| - 1], states[..|steps|]);
    }
  }
}
