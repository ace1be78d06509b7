/**
 Provider generations (cmd/sta/llm.go): a published provider registry is leased by
 turns and streams, and once it is replaced it is closed after its last lease ends.
 */
module ProviderLeases {
  import opened Common

  // ---------- One generation: the sections under its mutex ----------

  /** The mutable part of a generation. */
  datatype Gen = Gen(refs: nat, retired: bool, closed: bool)

  const Fresh := Gen(0, false, false)

  predicate CanAcquire(g: Gen) {
    !g.retired && !g.closed
  }

  function Acquired(g: Gen): Gen {
    if CanAcquire(g) then g.(refs := g.refs + 1) else g
  }

  function Dropped(g: Gen): Gen {
    if g.refs > 0 then g.(refs := g.refs - 1) else g
  }

  /** Whether the section just run obliges its caller to close the registry. */
  predicate MustClose(g: Gen) {
    g.retired && g.refs == 0 && !g.closed
  }

  function Settled(g: Gen): Gen {
    if MustClose(g) then g.(closed := true) else g
  }

  function Released(g: Gen): Gen { Settled(Dropped(g)) }

  function Retired(g: Gen): Gen { Settled(g.(retired := true)) }

  class ProviderGeneration {
    const registry: nat
    var refs: nat
    var retired: bool
    var closed: bool

    ghost function View(): Gen
      reads this
    {
      Gen(refs, retired, closed)
    }

    constructor (registry: nat)
      ensures this.registry == registry && View() == Fresh
    {
      this.registry := registry;
      refs, retired, closed := 0, false, false;
    }

    /** Takes a lease; refused once the generation is retired. */
    method Acquire() returns (ok: bool)
      modifies this
      ensures ok == CanAcquire(old(View())) && View() == Acquired(old(View()))
      ensures ok <==> !retired && !closed
      ensures refs == (if ok then old(refs) + 1 else old(refs)) && retired == old(retired) && closed == old(closed)
    {
      if retired || closed { return false; }
      refs := refs + 1;
      ok := true;
    }

    /** Gives a lease back; the returned registry is closed by the caller, outside the lock. */
    method Release() returns (close: Option<nat>)
      modifies this
      ensures View() == Released(old(View()))
      ensures close == if MustClose(Dropped(old(View()))) then Some(registry) else None
      ensures refs == (if old(refs) > 0 then old(refs) - 1 else 0) && retired == old(retired)
      ensures close == (if retired && refs == 0 && !old(closed) then Some(registry) else None)
      ensures closed == (old(closed) || close.Some?)
    {
      close := None;
      if refs > 0 { refs := refs - 1; }
      if retired && refs == 0 && !closed {
        closed := true;
        close := Some(registry);
      }
    }

    method Retire() returns (close: Option<nat>)
      modifies this
      ensures View() == Retired(old(View()))
      ensures close == if MustClose(old(View()).(retired := true)) then Some(registry) else None
      ensures retired && refs == old(refs)
      ensures close == (if refs == 0 && !old(closed) then Some(registry) else None)
      ensures closed == (old(closed) || close.Some?)
    {
      close := None;
      if !retired { retired := true; }
      if refs == 0 && !closed {
        closed := true;
        close := Some(registry);
      }
    }
  }

  /** A stream under a lease of its own (a turn's release closure behaves the same way). */
  class LeasedReader {
    const gen: ProviderGeneration
    var released: bool

    constructor (gen: ProviderGeneration)
      ensures this.gen == gen && !released
    {
      this.gen := gen;
      released := false;
    }

    /** Delivers one event; the first failure or finish event gives the lease back, later ones do nothing. */
    method Next(failed: bool, finish: bool) returns (close: Option<nat>)
      modifies this, gen
      ensures released == (old(released) || failed || finish)
      ensures gen.View() == if released && !old(released) then Released(old(gen.View())) else old(gen.View())
      ensures close.Some? <==> released && !old(released) && MustClose(Dropped(old(gen.View())))
      ensures close.Some? ==> close.value == gen.registry
    {
      close := None;
      if failed || finish {
        if !released {
          released := true;
          close := gen.Release();
        }
      }
    }
  }

  // ---------- All generations, leases and publications ----------

  datatype Phase = Building | Abandoned | Published

  datatype Lease = Lease(gen: nat, settled: bool)

  /**
   Registries are numbered as they are built.  `retiring` holds the generations some
   publisher or the shutdown has read and will retire; `closing` the registries somebody
   has decided to close and not closed yet; `closes` the close calls made.
   */
  datatype State = State(
    phase: seq<Phase>,
    gens: seq<Gen>,
    current: Option<nat>,
    shutDown: bool,
    retiring: multiset<nat>,
    leases: seq<Lease>,
    closing: multiset<nat>,
    closes: multiset<nat>)

  datatype Step =
    | Build                  // a registry is assembled
    | Abandon(reg: nat)      // its assembly fails, and its registry is closed at once
    | Publish(reg: nat)      // the live pointers are swapped
    | Shutdown               // closeProviderGenerations reads the live generation
    | Retire(reg: nat)       // a publisher or the shutdown retires a generation it holds
    | Acquire(reg: nat)      // a turn is pinned, or an unheld stream starts
    | Settle(lease: nat)     // a release closure is called, possibly not for the first time
    | CloseRegistry(reg: nat)

  const Init := State([], [], None, false, multiset{}, [], multiset{}, multiset{})

  predicate Known(st: State, r: nat) {
    r < |st.phase| && r < |st.gens|
  }

  predicate Enabled(st: State, step: Step) {
    match step
    case Build => true
    case Abandon(r) => Known(st, r) && st.phase[r].Building?
    case Publish(r) => Known(st, r) && st.phase[r].Building?
    case Shutdown => st.current.Some?
    case Retire(r) => r in st.retiring && Known(st, r)
    case Acquire(r) => Known(st, r) && st.phase[r].Published?
    case Settle(l) => l < |st.leases| && Known(st, st.leases[l].gen)
    case CloseRegistry(r) => r in st.closing
  }

  function Also(owed: multiset<nat>, r: nat, yes: bool): multiset<nat> {
    if yes then owed + multiset{r} else owed
  }

  /** A step that is not enabled leaves the state as it is. */
  function Do(st: State, step: Step): State {
    if !Enabled(st, step) then st else
    match step
    case Build => st.(phase := st.phase + [Building], gens := st.gens + [Fresh])
    case Abandon(r) => st.(phase := st.phase[r := Abandoned], closes := st.closes + multiset{r})
    case Publish(r) =>
      st.(phase := st.phase[r := Published], current := Some(r),
          retiring := if st.current.Some? then st.retiring + multiset{st.current.value} else st.retiring)
    case Shutdown => st.(shutDown := true, retiring := st.retiring + multiset{st.current.value})
    case Retire(r) =>
      var g := st.gens[r];
      st.(retiring := st.retiring - multiset{r}, gens := st.gens[r := Retired(g)],
          closing := Also(st.closing, r, MustClose(g.(retired := true))))
    case Acquire(r) =>
      if !CanAcquire(st.gens[r]) then st
      else st.(gens := st.gens[r := Acquired(st.gens[r])], leases := st.leases + [Lease(r, false)])
    case Settle(l) =>
      if st.leases[l].settled then st else
      var r := st.leases[l].gen;
      st.(leases := st.leases[l := Lease(r, true)], gens := st.gens[r := Released(st.gens[r])],
          closing := Also(st.closing, r, MustClose(Dropped(st.gens[r]))))
    case CloseRegistry(r) =>
      st.(closing := st.closing - multiset{r}, closes := st.closes + multiset{r})
  }

  function Run(steps: seq<Step>): State {
    if steps == [] then Init else Do(Run(steps[..|steps| - 1]), steps[|steps| - 1])
  }

  /** The leases out on generation `r`. */
  function Holders(leases: seq<Lease>, r: nat): set<nat> {
    set l | 0 <= l < |leases| && leases[l] == Lease(r, false)
  }

  function LeasesOn(leases: seq<Lease>, r: nat): nat {
    |Holders(leases, r)|
  }

  // ---------- The invariant ----------

  /** What holds of registry `r` in every reachable state. */
  ghost predicate Sound(st: State, r: nat)
    requires |st.phase| == |st.gens|
  {
    // A close is decided or made exactly when the generation is marked closed or was abandoned.
    && st.closing[r] + st.closes[r]
         == (if r < |st.gens| && (st.gens[r].closed || st.phase[r].Abandoned?) then 1 else 0)
    && (r in st.retiring ==> r < |st.gens| && st.phase[r].Published?)
    && (r < |st.gens| ==>
          && st.gens[r].refs == LeasesOn(st.leases, r)
          && (st.gens[r].closed ==> st.gens[r].retired && st.gens[r].refs == 0)
          && (st.gens[r].retired ==> st.phase[r].Published? && (st.gens[r].refs == 0 ==> st.gens[r].closed))
          // A superseded generation is retired or about to be.
          && (st.phase[r].Published? ==> st.current == Some(r) || r in st.retiring || st.gens[r].retired))
  }

  ghost predicate Inv(st: State) {
    && |st.phase| == |st.gens|
    && (forall r: nat :: Sound(st, r))
    && (forall l | 0 <= l < |st.leases| :: st.leases[l].gen < |st.gens| && st.phase[st.leases[l].gen].Published?)
    && (st.current.Some? ==>
          && st.current.value < |st.gens| && st.phase[st.current.value].Published?
          && (!st.shutDown ==> st.current.value !in st.retiring && !st.gens[st.current.value].retired))
  }

  lemma LeaseTaken(leases: seq<Lease>, r: nat, q: nat)
    ensures LeasesOn(leases + [Lease(r, false)], q) == LeasesOn(leases, q) + if q == r then 1 else 0
  {
    var next := leases + [Lease(r, false)];
    if q == r {
      assert Holders(next, q) == Holders(leases, q) + {|leases|};
    } else {
      assert Holders(next, q) == Holders(leases, q);
    }
  }

  lemma LeaseSettled(leases: seq<Lease>, l: nat, q: nat)
    requires l < |leases| && !leases[l].settled
    ensures LeasesOn(leases, q) == LeasesOn(leases[l := Lease(leases[l].gen, true)], q) + if q == leases[l].gen then 1 else 0
  {
    if q == leases[l].gen { OwnLeaseSettled(leases, l); } else { OtherLeaseSettled(leases, l, q); }
  }

  lemma OwnLeaseSettled(leases: seq<Lease>, l: nat)
    requires l < |leases| && !leases[l].settled
    ensures LeasesOn(leases, leases[l].gen) == LeasesOn(leases[l := Lease(leases[l].gen, true)], leases[l].gen) + 1
  {
    var q := leases[l].gen;
    var next := leases[l := Lease(q, true)];
    assert leases[l] == Lease(q, false);
    assert Holders(leases, q) == Holders(next, q) + {l};
  }

  lemma OtherLeaseSettled(leases: seq<Lease>, l: nat, q: nat)
    requires l < |leases| && !leases[l].settled && q != leases[l].gen
    ensures LeasesOn(leases, q) == LeasesOn(leases[l := Lease(leases[l].gen, true)], q)
  {
    assert Holders(leases[l := Lease(leases[l].gen, true)], q) == Holders(leases, q);
  }

  lemma BuildKeepsInv(st: State)
    requires Inv(st)
    ensures Inv(Do(st, Build))
  {
    assert Holders(st.leases, |st.gens|) == {};
    forall q: nat ensures Sound(Do(st, Build), q) { assert Sound(st, q); }
  }

  lemma AbandonKeepsInv(st: State, r: nat)
    requires Inv(st) && Enabled(st, Abandon(r))
    ensures Inv(Do(st, Abandon(r)))
  {
    forall q: nat ensures Sound(Do(st, Abandon(r)), q) { assert Sound(st, q); }
  }

  lemma PublishKeepsInv(st: State, r: nat)
    requires Inv(st) && Enabled(st, Publish(r))
    ensures Inv(Do(st, Publish(r)))
  {
    assert Sound(st, r);
    forall q: nat ensures Sound(Do(st, Publish(r)), q) { assert Sound(st, q); }
  }

  lemma ShutdownKeepsInv(st: State)
    requires Inv(st) && Enabled(st, Shutdown)
    ensures Inv(Do(st, Shutdown))
  {
    forall q: nat ensures Sound(Do(st, Shutdown), q) { assert Sound(st, q); }
  }

  lemma RetireKeepsInv(st: State, r: nat)
    requires Inv(st) && Enabled(st, Retire(r))
    ensures Inv(Do(st, Retire(r)))
  {
    forall q: nat ensures Sound(Do(st, Retire(r)), q) { assert Sound(st, q); }
  }

  lemma AcquireKeepsInv(st: State, r: nat)
    requires Inv(st) && Enabled(st, Acquire(r))
    ensures Inv(Do(st, Acquire(r)))
  {
    forall q: nat ensures Sound(Do(st, Acquire(r)), q) {
      assert Sound(st, q);
      LeaseTaken(st.leases, r, q);
    }
  }

  lemma SettleKeepsInv(st: State, l: nat)
    requires Inv(st) && Enabled(st, Settle(l))
    ensures Inv(Do(st, Settle(l)))
  {
    if !st.leases[l].settled {
      var r := st.leases[l].gen;
      assert l in Holders(st.leases, r);
      assert Sound(st, r) && st.gens[r].refs > 0;
      forall q: nat ensures Sound(Do(st, Settle(l)), q) {
        assert Sound(st, q);
        LeaseSettled(st.leases, l, q);
      }
    }
  }

  lemma CloseRegistryKeepsInv(st: State, r: nat)
    requires Inv(st) && Enabled(st, CloseRegistry(r))
    ensures Inv(Do(st, CloseRegistry(r)))
  {
    forall q: nat ensures Sound(Do(st, CloseRegistry(r)), q) { assert Sound(st, q); }
  }

  lemma {:induction false} RunKeepsInv(steps: seq<Step>)
    ensures Inv(Run(steps))
  {
    if steps == [] {
      assert forall r: nat :: Sound(Init, r);
    } else {
      var st, step := Run(steps[..|steps| - 1]), steps[|steps| - 1];
      RunKeepsInv(steps[..|steps| - 1]);
      if Enabled(st, step) {
        match step
        case Build => BuildKeepsInv(st);
        case Abandon(r) => AbandonKeepsInv(st, r);
        case Publish(r) => PublishKeepsInv(st, r);
        case Shutdown => ShutdownKeepsInv(st);
        case Retire(r) => RetireKeepsInv(st, r);
        case Acquire(r) => AcquireKeepsInv(st, r);
        case Settle(l) => SettleKeepsInv(st, l);
        case CloseRegistry(r) => CloseRegistryKeepsInv(st, r);
      }
    }
  }

  // ---------- What every run guarantees ----------

  /** Every built registry is closed at most once, and never both closed and still to be closed. */
  lemma ClosedAtMostOnce(steps: seq<Step>, r: nat)
    ensures var st := Run(steps); st.closing[r] + st.closes[r] <= 1
  {
    RunKeepsInv(steps);
    assert Sound(Run(steps), r);
  }

  /** A reference count is exactly the number of leases out, and never underflows. */
  lemma RefsCountLeases(steps: seq<Step>, r: nat)
    requires r < |Run(steps).gens|
    ensures Run(steps).gens[r].refs == LeasesOn(Run(steps).leases, r)
  {
    RunKeepsInv(steps);
    assert Sound(Run(steps), r);
  }

  /** While a lease is out, its registry is neither closed nor about to be. */
  lemma LeasedIsOpen(steps: seq<Step>, l: nat)
    requires l < |Run(steps).leases| && !Run(steps).leases[l].settled
    ensures var st := Run(steps); st.leases[l].gen !in st.closes && st.leases[l].gen !in st.closing
  {
    RunKeepsInv(steps);
    var st := Run(steps);
    var r := st.leases[l].gen;
    assert l in Holders(st.leases, r);
    assert Sound(st, r);
    assert st.gens[r].refs == LeasesOn(st.leases, r) > 0 && !st.gens[r].closed;
    assert st.closing[r] + st.closes[r] == 0;
  }

  /**
   When no section is unfinished, a registry has been closed exactly if its assembly
   failed, or it was superseded or shut down and no lease on it is left.
   */
  lemma QuietRunClosed(steps: seq<Step>, r: nat)
    requires var st := Run(steps);
      r < |st.gens| && r < |st.phase| && st.retiring == multiset{} && st.closing == multiset{}
    ensures var st := Run(steps);
      r in st.closes <==>
        || st.phase[r].Abandoned?
        || (st.phase[r].Published? && (st.current != Some(r) || st.gens[r].retired) && Holders(st.leases, r) == {})
  {
    RunKeepsInv(steps);
    var st := Run(steps);
    assert Sound(st, r) && st.gens[r].refs == LeasesOn(st.leases, r);
  }

  /** The generation takes no more leases, or somebody is about to see to that. */
  predicate OnItsWayOut(st: State, r: nat) {
    r < |st.gens| && (r in st.retiring || st.gens[r].retired)
  }

  lemma OutStep(st: State, step: Step, r: nat)
    requires OnItsWayOut(st, r)
    ensures OnItsWayOut(Do(st, step), r)
  {}

  lemma {:induction false} OutStaysOut(steps: seq<Step>, more: seq<Step>, r: nat)
    requires OnItsWayOut(Run(steps), r)
    ensures OnItsWayOut(Run(steps + more), r)
  {
    if more == [] {
      assert steps + more == steps;
    } else {
      OutStaysOut(steps, more[..|more| - 1], r);
      assert (steps + more)[..|steps + more| - 1] == steps + more[..|more| - 1];
      OutStep(Run(steps + more[..|more| - 1]), more[|more| - 1], r);
    }
  }

  /**
   A shutdown retires the generation that was live when it came: with no section unfinished it
   takes no more leases, and is closed exactly if none is out.
   */
  lemma ShutdownRetiresTheLive(steps: seq<Step>, more: seq<Step>, r: nat)
    requires Run(steps).current == Some(r)
    requires var st := Run(steps + [Shutdown] + more); st.retiring == multiset{} && st.closing == multiset{}
    ensures var st := Run(steps + [Shutdown] + more);
      && st.shutDown && r < |st.gens| && !CanAcquire(st.gens[r]) && (r in st.closes <==> Holders(st.leases, r) == {})
  {
    var shut := steps + [Shutdown];
    assert shut[..|shut| - 1] == steps;
    RunKeepsInv(steps);
    OutStaysOut(shut, more, r);
    StaysShutDown(shut, more);
    RunKeepsInv(shut + more);
    assert Sound(Run(shut + more), r);
    QuietRunClosed(shut + more, r);
  }

  lemma {:induction false} StaysShutDown(steps: seq<Step>, more: seq<Step>)
    requires Run(steps).shutDown
    ensures Run(steps + more).shutDown
  {
    if more == [] {
      assert steps + more == steps;
    } else {
      StaysShutDown(steps, more[..|more| - 1]);
      assert (steps + more)[..|steps + more| - 1] == steps + more[..|more| - 1];
    }
  }

  /** Before shutdown, pinning a turn to the published generation always succeeds. */
  lemma PinningSucceeds(steps: seq<Step>)
    requires Run(steps).current.Some? && !Run(steps).shutDown
    ensures var st := Run(steps); var r := st.current.value;
      && r < |st.gens| && CanAcquire(st.gens[r])
      && Do(st, Acquire(r)).leases == st.leases + [Lease(r, false)]
  {
    RunKeepsInv(steps);
    assert Sound(Run(steps), Run(steps).current.value);
  }

  lemma RunSnoc(steps: seq<Step>, step: Step)
    ensures Run(steps + [step]) == Do(Run(steps), step)
  {
    assert (steps + [step])[..|steps|] == steps;
  }

  const Leasing: seq<Step> := [] + [Build] + [Publish(0)] + [Acquire(0)]
  const Replacing: seq<Step> := Leasing + [Build] + [Publish(1)] + [Retire(0)]

  lemma OneIsLeased()
    ensures Run(Leasing) == State([Published], [Gen(1, false, false)], Some(0), false, multiset{}, [Lease(0, false)], multiset{}, multiset{})
  {
    RunSnoc([], Build);
    RunSnoc([] + [Build], Publish(0));
    RunSnoc([] + [Build] + [Publish(0)], Acquire(0));
    assert Run([] + [Build]) == Init.(phase := [Building], gens := [Fresh]);
    assert Run([] + [Build] + [Publish(0)]) == Init.(phase := [Published], gens := [Fresh], current := Some(0));
  }

  lemma OneIsReplaced()
    ensures var st := Run(Replacing);
      && st.phase == [Published, Published] && st.gens == [Gen(1, true, false), Fresh] && st.current == Some(1)
      && st.leases == [Lease(0, false)] && st.retiring == multiset{} && st.closing == multiset{} && st.closes == multiset{}
  {
    OneIsLeased();
    RunSnoc(Leasing, Build);
    RunSnoc(Leasing + [Build], Publish(1));
    RunSnoc(Leasing + [Build] + [Publish(1)], Retire(0));
    assert Run(Leasing + [Build] + [Publish(1)]).retiring == multiset{0};
    assert Run(Leasing + [Build] + [Publish(1)]).gens == [Gen(1, false, false), Fresh];
  }

  /** A whole life: a generation is leased, superseded, and closed when its lease ends. */
  lemma OneGenerationIsClosed()
    ensures var st := Run(Replacing + [Settle(0)] + [CloseRegistry(0)]); st.closes == multiset{0} && st.current == Some(1)
  {
    OneIsReplaced();
    RunSnoc(Replacing, Settle(0));
    RunSnoc(Replacing + [Settle(0)], CloseRegistry(0));
    assert Run(Replacing + [Settle(0)]).closing == multiset{0};
  }
}
