/**
 The budget of turn-opening job wakes and the once-only job/done row (cmd/sta/jobs.go).
 Owners, jobs and tasks are only compared, so they are numbers here; job 0 stands for an id
 that is blank after trimming.
 */
module JobWakes {
  const DefaultLimit := 3

  function Effective(limit: int): nat {
    if limit <= 0 then DefaultLimit else limit
  }

  function Get(m: map<nat, nat>, k: nat): nat {
    if k in m then m[k] else 0
  }

  datatype Delivery = OpensTurn | Quiet

  /** Whether a delivery that finds its owner idle, or not, may open a turn. */
  predicate MayWake(count: nat, wakeup: bool, idle: bool, limit: int) {
    wakeup && idle && count < Effective(limit)
  }

  class WakeBudget {
    var counts: map<nat, nat>

    constructor ()
      ensures counts == map[]
    {
      counts := map[];
    }

    method Reset(owner: nat)
      modifies this
      ensures counts == old(counts) - {owner}
    {
      counts := counts - {owner};
    }

    /** Spends one wake of the owner's budget; the turn itself is opened outside the lock, and may fail. */
    method Admit(owner: nat, wakeup: bool, idle: bool, limit: int) returns (d: Delivery)
      modifies this
      ensures d == if MayWake(Get(old(counts), owner), wakeup, idle, limit) then OpensTurn else Quiet
      ensures d == OpensTurn <==> wakeup && idle && (if owner in old(counts) then old(counts)[owner] else 0) < if limit > 0 then limit else 3
      ensures counts == if d.OpensTurn? then old(counts)[owner := Get(old(counts), owner) + 1] else old(counts)
    {
      d := Quiet;
      if wakeup && idle {
        var bound := if limit <= 0 then DefaultLimit else limit;
        var count := if owner in counts then counts[owner] else 0;
        if count < bound {
          counts := counts[owner := count + 1];
          d := OpensTurn;
        }
      }
    }
  }

  // ---------- Deliveries, failures and resets in any order ----------

  /**
   Since the owner's last reset: the wakes admitted (its count in the map), those whose turn
   opened or failed to open, and how many earlier ones were still flying at the reset.
   `flying` counts the wakes admitted and not yet carried out.
   */
  datatype Account = Account(count: nat, turns: nat, failed: nat, carried: nat, flying: nat)

  datatype Step =
    | Refill(owner: nat)
    | Deliver(owner: nat, wakeup: bool, idle: bool, limit: int)
    | Open(owner: nat, ok: bool)

  function Of(accounts: map<nat, Account>, owner: nat): Account {
    if owner in accounts then accounts[owner] else Account(0, 0, 0, 0, 0)
  }

  function Next(a: Account, step: Step): Account {
    match step
    case Refill(_) => Account(0, 0, 0, a.flying, a.flying)
    case Deliver(_, wakeup, idle, limit) =>
      if MayWake(a.count, wakeup, idle, limit) then a.(count := a.count + 1, flying := a.flying + 1) else a
    case Open(_, ok) =>
      if a.flying == 0 then a
      else if ok then a.(turns := a.turns + 1, flying := a.flying - 1)
      else a.(failed := a.failed + 1, flying := a.flying - 1)
  }

  function Do(accounts: map<nat, Account>, step: Step): map<nat, Account> {
    accounts[step.owner := Next(Of(accounts, step.owner), step)]
  }

  /** The steps that come after the accounts stood as they do. */
  function After(accounts: map<nat, Account>, steps: seq<Step>): map<nat, Account> {
    if steps == [] then accounts else Do(After(accounts, steps[..|steps| - 1]), steps[|steps| - 1])
  }

  function Run(steps: seq<Step>): map<nat, Account> { After(map[], steps) }

  /** Every wake admitted or carried over is opened, failed or still flying. */
  predicate Balanced(a: Account) {
    a.count + a.carried == a.turns + a.failed + a.flying
  }

  predicate Bounded(steps: seq<Step>, limit: nat) {
    forall step | step in steps && step.Deliver? :: Effective(step.limit) <= limit
  }

  predicate NotReset(steps: seq<Step>, o: nat) {
    Refill(o) !in steps
  }

  lemma {:induction false} AfterKeepsBudget(accounts: map<nat, Account>, steps: seq<Step>, limit: nat, o: nat)
    requires Bounded(steps, limit) && Balanced(Of(accounts, o)) && Of(accounts, o).count <= limit
    ensures var a := Of(After(accounts, steps), o); Balanced(a) && a.count <= limit
  {
    if steps != [] {
      var before, step := steps[..|steps| - 1], steps[|steps| - 1];
      AfterKeepsBudget(accounts, before, limit, o);
      if step.owner == o { NextKeepsBudget(Of(After(accounts, before), o), step, limit); }
    }
  }

  lemma NextKeepsBudget(a: Account, step: Step, limit: nat)
    requires Balanced(a) && a.count <= limit && (step.Deliver? ==> Effective(step.limit) <= limit)
    ensures Balanced(Next(a, step)) && Next(a, step).count <= limit
  {}

  lemma {:induction false} AfterKeepsCarried(accounts: map<nat, Account>, steps: seq<Step>, o: nat)
    requires NotReset(steps, o)
    ensures Of(After(accounts, steps), o).carried == Of(accounts, o).carried
  {
    if steps != [] { AfterKeepsCarried(accounts, steps[..|steps| - 1], o); }
  }

  /**
   Since its last reset an owner has had at most `limit` turns opened by job wakes, beyond
   those admitted before the reset and carried out after it; and every admitted wake is
   opened, failed or still to come.
   */
  lemma WakesAreBounded(steps: seq<Step>, limit: nat, o: nat)
    requires Bounded(steps, limit)
    ensures var a := Of(Run(steps), o); Balanced(a) && a.count <= limit && a.turns + a.failed <= limit + a.carried
  {
    AfterKeepsBudget(map[], steps, limit, o);
  }

  // ---------- How many turns the next period can have ----------

  function Times(step: Step, n: nat): (steps: seq<Step>)
    ensures |steps| == n && forall s | s in steps :: s == step
  {
    seq(n, i => step)
  }

  lemma {:induction false} AfterAppend(accounts: map<nat, Account>, a: seq<Step>, b: seq<Step>)
    ensures After(accounts, a + b) == After(After(accounts, a), b)
  {
    if b == [] {
      assert a + b == a;
    } else {
      assert (a + b)[..|a + b| - 1] == a + b[..|b| - 1];
      AfterAppend(accounts, a, b[..|b| - 1]);
    }
  }

  /** An idle owner's deliveries spend its budget one by one. */
  lemma {:induction false} SpendAll(accounts: map<nat, Account>, o: nat, limit: int, n: nat)
    requires Of(accounts, o).count + n <= Effective(limit)
    ensures var a := Of(accounts, o);
      Of(After(accounts, Times(Deliver(o, true, true, limit), n)), o) == a.(count := a.count + n, flying := a.flying + n)
  {
    if n > 0 {
      var step := Deliver(o, true, true, limit);
      assert Times(step, n)[..n - 1] == Times(step, n - 1);
      SpendAll(accounts, o, limit, n - 1);
    }
  }

  lemma {:induction false} OpenAll(accounts: map<nat, Account>, o: nat, ok: bool, n: nat)
    requires n <= Of(accounts, o).flying
    ensures var a := Of(accounts, o);
      Of(After(accounts, Times(Open(o, ok), n)), o) ==
        if ok then a.(turns := a.turns + n, flying := a.flying - n) else a.(failed := a.failed + n, flying := a.flying - n)
  {
    if n > 0 {
      assert Times(Open(o, ok), n)[..n - 1] == Times(Open(o, ok), n - 1);
      OpenAll(accounts, o, ok, n - 1);
    }
  }

  /** Spend the whole budget, then open every wake that is flying. */
  function Burst(o: nat, limit: int, flying: nat): seq<Step> {
    Times(Deliver(o, true, true, limit), Effective(limit)) + Times(Open(o, true), Effective(limit) + flying)
  }

  lemma BurstIsBounded(o: nat, limit: int, flying: nat)
    ensures Bounded(Burst(o, limit, flying), Effective(limit)) && NotReset(Burst(o, limit, flying), o)
  {
    var spend, open := Times(Deliver(o, true, true, limit), Effective(limit)), Times(Open(o, true), Effective(limit) + flying);
    forall step | step in spend + open ensures step in spend || step in open {}
  }

  lemma BurstIsTwofold(accounts: map<nat, Account>, o: nat, limit: int, flying: nat)
    ensures After(accounts, Burst(o, limit, flying))
      == After(After(accounts, Times(Deliver(o, true, true, limit), Effective(limit))), Times(Open(o, true), Effective(limit) + flying))
  {
    AfterAppend(accounts, Times(Deliver(o, true, true, limit), Effective(limit)), Times(Open(o, true), Effective(limit) + flying));
  }

  lemma BurstOpens(accounts: map<nat, Account>, o: nat, limit: int)
    requires Of(accounts, o).count == 0
    ensures var a := Of(accounts, o);
      Of(After(accounts, Burst(o, limit, a.flying)), o).turns == a.turns + Effective(limit) + a.flying
  {
    var n, a := Effective(limit), Of(accounts, o);
    var spent := After(accounts, Times(Deliver(o, true, true, limit), n));
    assert Of(spent, o) == a.(count := n, flying := a.flying + n) by { SpendAll(accounts, o, limit, n); }
    OpenAll(spent, o, true, n + a.flying);
    BurstIsTwofold(accounts, o, limit, a.flying);
  }

  /** The bound is reached: after any reset with `f` wakes flying, the next period can have exactly `limit + f` turns. */
  lemma BoundIsReached(accounts: map<nat, Account>, o: nat, limit: int)
    ensures var reset := Do(accounts, Refill(o));
      var f := Of(accounts, o).flying;
      && Bounded(Burst(o, limit, f), Effective(limit)) && NotReset(Burst(o, limit, f), o)
      && Of(After(reset, Burst(o, limit, f)), o).turns == Effective(limit) + f
  {
    BurstIsBounded(o, limit, Of(accounts, o).flying);
    BurstOpens(Do(accounts, Refill(o)), o, limit);
  }

  /**
   A wake whose turn fails to open is spent all the same: after a reset with none flying,
   as many failing ones as the limit leave the owner without a turn and without a wake.
   */
  lemma FailedWakesSpendTheBudget(accounts: map<nat, Account>, o: nat, limit: int)
    requires Of(accounts, o) == Account(0, 0, 0, 0, 0)
    ensures var n := Effective(limit);
      var a := Of(After(After(accounts, Times(Deliver(o, true, true, limit), n)), Times(Open(o, false), n)), o);
      a.turns == 0 && a.failed == n && !MayWake(a.count, true, true, limit)
  {
    var n := Effective(limit);
    SpendAll(accounts, o, limit, n);
    OpenAll(After(accounts, Times(Deliver(o, true, true, limit), n)), o, false, n);
  }

  /** Before its next reset, and under this limit, the owner can have more turns opened than the limit. */
  ghost predicate CanExceed(accounts: map<nat, Account>, o: nat, limit: int) {
    exists more :: Bounded(more, Effective(limit)) && NotReset(more, o) && Of(After(accounts, more), o).turns > Effective(limit)
  }

  /**
   The exact condition: in the period that a reset begins, the limit can be exceeded if and
   only if a wake was flying at the reset.
   */
  lemma LimitIsExceededExactlyWhen(accounts: map<nat, Account>, o: nat, limit: int)
    ensures CanExceed(Do(accounts, Refill(o)), o, limit) <==> Of(accounts, o).flying > 0
  {
    var reset := Do(accounts, Refill(o));
    BoundIsReached(accounts, o, limit);
    if CanExceed(reset, o, limit) {
      var more :| Bounded(more, Effective(limit)) && NotReset(more, o) && Of(After(reset, more), o).turns > Effective(limit);
      AfterKeepsBudget(reset, more, Effective(limit), o);
      AfterKeepsCarried(reset, more, o);
    }
  }

  /** Such a reset is reachable: one wake is admitted and has not opened its turn yet. */
  lemma CarriedWakeExceedsTheLimit(limit: int)
    ensures CanExceed(Run([Deliver(7, true, true, limit), Refill(7)]), 7, limit)
  {
    var d := Deliver(7, true, true, limit);
    assert [d][..0] == [] && [d, Refill(7)][..1] == [d];
    assert Of(Run([d]), 7).flying == 1 by { assert Run([]) == map[]; }
    LimitIsExceededExactlyWhen(Run([d]), 7, limit);
  }

  // ---------- The terminal row of a job ----------

  /** A job/done row of a job, or any other row. */
  datatype Row = Done(job: nat) | Elsewhere

  const Blank: nat := 0

  class JobLog {
    var rows: seq<Row>

    constructor ()
      ensures rows == []
    {
      rows := [];
    }

    method DoneRecorded(job: nat) returns (found: bool)
      ensures found <==> job != Blank && Done(job) in rows
    {
      if job == Blank { return false; }
      for i := 0 to |rows|
        invariant Done(job) !in rows[..i]
      {
        if rows[i] == Done(job) { return true; }
      }
      assert rows[..|rows|] == rows;
      found := false;
    }

    /** Scan and append under one lock. */
    method EnsureDone(job: nat) returns (ok: bool)
      modifies this
      ensures ok ==> Done(job) in rows
      ensures rows == if ok then Ensured(old(rows), job) else old(rows)
    {
      var found := DoneRecorded(job);
      if found { return true; }
      ok := *;
      if ok { rows := rows + [Done(job)]; }
    }
  }

  function Ensured(rows: seq<Row>, job: nat): seq<Row> {
    if job != Blank && Done(job) in rows then rows else rows + [Done(job)]
  }

  function EnsuredAll(jobs: seq<nat>): seq<Row> {
    if jobs == [] then [] else Ensured(EnsuredAll(jobs[..|jobs| - 1]), jobs[|jobs| - 1])
  }

  /** However often its completion is reported, a job has one terminal row, unless its id is blank: then one per report. */
  lemma {:induction false} OneDoneRowPerJob(jobs: seq<nat>, job: nat)
    ensures multiset(EnsuredAll(jobs))[Done(job)] ==
      if job !in jobs then 0 else if job == Blank then multiset(jobs)[job] else 1
  {
    if jobs != [] {
      var before, last := jobs[..|jobs| - 1], jobs[|jobs| - 1];
      OneDoneRowPerJob(before, job);
      OneDoneRowPerJob(before, last);
      assert jobs == before + [last];
      var rows := EnsuredAll(before);
      assert Done(last) in rows <==> multiset(rows)[Done(last)] > 0;
      assert multiset(rows + [Done(last)]) == multiset(rows) + multiset{Done(last)};
    }
  }
}
