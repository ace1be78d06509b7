/**
 The closed prefix of a session log (cmd/sta/team.go): the part a fork may replay, up to the
 last complete turn.
 */
module ClosedPrefix {
  datatype Event = TurnStart | StepStart | StepEnd | TurnEnd | Other

  // ---------- The automaton ----------

  datatype Phase = Idle | InTurn | InStep

  function Next(p: Phase, e: Event): Phase {
    match (p, e)
    case (Idle, TurnStart) => InTurn
    case (InTurn, StepStart) => InStep
    case (InStep, StepEnd) => InTurn
    case (InTurn, TurnEnd) => Idle
    case _ => p
  }

  function PhaseOf(log: seq<Event>): Phase {
    if log == [] then Idle else Next(PhaseOf(log[..|log| - 1]), log[|log| - 1])
  }

  predicate HasLifecycle(log: seq<Event>) {
    exists i | 0 <= i < |log| :: log[i] != Other
  }

  lemma HasLifecycleSplits(a: seq<Event>, b: seq<Event>)
    ensures HasLifecycle(a + b) <==> HasLifecycle(a) || HasLifecycle(b)
  {
    if HasLifecycle(a) {
      var i :| 0 <= i < |a| && a[i] != Other;
      assert (a + b)[i] != Other;
    }
    if HasLifecycle(b) {
      var i :| 0 <= i < |b| && b[i] != Other;
      assert (a + b)[|a| + i] != Other;
    }
  }

  /** A turn ends with the last event of the log. */
  predicate Closes(log: seq<Event>) {
    log != [] && log[|log| - 1] == TurnEnd && PhaseOf(log[..|log| - 1]) == InTurn
  }

  // ---------- The prefix ----------

  function LastClosed(log: seq<Event>): (n: nat)
    ensures n <= |log|
  {
    if log == [] then 0 else if Closes(log) then |log| else LastClosed(log[..|log| - 1])
  }

  function Prefix(log: seq<Event>): seq<Event> {
    if HasLifecycle(log) then log[..LastClosed(log)] else log
  }

  method ClosedSessionPrefix(log: seq<Event>) returns (prefix: seq<Event>)
    ensures prefix == Prefix(log)
  {
    var turn, step, lastClosed, hasLifecycle := 0, 0, -1, false;
    for i := 0 to |log|
      invariant PhaseOf(log[..i]) == (if turn == 0 then Idle else if step == 0 then InTurn else InStep)
      invariant 0 <= turn <= 1 && 0 <= step <= turn && -1 <= lastClosed < i
      invariant lastClosed + 1 == LastClosed(log[..i]) && hasLifecycle == HasLifecycle(log[..i])
    {
      assert log[..i + 1][..i] == log[..i] && log[..i + 1] == log[..i] + [log[i]];
      HasLifecycleSplits(log[..i], [log[i]]);
      assert HasLifecycle([log[i]]) <==> [log[i]][0] != Other;
      match log[i]
      case TurnStart =>
        hasLifecycle := true;
        if turn == 0 { turn := 1; }
      case StepStart =>
        hasLifecycle := true;
        if turn == 1 && step == 0 { step := 1; }
      case StepEnd =>
        hasLifecycle := true;
        if turn == 1 && step == 1 { step := 0; }
      case TurnEnd =>
        hasLifecycle := true;
        if turn == 1 && step == 0 { turn := 0; lastClosed := i; }
      case Other =>
    }
    assert log[..|log|] == log;
    if !hasLifecycle { return log; }
    if lastClosed < 0 { return []; }
    prefix := log[..lastClosed + 1];
  }

  // ---------- Open turns and steps, without the automaton ----------

  /** A turn has begun, and no end of a turn outside a step has come since. */
  ghost predicate TurnOpen(log: seq<Event>)
    decreases |log|
  {
    exists i | 0 <= i < |log| :: log[i] == TurnStart && forall j | i < j < |log| :: log[j] == TurnEnd ==> StepOpen(log[..j])
  }

  /** A step has begun inside a turn, and has not ended since. */
  ghost predicate StepOpen(log: seq<Event>)
    decreases |log|
  {
    exists i | 0 <= i < |log| :: log[i] == StepStart && TurnOpen(log[..i]) && forall j | i < j < |log| :: log[j] != StepEnd
  }

  lemma TurnOpenNext(front: seq<Event>, last: Event)
    ensures TurnOpen(front + [last]) <==> last == TurnStart || (TurnOpen(front) && (last == TurnEnd ==> StepOpen(front)))
  {
    var log := front + [last];
    assert log[..|front|] == front;
    forall j | 0 <= j < |front| ensures log[..j] == front[..j] && log[j] == front[j] {}
    if last == TurnStart { assert log[|front|] == TurnStart; }
    if TurnOpen(front) && (last == TurnEnd ==> StepOpen(front)) {
      var i :| 0 <= i < |front| && front[i] == TurnStart && forall j | i < j < |front| :: front[j] == TurnEnd ==> StepOpen(front[..j]);
      assert log[i] == TurnStart;
    }
    if TurnOpen(log) && last != TurnStart {
      var i :| 0 <= i < |log| && log[i] == TurnStart && forall j | i < j < |log| :: log[j] == TurnEnd ==> StepOpen(log[..j]);
      assert front[i] == TurnStart;
    }
  }

  lemma StepOpenNext(front: seq<Event>, last: Event)
    ensures StepOpen(front + [last]) <==> (last == StepStart && TurnOpen(front)) || (StepOpen(front) && last != StepEnd)
  {
    var log := front + [last];
    assert log[..|front|] == front;
    forall j | 0 <= j < |front| ensures log[..j] == front[..j] && log[j] == front[j] {}
    if last == StepStart && TurnOpen(front) { assert log[|front|] == StepStart; }
    if StepOpen(front) && last != StepEnd {
      var i :| 0 <= i < |front| && front[i] == StepStart && TurnOpen(front[..i]) && forall j | i < j < |front| :: front[j] != StepEnd;
      assert log[i] == StepStart;
    }
    if StepOpen(log) && !(last == StepStart && TurnOpen(front)) {
      var i :| 0 <= i < |log| && log[i] == StepStart && TurnOpen(log[..i]) && forall j | i < j < |log| :: log[j] != StepEnd;
      assert front[i] == StepStart;
    }
  }

  /** The automaton knows exactly whether a turn, and in it a step, is open. */
  lemma {:induction false} PhaseExactlyWhen(log: seq<Event>)
    ensures PhaseOf(log) != Idle <==> TurnOpen(log)
    ensures PhaseOf(log) == InStep <==> StepOpen(log)
  {
    if log != [] {
      var front, last := log[..|log| - 1], log[|log| - 1];
      assert log == front + [last];
      PhaseExactlyWhen(front);
      TurnOpenNext(front, last);
      StepOpenNext(front, last);
    }
  }

  /** A log is closed by its last event exactly if that ends an open turn outside a step. */
  lemma ClosesExactlyWhen(log: seq<Event>)
    ensures Closes(log) <==>
      log != [] && log[|log| - 1] == TurnEnd && TurnOpen(log[..|log| - 1]) && !StepOpen(log[..|log| - 1])
  {
    if log != [] { PhaseExactlyWhen(log[..|log| - 1]); }
  }

  // ---------- What the prefix is ----------

  /** The last closing position: the log closes there, and at no later one. */
  lemma {:induction false} LastClosedIsLast(log: seq<Event>)
    ensures LastClosed(log) > 0 ==> Closes(log[..LastClosed(log)])
    ensures forall n | LastClosed(log) < n <= |log| :: !Closes(log[..n])
  {
    if log != [] {
      assert log[..|log|] == log;
      var front := log[..|log| - 1];
      if !Closes(log) {
        LastClosedIsLast(front);
        assert front[..LastClosed(front)] == log[..LastClosed(front)];
        forall n | LastClosed(log) < n <= |log| ensures !Closes(log[..n]) {
          if n < |log| { assert front[..n] == log[..n]; }
        }
      }
    }
  }

  /**
   The result is the whole log if it has no lifecycle event, and otherwise empty or closed by
   its last event, with the automaton idle; and no longer prefix of the log is closed so.
   */
  lemma PrefixIsTheLongestClosed(log: seq<Event>)
    ensures Prefix(log) <= log
    ensures !HasLifecycle(log) ==> Prefix(log) == log
    ensures HasLifecycle(log) && Prefix(log) != [] ==> Closes(Prefix(log)) && PhaseOf(Prefix(log)) == Idle
    ensures HasLifecycle(log) ==> forall n | |Prefix(log)| < n <= |log| :: !Closes(log[..n])
  {
    LastClosedIsLast(log);
  }

  lemma PrefixIsIdempotent(log: seq<Event>)
    ensures Prefix(Prefix(log)) == Prefix(log)
  {
    LastClosedIsLast(log);
    var p := Prefix(log);
    if HasLifecycle(log) && p != [] {
      assert Closes(p) && p[..|p|] == p;
    }
  }

  lemma LastClosedGrows(a: seq<Event>, b: seq<Event>)
    ensures LastClosed(a) <= LastClosed(a + b)
    ensures (a + b)[..LastClosed(a)] == a[..LastClosed(a)]
    ensures LastClosed(a + b) > LastClosed(a) ==> LastClosed(a + b) > |a|
  {
    var log := a + b;
    LastClosedIsLast(a);
    LastClosedIsLast(log);
    assert forall n | 0 <= n <= |a| :: log[..n] == a[..n];
  }

  /**
   More events never shorten the prefix, except in one case: a log without lifecycle events,
   replayed as a whole, gets its first ones and none of them closes a turn.
   */
  lemma PrefixGrowsExactlyWhen(a: seq<Event>, b: seq<Event>)
    ensures Prefix(a) <= Prefix(a + b) <==>
      a == [] || HasLifecycle(a) || !HasLifecycle(b) || LastClosed(a + b) > 0
  {
    LastClosedGrows(a, b);
    HasLifecycleSplits(a, b);
    if !HasLifecycle(a) { LastClosedIsLast(a); }
  }
}
