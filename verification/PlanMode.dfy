/**
 The plan-mode switch (cmd/sta/plan_mode_runtime.go).  A request made while a turn is open is
 kept in a volatile map and, for the case of a crash, recovered from the session log by a fold
 over the plan commands; both must mean that the latest request wins.
 */
module PlanMode {
  import opened Common

  /** The decoded events that matter here; id 0 stands for a blank command id. */
  datatype Event =
    | TurnStart
    | TurnEnd
    | ModeSet(active: bool)
    | CommandRun(id: nat, plan: bool, wanted: bool)
    | CommandDone(id: nat, success: bool)
    | Other

  // ---------- The fold over the log ----------

  datatype Fold = Fold(active: bool, running: map<nat, bool>, pending: Option<bool>)

  function Fed(f: Fold, e: Event): Fold {
    match e
    case ModeSet(active) => f.(active := active, pending := None)
    case CommandRun(id, plan, wanted) => if plan && id != 0 then f.(running := f.running[id := wanted]) else f
    case CommandDone(id, success) =>
      if id !in f.running then f
      else
        var wanted := f.running[id];
        f.(running := f.running - {id}, pending := if success && wanted != f.active then Some(wanted) else None)
    case _ => f
  }

  function Folded(log: seq<Event>): Fold {
    if log == [] then Fold(false, map[], None) else Fed(Folded(log[..|log| - 1]), log[|log| - 1])
  }

  /** The mode that a fold arrives at. */
  function Arrives(f: Fold): bool {
    if f.pending.Some? then f.pending.value else f.active
  }

  lemma FoldedAppend(log: seq<Event>, e: Event)
    ensures Folded(log + [e]) == Fed(Folded(log), e)
  {
    assert (log + [e])[..|log|] == log;
  }

  function Mode(log: seq<Event>): bool {
    Folded(log).active
  }

  /** The mode a restart will arrive at: the recovered selection, or else the logged mode. */
  function Survivor(log: seq<Event>): bool {
    Arrives(Folded(log))
  }

  function OpenTurn(log: seq<Event>): bool {
    if log == [] then false
    else
      match log[|log| - 1]
      case TurnStart => true
      case TurnEnd => false
      case _ => OpenTurn(log[..|log| - 1])
  }

  // ---------- What the log says, without the fold ----------

  /** A turn has begun, and none has ended since. */
  ghost predicate InTurn(log: seq<Event>) {
    exists i | 0 <= i < |log| :: log[i].TurnStart? && forall j | i < j < |log| :: !log[j].TurnEnd?
  }

  /** The last mode event of the log sets this mode. */
  ghost predicate LastSet(log: seq<Event>, active: bool) {
    exists i | 0 <= i < |log| :: log[i] == ModeSet(active) && forall j | i < j < |log| :: !log[j].ModeSet?
  }

  /** The event begins or ends a plan command of this id. */
  predicate Concerns(e: Event, id: nat) {
    (e.CommandDone? && e.id == id) || (e.CommandRun? && e.plan && e.id == id)
  }

  /** The last event about a plan command of this id is that it runs, and asks for this mode. */
  ghost predicate StillRuns(log: seq<Event>, id: nat, wanted: bool) {
    id != 0 && exists i | 0 <= i < |log| ::
      log[i] == CommandRun(id, true, wanted) && forall j | i < j < |log| :: !Concerns(log[j], id)
  }

  /** Event number `i` ends a plan command that ran until then. */
  ghost predicate Ends(log: seq<Event>, i: nat)
    requires i < |log|
  {
    log[i].CommandDone? && exists wanted :: StillRuns(log[..i], log[i].id, wanted)
  }

  /** It ends one that has asked in success for this mode, which is not in force. */
  ghost predicate SelectsAt(log: seq<Event>, i: nat, wanted: bool)
    requires i < |log|
  {
    Ends(log, i) && log[i].success && StillRuns(log[..i], log[i].id, wanted) && wanted != LastSet(log[..i], true)
  }

  /** Event number `i` puts an end to a selection made before it. */
  ghost predicate Unselects(log: seq<Event>, i: nat)
    requires i < |log|
  {
    log[i].ModeSet? || Ends(log, i)
  }

  /** Such an event, and since then no other plan command has ended and no mode was set. */
  ghost predicate Selected(log: seq<Event>, wanted: bool) {
    exists i | 0 <= i < |log| :: SelectsAt(log, i, wanted) && forall j | i < j < |log| :: !Unselects(log, j)
  }

  lemma {:induction false} OpenTurnExactlyWhen(log: seq<Event>)
    ensures OpenTurn(log) <==> InTurn(log)
  {
    if log != [] {
      var front, last := log[..|log| - 1], log[|log| - 1];
      OpenTurnExactlyWhen(front);
      if InTurn(front) && !last.TurnEnd? {
        var i :| 0 <= i < |front| && front[i].TurnStart? && forall j | i < j < |front| :: !front[j].TurnEnd?;
        assert log[i].TurnStart? && forall j | i < j < |log| :: !log[j].TurnEnd?;
      }
      if InTurn(log) && !last.TurnStart? {
        var i :| 0 <= i < |log| && log[i].TurnStart? && forall j | i < j < |log| :: !log[j].TurnEnd?;
        assert front[i].TurnStart? && forall j | i < j < |front| :: front[j] == log[j];
      }
      if last.TurnStart? { assert log[|log| - 1].TurnStart?; }
    }
  }

  lemma {:induction false} ModeExactlyWhen(log: seq<Event>)
    ensures Mode(log) <==> LastSet(log, true)
  {
    if log != [] {
      var front, last := log[..|log| - 1], log[|log| - 1];
      ModeExactlyWhen(front);
      if LastSet(front, true) && !last.ModeSet? {
        var i :| 0 <= i < |front| && front[i] == ModeSet(true) && forall j | i < j < |front| :: !front[j].ModeSet?;
        assert log[i] == ModeSet(true) && forall j | i < j < |log| :: !log[j].ModeSet?;
      }
      if LastSet(log, true) && !last.ModeSet? {
        var i :| 0 <= i < |log| && log[i] == ModeSet(true) && forall j | i < j < |log| :: !log[j].ModeSet?;
        assert front[i] == ModeSet(true) && forall j | i < j < |front| :: front[j] == log[j];
      }
      if last == ModeSet(true) { assert log[|log| - 1] == ModeSet(true); }
    }
  }

  lemma StillRunsLonger(front: seq<Event>, last: Event, id: nat, wanted: bool)
    requires StillRuns(front, id, wanted) && !Concerns(last, id)
    ensures StillRuns(front + [last], id, wanted)
  {
    var log := front + [last];
    var i :| 0 <= i < |front| && front[i] == CommandRun(id, true, wanted) && forall j | i < j < |front| :: !Concerns(front[j], id);
    assert log[i] == CommandRun(id, true, wanted) && forall j | i < j < |front| :: log[j] == front[j];
  }

  lemma StillRunsEarlier(front: seq<Event>, last: Event, id: nat, wanted: bool)
    requires StillRuns(front + [last], id, wanted)
    ensures last == CommandRun(id, true, wanted) || (!Concerns(last, id) && StillRuns(front, id, wanted))
  {
    var log := front + [last];
    var i :| 0 <= i < |log| && log[i] == CommandRun(id, true, wanted) && forall j | i < j < |log| :: !Concerns(log[j], id);
    if i < |front| {
      assert log[|front|] == last && front[i] == log[i] && forall j | i < j < |front| :: front[j] == log[j];
    }
  }

  lemma {:induction false} RunningExactlyWhen(log: seq<Event>, id: nat, wanted: bool)
    ensures id in Folded(log).running && Folded(log).running[id] == wanted <==> StillRuns(log, id, wanted)
  {
    if log != [] {
      var front, last := log[..|log| - 1], log[|log| - 1];
      assert log == front + [last];
      RunningExactlyWhen(front, id, wanted);
      if StillRuns(front, id, wanted) && !Concerns(last, id) { StillRunsLonger(front, last, id, wanted); }
      if StillRuns(log, id, wanted) { StillRunsEarlier(front, last, id, wanted); }
      if last == CommandRun(id, true, wanted) && id != 0 { assert log[|log| - 1] == CommandRun(id, true, wanted); }
    }
  }

  lemma EndsExactlyWhen(log: seq<Event>, i: nat)
    requires i < |log|
    ensures Ends(log, i) <==> log[i].CommandDone? && log[i].id in Folded(log[..i]).running
  {
    if log[i].CommandDone? {
      var id, f := log[i].id, Folded(log[..i]);
      RunningExactlyWhen(log[..i], id, true);
      RunningExactlyWhen(log[..i], id, false);
      if id in f.running { assert StillRuns(log[..i], id, f.running[id]); }
    }
  }

  /** The selection that a restart recovers, told from the events alone. */
  lemma {:induction false} SelectedExactlyWhen(log: seq<Event>, wanted: bool)
    ensures Folded(log).pending == Some(wanted) <==> Selected(log, wanted)
  {
    if log != [] {
      var n := |log| - 1;
      var front, last := log[..n], log[n];
      SelectedExactlyWhen(front, wanted);
      EndsExactlyWhen(log, n);
      ModeExactlyWhen(front);
      if last.CommandDone? { RunningExactlyWhen(front, last.id, wanted); }
      assert log == front + [last];
      if Selected(front, wanted) && !Unselects(log, n) { SelectedLonger(front, last, wanted); }
      if Selected(log, wanted) { SelectedEarlier(front, last, wanted); }
      if SelectsAt(log, n, wanted) { assert Selected(log, wanted); }
    }
  }

  lemma SameInFront(front: seq<Event>, last: Event, i: nat, wanted: bool)
    requires i < |front|
    ensures var log := front + [last];
      (Unselects(front, i) <==> Unselects(log, i)) && (SelectsAt(front, i, wanted) <==> SelectsAt(log, i, wanted))
  {
    assert (front + [last])[..i] == front[..i];
  }

  lemma SelectedLonger(front: seq<Event>, last: Event, wanted: bool)
    requires Selected(front, wanted) && !Unselects(front + [last], |front|)
    ensures Selected(front + [last], wanted)
  {
    var log := front + [last];
    var i :| 0 <= i < |front| && SelectsAt(front, i, wanted) && forall j | i < j < |front| :: !Unselects(front, j);
    SameInFront(front, last, i, wanted);
    forall j | i < j < |log| ensures !Unselects(log, j) {
      if j < |front| { SameInFront(front, last, j, wanted); }
    }
  }

  lemma SelectedEarlier(front: seq<Event>, last: Event, wanted: bool)
    requires Selected(front + [last], wanted)
    ensures var log := front + [last]; SelectsAt(log, |front|, wanted) || (!Unselects(log, |front|) && Selected(front, wanted))
  {
    var log := front + [last];
    var i :| 0 <= i < |log| && SelectsAt(log, i, wanted) && forall j | i < j < |log| :: !Unselects(log, j);
    if i < |front| {
      SameInFront(front, last, i, wanted);
      forall j | i < j < |front| ensures !Unselects(front, j) { SameInFront(front, last, j, wanted); }
    }
  }

  // ---------- The critical sections ----------

  datatype Action = Committed | Queued | Cancelled | Noop | Failed

  /** The log and the session's entry in the map of pending switches. */
  datatype View = View(log: seq<Event>, pending: Option<bool>)

  /** The decision under the lock; `current` and `turnOpen` have been read from the log before. */
  function Decided(v: View, active: bool, current: bool, turnOpen: bool, appends: bool): (View, Action) {
    if active == (if v.pending.Some? then v.pending.value else current) then (v.(pending := None), if active == current then Noop else Cancelled)
    else if turnOpen then (v.(pending := Some(active)), if current == active then Cancelled else Queued)
    else if !appends then (v, Failed)
    else (View(v.log + [ModeSet(active)], None), Committed)
  }

  function Applied(v: View, appends: bool): (View, bool) {
    var wanted := if v.pending.Some? then v.pending else Folded(v.log).pending;
    if wanted.None? then (v, true)
    else if wanted.value == Mode(v.log) then (v.(pending := None), true)
    else if !appends then (v, false)
    else (View(v.log + [ModeSet(wanted.value)], None), true)
  }

  class PlanSwitch {
    var log: seq<Event>
    var pending: Option<bool>

    ghost function State(): View
      reads this
    {
      View(log, pending)
    }

    constructor (log: seq<Event>)
      ensures State() == View(log, None)
    {
      this.log, pending := log, None;
    }

    method HasOpenTurn() returns (open: bool)
      ensures open == OpenTurn(log)
      ensures open <==> InTurn(log)
    {
      open := false;
      for i := 0 to |log|
        invariant open == OpenTurn(log[..i])
      {
        assert log[..i + 1][..i] == log[..i];
        match log[i]
        case TurnStart => open := true;
        case TurnEnd => open := false;
        case _ =>
      }
      assert log[..|log|] == log;
      OpenTurnExactlyWhen(log);
    }

    method FoldLog() returns (active: bool, selected: Option<bool>)
      ensures active == Mode(log) && selected == Folded(log).pending
      ensures active <==> LastSet(log, true)
      ensures forall wanted :: selected == Some(wanted) <==> Selected(log, wanted)
    {
      active, selected := false, None;
      var running: map<nat, bool> := map[];
      for i := 0 to |log|
        invariant Fold(active, running, selected) == Folded(log[..i])
      {
        assert log[..i + 1][..i] == log[..i];
        match log[i]
        case ModeSet(mode) => active, selected := mode, None;
        case CommandRun(id, plan, wanted) =>
          if plan && id != 0 { running := running[id := wanted]; }
        case CommandDone(id, success) =>
          if id in running {
            var wanted := running[id];
            running := running - {id};
            selected := if success && wanted != active then Some(wanted) else None;
          }
        case _ =>
      }
      assert log[..|log|] == log;
      ModeExactlyWhen(log);
      SelectedExactlyWhen(log, true);
      SelectedExactlyWhen(log, false);
    }

    method Decide(active: bool, current: bool, turnOpen: bool) returns (action: Action, ghost appends: bool)
      modifies this
      ensures (State(), action) == old(Decided(State(), active, current, turnOpen, appends))
    {
      appends := true;
      var target := if pending.Some? then pending.value else current;
      if active == target {
        pending := None;
        return if active == current then Noop else Cancelled, appends;
      }
      if turnOpen {
        pending := Some(active);
        return if current == active then Cancelled else Queued, appends;
      }
      var ok: bool := *;
      appends := ok;
      if !ok { return Failed, appends; }
      log := log + [ModeSet(active)];
      pending := None;
      action := Committed;
    }

    /**
     Records the wanted mode: at once if the session is idle, else for the next turn boundary.
     What is already selected only drops the entry in the map.
     */
    method SetPlanMode(active: bool, agentRunning: bool) returns (action: Action, ghost appends: bool)
      modifies this
      ensures (State(), action) == old(Decided(State(), active, Mode(log), OpenTurn(log) || agentRunning, appends))
      ensures var current, busy := old(LastSet(log, true)), old(InTurn(log)) || agentRunning;
        var target := if old(pending).Some? then old(pending).value else current;
        if active == target then
          log == old(log) && pending == None && action == if active == current then Noop else Cancelled
        else if busy then
          log == old(log) && pending == Some(active) && action == if active == current then Cancelled else Queued
        else if action == Failed then log == old(log) && pending == old(pending)
        else action == Committed && log == old(log) + [ModeSet(active)] && pending == None
    {
      var current, _ := FoldLog();
      var open := HasOpenTurn();
      action, appends := Decide(active, current, open || agentRunning);
    }

    /** Runs at a turn boundary: makes the selected mode the logged one. */
    method ApplyPending() returns (ok: bool, ghost appends: bool)
      modifies this
      ensures (State(), ok) == old(Applied(State(), appends))
      ensures old(pending).None? && (forall wanted :: !old(Selected(log, wanted))) ==> ok && State() == old(State())
      ensures forall wanted | old(pending) == Some(wanted) || (old(pending).None? && old(Selected(log, wanted))) ::
        if wanted == old(LastSet(log, true)) then ok && log == old(log) && pending == None
        else if ok then log == old(log) + [ModeSet(wanted)] && pending == None
        else log == old(log) && pending == old(pending)
    {
      appends, ok := true, true;
      var current, selected := FoldLog();
      var wanted := if pending.Some? then pending else selected;
      if wanted.None? { return; }
      if wanted.value == current {
        pending := None;
        return;
      }
      ok := *;
      appends := ok;
      if ok {
        log := log + [ModeSet(wanted.value)];
        pending := None;
      }
    }
  }

  // ---------- Commands, turn boundaries and crashes in any order ----------

  /** What a command under way has done: nothing, read the logged mode, read whether a turn is open too, or decided. */
  datatype Phase = Begun | Reading(current: bool) | Read(current: bool, turnOpen: bool) | Switched

  datatype Command = Command(id: nat, wanted: bool, phase: Phase)

  /**
   A turn boundary under way, which reads without a common lock: it has read the logged mode,
   has found no entry in the map, will log `target`, or has only the map to clear.
   */
  datatype Bound = Away | Entered(current: bool) | NoEntry(current: bool) | Looked(target: bool) | Clearing

  /** `wanted` is the mode asked for by the latest command that ended. */
  datatype State = State(view: View, command: Option<Command>, bound: Bound, wanted: bool)

  datatype Step =
    | Begin(id: nat, wanted: bool)
    | ReadMode                  // the two reads of setPlanModeFor
    | ReadTurn(agentRunning: bool)
    | Decide(appends: bool)
    | End(success: bool)
    | LookMode                  // applyPendingPlanMode, in its five parts
    | LookMap
    | LookFold
    | Commit(appends: bool)
    | Clear
    | Elsewhere(e: Event)       // turns open and close, other commands run
    | Crash

  const Init := State(View([], None), None, Away, false)

  predicate IsForeign(log: seq<Event>, e: Event) {
    match e
    case ModeSet(_) => false
    case CommandRun(_, plan, _) => !plan
    case CommandDone(id, _) => id !in Folded(log).running
    case _ => true
  }

  predicate Enabled(st: State, step: Step) {
    match step
    case Begin(id, _) => st.command.None? && id != 0
    case ReadMode => st.command.Some? && st.command.value.phase.Begun?
    case ReadTurn(_) => st.command.Some? && st.command.value.phase.Reading?
    case Decide(_) => st.command.Some? && st.command.value.phase.Read?
    case End(success) => st.command.Some? && (success ==> st.command.value.phase.Switched?)
    case LookMode => st.bound.Away?
    case LookMap => st.bound.Entered?
    case LookFold => st.bound.NoEntry?
    case Commit(_) => st.bound.Looked?
    case Clear => st.bound.Clearing?
    case Elsewhere(e) => IsForeign(st.view.log, e)
    case Crash => true
  }

  function Appended(v: View, e: Event): View {
    v.(log := v.log + [e])
  }

  function Chosen(target: bool, current: bool): Bound {
    if target == current then Clearing else Looked(target)
  }

  /**
   A crash loses the map, the command and the boundary under way; whichever of the command's
   request and the previous one survives is then the latest.  A step that is not enabled
   leaves the state as it is.
   */
  function Do(st: State, step: Step): State {
    if !Enabled(st, step) then st else
    match step
    case Begin(id, wanted) =>
      st.(view := Appended(st.view, CommandRun(id, true, wanted)), command := Some(Command(id, wanted, Begun)))
    case ReadMode =>
      st.(command := Some(st.command.value.(phase := Reading(Mode(st.view.log)))))
    case ReadTurn(agentRunning) =>
      var phase := Read(st.command.value.phase.current, OpenTurn(st.view.log) || agentRunning);
      st.(command := Some(st.command.value.(phase := phase)))
    case Decide(appends) =>
      var c := st.command.value;
      var (view, action) := Decided(st.view, c.wanted, c.phase.current, c.phase.turnOpen, appends);
      st.(view := view, command := Some(c.(phase := if action == Failed then Begun else Switched)))
    case End(success) =>
      var c := st.command.value;
      st.(view := Appended(st.view, CommandDone(c.id, success)), command := None, wanted := if success then c.wanted else st.wanted)
    case LookMode => st.(bound := Entered(Mode(st.view.log)))
    case LookMap =>
      var current, pending := st.bound.current, st.view.pending;
      st.(bound := if pending.Some? then Chosen(pending.value, current) else NoEntry(current))
    case LookFold =>
      var current, pending := st.bound.current, Folded(st.view.log).pending;
      st.(bound := if pending.Some? then Chosen(pending.value, current) else Away)
    case Commit(appends) =>
      if appends then st.(view := Appended(st.view, ModeSet(st.bound.target)), bound := Clearing) else st.(bound := Away)
    case Clear => st.(view := st.view.(pending := None), bound := Away)
    case Elsewhere(e) => st.(view := Appended(st.view, e))
    case Crash => State(st.view.(pending := None), None, Away, Survivor(st.view.log))
  }

  function Run(steps: seq<Step>): State {
    if steps == [] then Init else Do(Run(steps[..|steps| - 1]), steps[|steps| - 1])
  }

  function Boundary(st: State, appends: bool): State {
    Do(Do(Do(Do(Do(st, LookMode), LookMap), LookFold), Commit(appends)), Clear)
  }

  /** A boundary that nothing comes between is ApplyPending. */
  lemma {:induction false} UndisturbedBoundary(st: State, appends: bool)
    requires st.bound.Away?
    ensures Boundary(st, appends) == st.(view := Applied(st.view, appends).0)
  {}

  /** Commands succeed, and none ends between the look and the commit of a boundary. */
  predicate Orderly(steps: seq<Step>) {
    steps == [] ||
    (var before, step := steps[..|steps| - 1], steps[|steps| - 1];
     Orderly(before) && (step.End? ==> step.success && !Run(before).bound.Looked?))
  }

  predicate Means(pending: Option<bool>, wanted: bool) {
    pending.Some? ==> pending.value == wanted
  }

  predicate CommandRuns(f: Fold, command: Option<Command>) {
    command.Some? ==> command.value.id in f.running && f.running[command.value.id] == command.value.wanted
  }

  /** Log and boundary mean the mode that is wanted. */
  predicate Settled(f: Fold, bound: Bound, wanted: bool) {
    Arrives(f) == wanted && (bound.Looked? ==> bound.target == wanted)
  }

  predicate Sound(f: Fold, pending: Option<bool>, command: Option<Command>, bound: Bound, wanted: bool) {
    && (f.pending.Some? ==> f.pending.value != f.active) && CommandRuns(f, command)
    && if command.Some? && command.value.phase.Switched? then
         Means(pending, command.value.wanted) && (command.value.wanted == wanted ==> Settled(f, bound, wanted))
       else Means(pending, wanted) && Settled(f, bound, wanted)
  }

  predicate Inv(st: State) {
    Sound(Folded(st.view.log), st.view.pending, st.command, st.bound, st.wanted)
  }

  lemma BeginKeepsInv(st: State, id: nat, wanted: bool)
    requires Inv(st) && Enabled(st, Begin(id, wanted))
    ensures Inv(Do(st, Begin(id, wanted)))
  {
    FoldedAppend(st.view.log, CommandRun(id, true, wanted));
  }

  lemma ReadKeepsInv(st: State, step: Step)
    requires Inv(st) && Enabled(st, step) && (step.ReadMode? || step.ReadTurn?)
    ensures Inv(Do(st, step))
  {}

  lemma DecideKeepsInv(st: State, appends: bool)
    requires Inv(st) && Enabled(st, Decide(appends))
    ensures Inv(Do(st, Decide(appends)))
  {
    FoldedAppend(st.view.log, ModeSet(st.command.value.wanted));
  }

  lemma EndKeepsInv(st: State)
    requires Inv(st) && Enabled(st, End(true)) && !st.bound.Looked?
    ensures Inv(Do(st, End(true)))
  {
    FoldedAppend(st.view.log, CommandDone(st.command.value.id, true));
  }

  lemma LookKeepsInv(st: State, step: Step)
    requires Inv(st) && Enabled(st, step) && (step.LookMode? || step.LookMap? || step.LookFold?)
    ensures Inv(Do(st, step))
  {}

  lemma CommitIsSound(f: Fold, pending: Option<bool>, command: Option<Command>, target: bool, wanted: bool)
    requires Sound(f, pending, command, Looked(target), wanted)
    ensures Sound(Fed(f, ModeSet(target)), pending, command, Clearing, wanted)
    ensures Sound(f, pending, command, Away, wanted)
  {}

  lemma CommitKeepsInv(st: State, appends: bool)
    requires Inv(st) && Enabled(st, Commit(appends))
    ensures Inv(Do(st, Commit(appends)))
  {
    CommitIsSound(Folded(st.view.log), st.view.pending, st.command, st.bound.target, st.wanted);
    if appends { FoldedAppend(st.view.log, ModeSet(st.bound.target)); }
  }

  lemma ClearKeepsInv(st: State)
    requires Inv(st) && Enabled(st, Clear)
    ensures Inv(Do(st, Clear))
  {}

  lemma ElsewhereKeepsInv(st: State, e: Event)
    requires Inv(st) && Enabled(st, Elsewhere(e))
    ensures Inv(Do(st, Elsewhere(e)))
  {
    FoldedAppend(st.view.log, e);
  }

  lemma CrashKeepsInv(st: State)
    requires Inv(st)
    ensures Inv(Do(st, Crash))
  {}

  lemma StepKeepsInv(st: State, step: Step)
    requires Inv(st) && (step.End? ==> step.success && !st.bound.Looked?)
    ensures Inv(Do(st, step))
  {
    if Enabled(st, step) {
      match step
      case Begin(id, wanted) => BeginKeepsInv(st, id, wanted);
      case ReadMode => ReadKeepsInv(st, step);
      case ReadTurn(_) => ReadKeepsInv(st, step);
      case Decide(appends) => DecideKeepsInv(st, appends);
      case End(_) => EndKeepsInv(st);
      case LookMode => LookKeepsInv(st, step);
      case LookMap => LookKeepsInv(st, step);
      case LookFold => LookKeepsInv(st, step);
      case Commit(appends) => CommitKeepsInv(st, appends);
      case Clear => ClearKeepsInv(st);
      case Elsewhere(e) => ElsewhereKeepsInv(st, e);
      case Crash => CrashKeepsInv(st);
    }
  }

  lemma {:induction false} RunKeepsInv(steps: seq<Step>)
    requires Orderly(steps)
    ensures Inv(Run(steps))
  {
    if steps != [] {
      RunKeepsInv(steps[..|steps| - 1]);
      StepKeepsInv(Run(steps[..|steps| - 1]), steps[|steps| - 1]);
    }
  }

  lemma AppliedMeans(v: View, wanted: bool)
    requires Means(v.pending, wanted) && Survivor(v.log) == wanted
    ensures var r := Applied(v, true).0; Mode(r.log) == wanted && r.pending.None? && Applied(r, true).0 == r
  {
    FoldedAppend(v.log, ModeSet(wanted));
  }

  /**
   The latest request wins: whenever no command or boundary is under way, a boundary leaves
   the mode at what the latest command asked for, from the live map as well as after a crash,
   and a second boundary changes nothing.
   */
  lemma {:induction false} LatestRequestWins(steps: seq<Step>)
    requires Orderly(steps) && Run(steps).command.None? && Run(steps).bound.Away?
    ensures var st := Run(steps);
      var live, cold := Boundary(st, true), Boundary(Do(st, Crash), true);
      && Mode(live.view.log) == st.wanted && Mode(cold.view.log) == st.wanted
      && Boundary(live, true) == live && Boundary(cold, true) == cold
  {
    RunKeepsInv(steps);
    var st := Run(steps);
    EachBoundaryMeans(st);
    EachBoundaryMeans(Do(st, Crash));
  }

  lemma EachBoundaryMeans(st: State)
    requires Inv(st) && st.command.None? && st.bound.Away?
    ensures Mode(Boundary(st, true).view.log) == st.wanted && Boundary(Boundary(st, true), true) == Boundary(st, true)
  {
    UndisturbedBoundary(st, true);
    AppliedMeans(st.view, st.wanted);
    var next := Boundary(st, true);
    UndisturbedBoundary(next, true);
  }

  /** What the log says was asked for last: the request of the last plan command that ended in success. */
  function LastRequest(log: seq<Event>): bool {
    if log == [] then false
    else
      var front, last := log[..|log| - 1], log[|log| - 1];
      if last.CommandDone? && last.success && last.id in Folded(front).running then Folded(front).running[last.id]
      else LastRequest(front)
  }

  lemma LastRequestAppend(log: seq<Event>, e: Event)
    ensures LastRequest(log + [e]) ==
      if e.CommandDone? && e.success && e.id in Folded(log).running then Folded(log).running[e.id] else LastRequest(log)
  {
    assert (log + [e])[..|log|] == log;
  }

  /** No crash of the run interrupts a command. */
  predicate Uninterrupted(steps: seq<Step>) {
    steps == [] ||
    (var before, step := steps[..|steps| - 1], steps[|steps| - 1];
     Uninterrupted(before) && (step.Crash? ==> Run(before).command.None?))
  }

  lemma StepKeepsLastRequest(st: State, step: Step)
    requires Inv(st) && Enabled(st, step) && st.wanted == LastRequest(st.view.log)
    requires (step.End? ==> step.success) && (step.Crash? ==> st.command.None?)
    ensures Do(st, step).wanted == LastRequest(Do(st, step).view.log)
  {
    var log := st.view.log;
    match step
    case Begin(id, wanted) => LastRequestAppend(log, CommandRun(id, true, wanted));
    case Decide(_) => LastRequestAppend(log, ModeSet(st.command.value.wanted));
    case End(_) => LastRequestAppend(log, CommandDone(st.command.value.id, true));
    case Commit(_) => LastRequestAppend(log, ModeSet(st.bound.target));
    case Elsewhere(e) => LastRequestAppend(log, e);
    case _ =>
  }

  lemma {:induction false} LatestIsInTheLog(steps: seq<Step>)
    requires Orderly(steps) && Uninterrupted(steps)
    ensures Run(steps).wanted == LastRequest(Run(steps).view.log)
  {
    if steps != [] {
      var before, step := steps[..|steps| - 1], steps[|steps| - 1];
      LatestIsInTheLog(before);
      RunKeepsInv(before);
      if Enabled(Run(before), step) { StepKeepsLastRequest(Run(before), step); }
    }
  }

  /**
   The same in terms of the log alone: after any run in which no crash interrupts a command, a
   boundary leaves the mode, live and after a crash, at the request of the last plan command
   whose success is logged.
   */
  lemma LatestLoggedRequestWins(steps: seq<Step>)
    requires Orderly(steps) && Uninterrupted(steps) && Run(steps).command.None? && Run(steps).bound.Away?
    ensures var st := Run(steps);
      && Mode(Boundary(st, true).view.log) == LastRequest(st.view.log)
      && Mode(Boundary(Do(st, Crash), true).view.log) == LastRequest(st.view.log)
  {
    LatestRequestWins(steps);
    LatestIsInTheLog(steps);
  }

  /** With no selection anywhere, a boundary changes nothing. */
  lemma RestingBoundary(st: State)
    requires st.bound.Away? && st.view.pending.None? && Folded(st.view.log).pending.None?
    ensures Boundary(st, true) == st
  {
    UndisturbedBoundary(st, true);
  }

  /** A command ends, and then the boundary that has looked before goes on. */
  function EndedInside(st: State): State
    requires st.command.Some? && st.command.value.phase.Switched? && st.bound.Looked?
  {
    Do(Do(Do(st, End(true)), Commit(true)), Clear)
  }

  lemma EndedInsideIs(st: State)
    requires st.command.Some? && st.command.value.phase.Switched? && st.bound.Looked?
    ensures var c := st.command.value;
      EndedInside(st) == State(View(st.view.log + [CommandDone(c.id, true)] + [ModeSet(st.bound.target)], None), None, Away, c.wanted)
    ensures var log := EndedInside(st).view.log; Folded(log).pending.None? && Mode(log) == st.bound.target
  {
    FoldedAppend(st.view.log + [CommandDone(st.command.value.id, true)], ModeSet(st.bound.target));
  }

  /**
   A command that ends between the look and the commit of a boundary: its request is lost,
   live and after a crash, exactly if it asked for the other mode.
   */
  lemma CommandEndingInsideABoundary(st: State)
    requires st.command.Some? && st.command.value.phase.Switched? && st.bound.Looked?
    ensures var late := EndedInside(st);
      && late.wanted == st.command.value.wanted && late.command.None? && late.bound.Away?
      && (Mode(Boundary(late, true).view.log) == late.wanted <==> late.wanted == st.bound.target)
      && (Mode(Boundary(Do(late, Crash), true).view.log) == late.wanted <==> late.wanted == st.bound.target)
  {
    EndedInsideIs(st);
    RestingBoundary(EndedInside(st));
    RestingBoundary(Do(EndedInside(st), Crash));
  }

  /** Any boundary that has looked and not committed can lose a whole command in this way. */
  lemma BoundaryCanLoseACommand(st: State, id: nat)
    requires st.command.None? && st.bound.Looked? && id != 0
    ensures var decided := Do(Do(Do(Do(st, Begin(id, !st.bound.target)), ReadMode), ReadTurn(false)), Decide(true));
      && decided.command == Some(Command(id, !st.bound.target, Switched)) && decided.bound == st.bound
      && var late := EndedInside(decided);
         late.wanted == !st.bound.target && Mode(Boundary(late, true).view.log) == st.bound.target
  {
    var decided := Do(Do(Do(Do(st, Begin(id, !st.bound.target)), ReadMode), ReadTurn(false)), Decide(true));
    assert decided.command == Some(Command(id, !st.bound.target, Switched)) && decided.bound == st.bound;
    CommandEndingInsideABoundary(decided);
  }

  lemma RunSnoc(steps: seq<Step>, step: Step)
    ensures Run(steps + [step]) == Do(Run(steps), step)
  {
    assert (steps + [step])[..|steps|] == steps;
  }

  const Queueing: seq<Step> := [] + [Elsewhere(TurnStart)] + [Begin(1, true)] + [ReadMode] + [ReadTurn(false)] + [Decide(true)]

  /** A command in an open turn is queued. */
  lemma OneIsQueued()
    ensures Run(Queueing) == State(View([TurnStart, CommandRun(1, true, true)], Some(true)), Some(Command(1, true, Switched)), Away, false)
  {
    var log := [TurnStart, CommandRun(1, true, true)];
    assert log[..1] == [TurnStart] && log[..1][..0] == [];
    RunSnoc([], Elsewhere(TurnStart));
    RunSnoc([] + [Elsewhere(TurnStart)], Begin(1, true));
    RunSnoc([] + [Elsewhere(TurnStart)] + [Begin(1, true)], ReadMode);
    RunSnoc([] + [Elsewhere(TurnStart)] + [Begin(1, true)] + [ReadMode], ReadTurn(false));
    RunSnoc([] + [Elsewhere(TurnStart)] + [Begin(1, true)] + [ReadMode] + [ReadTurn(false)], Decide(true));
    assert Run([] + [Elsewhere(TurnStart)] + [Begin(1, true)]).view == View(log, None);
    assert OpenTurn(log) && Folded(log) == Fold(false, map[1 := true], None);
  }

  /** Such a boundary is reachable: one that has looked for a queued command, so that the next one can be lost. */
  lemma BoundaryHasLooked()
    ensures var st := Run(Queueing + [End(true)] + [LookMode] + [LookMap]);
      st.command.None? && st.bound == Looked(true) && st.wanted
  {
    OneIsQueued();
    RunSnoc(Queueing, End(true));
    RunSnoc(Queueing + [End(true)], LookMode);
    RunSnoc(Queueing + [End(true)] + [LookMode], LookMap);
    var log := [TurnStart, CommandRun(1, true, true)];
    FoldedAppend(log, CommandDone(1, true));
    assert log[..1] == [TurnStart] && log[..1][..0] == [];
    assert Folded(log) == Fold(false, map[1 := true], None);
  }

  /**
   A command that fails, before it has switched anything or after: then the running process
   follows the map, if it holds a mode, and a restarted one the logged mode.
   */
  lemma FailedCommandLeaves(v: View, id: nat)
    requires id in Folded(v.log).running
    ensures var failed := Appended(v, CommandDone(id, false));
      && Mode(Applied(failed, true).0.log) == (if v.pending.Some? then v.pending.value else Mode(v.log))
      && Mode(Applied(failed.(pending := None), true).0.log) == Mode(v.log)
  {
    var done := v.log + [CommandDone(id, false)];
    FoldedAppend(v.log, CommandDone(id, false));
    assert Folded(done).pending.None? && Mode(done) == Mode(v.log);
    if v.pending.Some? { FoldedAppend(done, ModeSet(v.pending.value)); }
  }

  lemma FailedViews(st: State)
    requires st.command.Some?
    ensures var failed := Appended(st.view, CommandDone(st.command.value.id, false));
      Do(st, End(false)).view == failed && Do(Do(st, End(false)), Crash).view == failed.(pending := None)
  {}

  /** The modes that the next boundary sets when a command fails now: in the running process, and after a crash. */
  function LiveAfterFailure(st: State): bool { Mode(Applied(Do(st, End(false)).view, true).0.log) }

  function ColdAfterFailure(st: State): bool { Mode(Applied(Do(Do(st, End(false)), Crash).view, true).0.log) }

  /**
   The earlier request survives a failing command in the running process exactly if the map
   holds a mode that the command did not put there, or the same one, or holds none and the
   request is in force; it survives a crash exactly if it is in force.  The two differ exactly
   if the map holds a mode that is not in force.
   */
  lemma {:induction false} FailedCommand(steps: seq<Step>)
    requires Orderly(steps) && Run(steps).command.Some?
    ensures var st := Run(steps);
      var c, wanted := st.command.value, Do(st, End(false)).wanted;
      var inForce := Mode(st.view.log) == wanted;
      && (LiveAfterFailure(st) == wanted <==>
            if st.view.pending.Some? then c.phase.Switched? ==> c.wanted == wanted else inForce)
      && (ColdAfterFailure(st) == wanted <==> inForce)
      && (LiveAfterFailure(st) != ColdAfterFailure(st) <==> st.view.pending.Some? && st.view.pending.value != Mode(st.view.log))
  {
    RunKeepsInv(steps);
    var st := Run(steps);
    FailedViews(st);
    FailedCommandLeaves(st.view, st.command.value.id);
  }

  /** A command that queues its switch in an open turn and then fails takes effect live and is lost in a crash. */
  lemma FailureAfterQueueing(steps: seq<Step>)
    requires Orderly(steps)
    requires var st := Run(steps); st.command.Some? && st.command.value.phase.Read? && st.command.value.phase.turnOpen
    requires var st := Run(steps); st.view.pending.None? && st.command.value.phase.current == Mode(st.view.log) && st.command.value.wanted != Mode(st.view.log)
    ensures var st := Do(Run(steps), Decide(true));
      LiveAfterFailure(st) == st.command.value.wanted && ColdAfterFailure(st) != st.command.value.wanted
  {
    RunKeepsInv(steps);
    var st := Do(Run(steps), Decide(true));
    FailedViews(st);
    FailedCommandLeaves(st.view, st.command.value.id);
  }
}
