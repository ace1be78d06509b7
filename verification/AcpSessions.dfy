/**
 The ACP server's session table (internal/acp/server.go).  Every session object the
 factory makes must be closed exactly once, whoever ends up responsible for it, and a
 session must not be replaced or closed under a running prompt.
 */
module AcpSessions {
  import opened Common

  // ---------- The sections under the session and prompt locks ----------

  /** Session objects are numbered in the order the factory makes them. */
  datatype Core = Core(sessions: map<string, nat>, promptActive: set<string>, closed: bool, nextID: nat)

  function ServerName(n: nat): string { "shutu-" + Digits(n) }

  datatype Admission = Admission(core: Core, id: string, admitted: bool)

  /** session/new: the wire id is the session's own, or a server-made one; an open id is refused. */
  function Admit(c: Core, sess: nat, wireID: string): Admission {
    if c.closed then Admission(c, wireID, false)
    else
      var numbered := if wireID == "" then c.(nextID := c.nextID + 1) else c;
      var id := if wireID == "" then ServerName(numbered.nextID) else wireID;
      if id in c.sessions then Admission(numbered, id, false)
      else Admission(numbered.(sessions := c.sessions[id := sess]), id, true)
  }

  /** Server-made ids are as different as their numbers. */
  lemma ServerNamesAreDistinct(a: nat, b: nat)
    ensures ServerName(a) == ServerName(b) <==> a == b
  {
    DigitsReadBack(a);
    DigitsReadBack(b);
    assert ServerName(a)[6..] == Digits(a) && ServerName(b)[6..] == Digits(b);
  }

  datatype Replacement = Replacement(core: Core, previous: Option<nat>, busy: bool, ok: bool)

  function Replace(c: Core, id: string, sess: nat): Replacement {
    if c.closed then Replacement(c, None, false, false)
    else if id in c.promptActive then Replacement(c, None, true, false)
    else Replacement(c.(sessions := c.sessions[id := sess]),
                     if id in c.sessions then Some(c.sessions[id]) else None, false, true)
  }

  predicate CanPrompt(c: Core, id: string) {
    id in c.sessions && id !in c.promptActive
  }

  class Server {
    var sessions: map<string, nat>
    var promptActive: set<string>
    var closed: bool
    var nextID: nat

    ghost function View(): Core
      reads this
    {
      Core(sessions, promptActive, closed, nextID)
    }

    constructor ()
      ensures View() == Core(map[], {}, false, 0)
    {
      sessions, promptActive, closed, nextID := map[], {}, false, 0;
    }

    /** The registration section of session/new; a refused session is the caller's to close. */
    method AdmitNew(sess: nat, wireID: string) returns (id: string, admitted: bool)
      modifies this
      ensures var a := Admit(old(View()), sess, wireID); View() == a.core && admitted == a.admitted && id == a.id
      ensures !closed ==> id == if wireID != "" then wireID else "shutu-" + Digits(old(nextID) + 1)
      ensures admitted <==> !closed && id !in old(sessions)
      ensures sessions == if admitted then old(sessions)[id := sess] else old(sessions)
      ensures nextID == if !closed && wireID == "" then old(nextID) + 1 else old(nextID)
      ensures closed == old(closed) && promptActive == old(promptActive)
    {
      id := wireID;
      if closed { return id, false; }
      if id == "" {
        nextID := nextID + 1;
        id := ServerName(nextID);
      }
      if id in sessions { return id, false; }
      sessions := sessions[id := sess];
      admitted := true;
    }

    /** Puts a resumed session in place of the one under its id, unless a prompt runs there. */
    method ReplaceSession(id: string, sess: nat) returns (previous: Option<nat>, busy: bool, ok: bool)
      modifies this
      ensures var r := Replace(old(View()), id, sess); View() == r.core && previous == r.previous && busy == r.busy && ok == r.ok
      ensures ok <==> !closed && id !in promptActive
      ensures busy <==> !closed && id in promptActive
      ensures previous == if ok && id in old(sessions) then Some(old(sessions)[id]) else None
      ensures sessions == if ok then old(sessions)[id := sess] else old(sessions)
      ensures closed == old(closed) && promptActive == old(promptActive) && nextID == old(nextID)
    {
      if closed { return None, false, false; }
      if id in promptActive { return None, true, false; }
      previous := if id in sessions then Some(sessions[id]) else None;
      sessions := sessions[id := sess];
      busy, ok := false, true;
    }

    method BeginPrompt(id: string) returns (sess: Option<nat>, busy: bool, ok: bool)
      modifies this
      ensures ok == (id in old(sessions)) && busy == (ok && id in old(promptActive))
      ensures sess == if ok then Some(old(sessions)[id]) else None
      ensures View() == old(View()).(promptActive := old(promptActive) + if CanPrompt(old(View()), id) then {id} else {})
    {
      if id !in sessions { return None, false, false; }
      sess, ok := Some(sessions[id]), true;
      if id in promptActive { busy := true; return; }
      promptActive := promptActive + {id};
      busy := false;
    }

    method EndPrompt(id: string)
      modifies this
      ensures View() == old(View()).(promptActive := old(promptActive) - {id})
    {
      promptActive := promptActive - {id};
    }

    /** The section of closeSessions: the first call takes every open session, a later one nothing. */
    method TakeSessions() returns (open: map<string, nat>)
      modifies this
      ensures View() == old(View()).(closed := true)
      ensures open == if old(closed) then map[] else sessions
    {
      if closed { return map[]; }
      closed := true;
      open := sessions;
    }
  }

  // ---------- Handlers, teardown, and who must close what ----------

  /** What a request handler holds between its sections. */
  datatype Handler =
    | Started
    | Made(sess: nat, wireID: string)        // session/new, before registration
    | Resumed(sess: nat, id: string)         // session/resume, before replacement
    | MustClose(sess: nat)
    | Prompting(id: string, sess: nat)

  datatype Phase = Reading | Draining | Closing(left: map<string, nat>) | Returned

  /** History: where a session object is.  `prompters` below is the history of prompt slots. */
  datatype Place = Held(worker: nat) | Open(id: string) | Disposed

  datatype State = State(
    core: Core,
    workers: map<nat, Handler>,
    phase: Phase,
    closes: multiset<nat>,
    places: seq<Place>,
    prompters: map<string, nat>)

  datatype Step =
    | Spawn(w: nat)
    | MakeNew(w: nat, wireID: string)
    | MakeResumed(w: nat, id: string)
    | Register(w: nat)
    | Swap(w: nat)
    | CloseHeld(w: nat)
    | Prompt(w: nat, id: string)
    | PromptDone(w: nat)
    | Finish(w: nat)              // any other end of a handler that holds nothing
    | EndOfInput
    | StartClosing                // every handler has returned
    | CloseOne(id: string)
    | Return

  const Init := State(Core(map[], {}, false, 0), map[], Reading, multiset{}, [], map[])

  predicate Enabled(st: State, step: Step) {
    match step
    case Spawn(w) => st.phase.Reading? && w !in st.workers
    case MakeNew(w, _) => w in st.workers && st.workers[w].Started?
    case MakeResumed(w, _) => w in st.workers && st.workers[w].Started?
    case Register(w) => w in st.workers && st.workers[w].Made?
    case Swap(w) => w in st.workers && st.workers[w].Resumed?
    case CloseHeld(w) => w in st.workers && st.workers[w].MustClose?
    case Prompt(w, _) => w in st.workers && st.workers[w].Started?
    case PromptDone(w) => w in st.workers && st.workers[w].Prompting?
    case Finish(w) => w in st.workers && st.workers[w].Started?
    case EndOfInput => st.phase.Reading?
    case StartClosing => st.phase.Draining? && st.workers == map[]
    case CloseOne(id) => st.phase.Closing? && id in st.phase.left
    case Return => st.phase.Closing? && st.phase.left == map[]
  }

  /** Records where a session went. */
  function Put(places: seq<Place>, s: nat, p: Place): seq<Place> {
    if s < |places| then places[s := p] else places
  }

  /** A step that is not enabled leaves the state as it is. */
  function Do(st: State, step: Step): State {
    if !Enabled(st, step) then st else
    match step
    case Spawn(w) => st.(workers := st.workers[w := Started])
    case MakeNew(w, wireID) =>
      st.(workers := st.workers[w := Made(|st.places|, wireID)], places := st.places + [Held(w)])
    case MakeResumed(w, id) =>
      st.(workers := st.workers[w := Resumed(|st.places|, id)], places := st.places + [Held(w)])
    case Register(w) =>
      var s := st.workers[w].sess;
      var a := Admit(st.core, s, st.workers[w].wireID);
      if a.admitted
      then st.(core := a.core, workers := st.workers - {w}, places := Put(st.places, s, Open(a.id)))
      else st.(core := a.core, workers := st.workers[w := MustClose(s)])
    case Swap(w) =>
      var s, id := st.workers[w].sess, st.workers[w].id;
      var r := Replace(st.core, id, s);
      if !r.ok then st.(workers := st.workers[w := MustClose(s)])
      else if r.previous.None? then st.(core := r.core, workers := st.workers - {w}, places := Put(st.places, s, Open(id)))
      else st.(core := r.core, workers := st.workers[w := MustClose(r.previous.value)],
               places := Put(Put(st.places, s, Open(id)), r.previous.value, Held(w)))
    case CloseHeld(w) =>
      var s := st.workers[w].sess;
      st.(workers := st.workers - {w}, closes := st.closes + multiset{s}, places := Put(st.places, s, Disposed))
    case Prompt(w, id) =>
      if !CanPrompt(st.core, id) then st.(workers := st.workers - {w})
      else st.(core := st.core.(promptActive := st.core.promptActive + {id}),
               workers := st.workers[w := Prompting(id, st.core.sessions[id])],
               prompters := st.prompters[id := w])
    case PromptDone(w) =>
      st.(core := st.core.(promptActive := st.core.promptActive - {st.workers[w].id}), workers := st.workers - {w},
          prompters := st.prompters - {st.workers[w].id})
    case Finish(w) => st.(workers := st.workers - {w})
    case EndOfInput => st.(phase := Draining)
    case StartClosing =>
      st.(core := st.core.(closed := true), phase := Closing(if st.core.closed then map[] else st.core.sessions))
    case CloseOne(id) =>
      var s := st.phase.left[id];
      st.(phase := Closing(st.phase.left - {id}), closes := st.closes + multiset{s}, places := Put(st.places, s, Disposed))
    case Return => st.(phase := Returned)
  }

  function Run(steps: seq<Step>): State {
    if steps == [] then Init else Do(Run(steps[..|steps| - 1]), steps[|steps| - 1])
  }

  // ---------- The invariant ----------

  predicate Holds(st: State, w: nat, s: nat) {
    w in st.workers && (st.workers[w].Made? || st.workers[w].Resumed? || st.workers[w].MustClose?) && st.workers[w].sess == s
  }

  /** The sessions the table still answers for. */
  function Answered(st: State): map<string, nat> {
    match st.phase
    case Closing(left) => left
    case Returned => map[]
    case _ => st.core.sessions
  }

  predicate IsPrompting(st: State, w: nat, id: string) {
    w in st.workers && st.workers[w].Prompting? && st.workers[w].id == id
  }

  // A session object is where its history says, and nowhere else.

  predicate ClosedRight(st: State, s: nat) {
    st.closes[s] == (if s < |st.places| && st.places[s].Disposed? then 1 else 0)
  }

  predicate HeldRight(st: State, s: nat, w: nat) {
    Holds(st, w, s) <==> s < |st.places| && st.places[s] == Held(w)
  }

  predicate OpenRight(st: State, s: nat, id: string) {
    (id in Answered(st) && Answered(st)[id] == s) <==> s < |st.places| && st.places[s] == Open(id)
  }

  // A prompt slot is taken exactly while one handler prompts the session under its id.

  predicate SlotRight(st: State, id: string) {
    && (id in st.core.promptActive <==> id in st.prompters)
    && (id in st.prompters ==>
          && IsPrompting(st, st.prompters[id], id)
          && id in st.core.sessions && st.core.sessions[id] == st.workers[st.prompters[id]].sess)
  }

  predicate PrompterRight(st: State, w: nat, id: string) {
    IsPrompting(st, w, id) ==> id in st.prompters && st.prompters[id] == w
  }

  ghost predicate Inv(st: State) {
    && (forall s: nat :: ClosedRight(st, s))
    && (forall s: nat, w: nat :: HeldRight(st, s, w))
    && (forall s: nat, id: string :: OpenRight(st, s, id))
    && (forall id: string :: SlotRight(st, id))
    && (forall w: nat, id: string :: PrompterRight(st, w, id))
    && (st.core.closed <==> st.phase.Closing? || st.phase.Returned?)
    && (st.phase.Closing? || st.phase.Returned? ==> st.workers == map[])
  }

  lemma HandlerKeepsInv(st: State, step: Step)
    requires Inv(st) && Enabled(st, step) && (step.Spawn? || step.MakeNew? || step.MakeResumed? || step.Finish?)
    ensures Inv(Do(st, step))
  {
    var next := Do(st, step);
    forall s: nat ensures ClosedRight(next, s) { assert ClosedRight(st, s); }
    forall s: nat, v: nat ensures HeldRight(next, s, v) { assert HeldRight(st, s, v); }
    forall s: nat, i: string ensures OpenRight(next, s, i) { assert OpenRight(st, s, i); }
    forall i: string ensures SlotRight(next, i) { assert SlotRight(st, i); }
    forall v: nat, i: string ensures PrompterRight(next, v, i) { assert PrompterRight(st, v, i); }
  }

  lemma RegisterKeepsInv(st: State, step: Step)
    requires Inv(st) && Enabled(st, step) && step.Register?
    ensures Inv(Do(st, step))
  {
    var next := Do(st, step);
    assert HeldRight(st, st.workers[step.w].sess, step.w);
    forall s: nat ensures ClosedRight(next, s) { assert ClosedRight(st, s); }
    forall s: nat, v: nat ensures HeldRight(next, s, v) { assert HeldRight(st, s, v); }
    forall s: nat, i: string ensures OpenRight(next, s, i) { assert OpenRight(st, s, i); }
    forall i: string ensures SlotRight(next, i) { assert SlotRight(st, i); }
    forall v: nat, i: string ensures PrompterRight(next, v, i) { assert PrompterRight(st, v, i); }
  }

  lemma SwapKeepsInv(st: State, step: Step)
    requires Inv(st) && Enabled(st, step) && step.Swap?
    ensures Inv(Do(st, step))
  {
    var next := Do(st, step);
    var h := st.workers[step.w];
    assert HeldRight(st, h.sess, step.w);
    var r := Replace(st.core, h.id, h.sess);
    if r.previous.Some? { assert OpenRight(st, r.previous.value, h.id); }
    forall s: nat ensures ClosedRight(next, s) { assert ClosedRight(st, s); }
    forall s: nat, v: nat ensures HeldRight(next, s, v) { assert HeldRight(st, s, v); }
    forall s: nat, i: string ensures OpenRight(next, s, i) { assert OpenRight(st, s, i); }
    SwapKeepsPrompts(st, step);
  }

  lemma SwapKeepsPrompts(st: State, step: Step)
    requires Inv(st) && Enabled(st, step) && step.Swap?
    ensures forall i: string :: SlotRight(Do(st, step), i)
    ensures forall v: nat, i: string :: PrompterRight(Do(st, step), v, i)
  {
    var next := Do(st, step);
    forall i: string ensures SlotRight(next, i) { assert SlotRight(st, i); }
    forall v: nat, i: string ensures PrompterRight(next, v, i) { assert PrompterRight(st, v, i); }
  }

  lemma CloseHeldKeepsInv(st: State, step: Step)
    requires Inv(st) && Enabled(st, step) && step.CloseHeld?
    ensures Inv(Do(st, step))
  {
    var next := Do(st, step);
    assert HeldRight(st, st.workers[step.w].sess, step.w);
    forall s: nat ensures ClosedRight(next, s) { assert ClosedRight(st, s); }
    forall s: nat, v: nat ensures HeldRight(next, s, v) { assert HeldRight(st, s, v); }
    forall s: nat, i: string ensures OpenRight(next, s, i) { assert OpenRight(st, s, i); }
    forall i: string ensures SlotRight(next, i) { assert SlotRight(st, i); }
    forall v: nat, i: string ensures PrompterRight(next, v, i) { assert PrompterRight(st, v, i); }
  }

  lemma PromptKeepsInv(st: State, step: Step)
    requires Inv(st) && Enabled(st, step) && (step.Prompt? || step.PromptDone?)
    ensures Inv(Do(st, step))
  {
    var next := Do(st, step);
    if step.Prompt? { assert SlotRight(st, step.id); } else { assert PrompterRight(st, step.w, st.workers[step.w].id); }
    forall s: nat ensures ClosedRight(next, s) { assert ClosedRight(st, s); }
    forall s: nat, v: nat ensures HeldRight(next, s, v) { assert HeldRight(st, s, v); }
    forall s: nat, i: string ensures OpenRight(next, s, i) { assert OpenRight(st, s, i); }
    forall i: string ensures SlotRight(next, i) { assert SlotRight(st, i); }
    forall v: nat, i: string ensures PrompterRight(next, v, i) { assert PrompterRight(st, v, i); }
  }

  lemma TeardownKeepsInv(st: State, step: Step)
    requires Inv(st) && Enabled(st, step) && (step.EndOfInput? || step.StartClosing? || step.CloseOne? || step.Return?)
    ensures Inv(Do(st, step))
  {
    var next := Do(st, step);
    if step.CloseOne? { assert OpenRight(st, st.phase.left[step.id], step.id); }
    forall s: nat ensures ClosedRight(next, s) { assert ClosedRight(st, s); }
    forall s: nat, v: nat ensures HeldRight(next, s, v) { assert HeldRight(st, s, v); }
    forall s: nat, i: string ensures OpenRight(next, s, i) { assert OpenRight(st, s, i); }
    forall i: string ensures SlotRight(next, i) { assert SlotRight(st, i); }
    forall v: nat, i: string ensures PrompterRight(next, v, i) { assert PrompterRight(st, v, i); }
  }

  lemma {:induction false} RunKeepsInv(steps: seq<Step>)
    ensures Inv(Run(steps))
  {
    if steps == [] {
      assert forall s: nat :: ClosedRight(Init, s);
    } else {
      var st, step := Run(steps[..|steps| - 1]), steps[|steps| - 1];
      RunKeepsInv(steps[..|steps| - 1]);
      if Enabled(st, step) {
        match step
        case Register(_) => RegisterKeepsInv(st, step);
        case Swap(_) => SwapKeepsInv(st, step);
        case CloseHeld(_) => CloseHeldKeepsInv(st, step);
        case Prompt(_, _) => PromptKeepsInv(st, step);
        case PromptDone(_) => PromptKeepsInv(st, step);
        case EndOfInput => TeardownKeepsInv(st, step);
        case StartClosing => TeardownKeepsInv(st, step);
        case CloseOne(_) => TeardownKeepsInv(st, step);
        case Return => TeardownKeepsInv(st, step);
        case _ => HandlerKeepsInv(st, step);
      }
    }
  }

  // ---------- What every run guarantees ----------

  /** When Run returns, every session the factory made has been closed exactly once. */
  lemma EverySessionClosedOnce(steps: seq<Step>, s: nat)
    requires Run(steps).phase.Returned? && s < |Run(steps).places|
    ensures Run(steps).closes[s] == 1
  {
    RunKeepsInv(steps);
    var st := Run(steps);
    assert ClosedRight(st, s);
    var place := st.places[s];
    assert HeldRight(st, s, if place.Held? then place.worker else 0);
    assert OpenRight(st, s, if place.Open? then place.id else "");
  }

  /** At no time has a session been closed twice, or closed while somebody may still use or close it. */
  lemma NoSessionClosedTwice(steps: seq<Step>, s: nat)
    ensures Run(steps).closes[s] <= 1
    ensures Run(steps).closes[s] == 1 ==>
      && (forall w: nat :: !Holds(Run(steps), w, s))
      && (forall id | id in Answered(Run(steps)) :: Answered(Run(steps))[id] != s)
  {
    RunKeepsInv(steps);
    var st := Run(steps);
    assert ClosedRight(st, s);
    forall w: nat ensures st.closes[s] == 1 ==> !Holds(st, w, s) { assert HeldRight(st, s, w); }
    forall id: string ensures st.closes[s] == 1 ==> id !in Answered(st) || Answered(st)[id] != s { assert OpenRight(st, s, id); }
  }

  /** A running prompt keeps its session under its id, unclosed, and alone. */
  lemma PromptKeepsItsSession(steps: seq<Step>, w: nat, id: string)
    requires IsPrompting(Run(steps), w, id)
    ensures var st := Run(steps); var s := st.workers[w].sess;
      && id in st.core.sessions && st.core.sessions[id] == s
      && st.closes[s] == 0
      && (forall v: nat | IsPrompting(st, v, id) :: v == w)
  {
    RunKeepsInv(steps);
    var st := Run(steps);
    assert PrompterRight(st, w, id) && SlotRight(st, id);
    var s := st.workers[w].sess;
    assert ClosedRight(st, s) && OpenRight(st, s, id);
    forall v: nat | IsPrompting(st, v, id) ensures v == w { assert PrompterRight(st, v, id); }
  }

  /**
   A new session, at any point of any run: it is open under its id afterwards exactly if the
   server is open and the id was free, and its handler has to close it otherwise.
   */
  lemma NewSessionIsOpenedExactlyWhen(steps: seq<Step>, w: nat)
    requires w in Run(steps).workers && Run(steps).workers[w].Made?
    ensures var st, next := Run(steps), Do(Run(steps), Register(w));
      var s, wireID := st.workers[w].sess, st.workers[w].wireID;
      var id := if wireID != "" then wireID else "shutu-" + Digits(st.core.nextID + 1);
      if !st.core.closed && id !in st.core.sessions
      then id in next.core.sessions && next.core.sessions[id] == s && !Holds(next, w, s)
      else next.core.sessions == st.core.sessions && next.workers[w] == MustClose(s)
  {}

  /** A resumed session: exactly if the server is open and no handler prompts the id. */
  lemma ResumedSessionIsOpenedExactlyWhen(steps: seq<Step>, w: nat)
    requires w in Run(steps).workers && Run(steps).workers[w].Resumed?
    ensures var st, next := Run(steps), Do(Run(steps), Swap(w));
      var s, id := st.workers[w].sess, st.workers[w].id;
      if !st.core.closed && forall v: nat :: !IsPrompting(st, v, id)
      then id in next.core.sessions && next.core.sessions[id] == s && !Holds(next, w, s)
      else next.core.sessions == st.core.sessions && next.workers[w] == MustClose(s)
  {
    RunKeepsInv(steps);
    ResumedIsOpened(Run(steps), w);
  }

  lemma ResumedIsOpened(st: State, w: nat)
    requires Inv(st) && w in st.workers && st.workers[w].Resumed?
    ensures var s, id, next := st.workers[w].sess, st.workers[w].id, Do(st, Swap(w));
      if !st.core.closed && forall v: nat :: !IsPrompting(st, v, id)
      then id in next.core.sessions && next.core.sessions[id] == s && !Holds(next, w, s)
      else next.core.sessions == st.core.sessions && next.workers[w] == MustClose(s)
  {
    var s, id := st.workers[w].sess, st.workers[w].id;
    assert SlotRight(st, id) && HeldRight(st, s, w) && OpenRight(st, s, id);
    forall v: nat | IsPrompting(st, v, id) ensures id in st.core.promptActive { assert PrompterRight(st, v, id); }
  }

  /** A prompt on an open session is refused exactly while another prompt of that id runs. */
  lemma BusyMeansPrompting(steps: seq<Step>, id: string)
    requires id in Run(steps).core.sessions
    ensures CanPrompt(Run(steps).core, id) <==> forall w: nat :: !IsPrompting(Run(steps), w, id)
  {
    RunKeepsInv(steps);
    assert SlotRight(Run(steps), id);
    forall w: nat | IsPrompting(Run(steps), w, id) ensures id in Run(steps).prompters { assert PrompterRight(Run(steps), w, id); }
  }

  lemma RunSnoc(steps: seq<Step>, step: Step)
    ensures Run(steps + [step]) == Do(Run(steps), step)
  {
    assert (steps + [step])[..|steps|] == steps;
  }

  const Opening: seq<Step> := [] + [Spawn(0)] + [MakeNew(0, "a")] + [Register(0)]
  const Serving: seq<Step> := Opening + [Spawn(1)] + [Prompt(1, "a")] + [PromptDone(1)]
  const Ending: seq<Step> := Serving + [EndOfInput] + [StartClosing] + [CloseOne("a")] + [Return]

  lemma OneIsOpened()
    ensures Run(Opening) == State(Core(map["a" := 0], {}, false, 0), map[], Reading, multiset{}, [Open("a")], map[])
  {
    RunSnoc([], Spawn(0));
    RunSnoc([] + [Spawn(0)], MakeNew(0, "a"));
    RunSnoc([] + [Spawn(0)] + [MakeNew(0, "a")], Register(0));
    assert Run([] + [Spawn(0)]) == Init.(workers := map[0 := Started]);
    assert Run([] + [Spawn(0)] + [MakeNew(0, "a")]) == Init.(workers := map[0 := Made(0, "a")], places := [Held(0)]);
  }

  lemma OneIsPrompted()
    ensures Run(Serving) == Run(Opening)
  {
    OneIsOpened();
    RunSnoc(Opening, Spawn(1));
    RunSnoc(Opening + [Spawn(1)], Prompt(1, "a"));
    RunSnoc(Opening + [Spawn(1)] + [Prompt(1, "a")], PromptDone(1));
    assert Run(Opening + [Spawn(1)]) == Run(Opening).(workers := map[1 := Started]);
    assert Run(Opening + [Spawn(1)] + [Prompt(1, "a")]) ==
      Run(Opening).(core := Core(map["a" := 0], {"a"}, false, 0), workers := map[1 := Prompting("a", 0)], prompters := map["a" := 1]);
  }

  lemma OneIsDrained()
    ensures Run(Serving + [EndOfInput] + [StartClosing]) ==
      State(Core(map["a" := 0], {}, true, 0), map[], Closing(map["a" := 0]), multiset{}, [Open("a")], map[])
  {
    OneIsOpened();
    OneIsPrompted();
    RunSnoc(Serving, EndOfInput);
    RunSnoc(Serving + [EndOfInput], StartClosing);
    assert Run(Serving + [EndOfInput]) == Run(Opening).(phase := Draining);
  }

  /** A whole life: a session is opened, prompted, and closed when the server returns. */
  lemma OneSessionIsServed()
    ensures Run(Ending).phase.Returned? && Run(Ending).closes == multiset{0}
  {
    OneIsDrained();
    var closing := Serving + [EndOfInput] + [StartClosing];
    RunSnoc(closing, CloseOne("a"));
    RunSnoc(closing + [CloseOne("a")], Return);
    assert map["a" := 0] - {"a"} == map[];
  }
}
