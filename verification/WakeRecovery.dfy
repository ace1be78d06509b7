/**
 Recovery of lost completion wakes (cmd/sta/agent_runtime.go, cmd/sta/jobs.go).  A durable
 fact in a session log (a subagent's end or report, a finished job) must put one message in
 the owner's inbox.  A recovery pass replays the facts that have no receipt yet; the receipt
 is any inbox splice carrying the fact's dedupe key.
 */
module WakeRecovery {
  import opened TextTrim

  /** A key made from a visible prefix and an id is changed by trimming exactly if the id ends in a space. */
  lemma {:induction false} TrimOfKey(prefix: string, id: string)
    requires prefix != "" && !IsSpace(prefix[0]) && !IsSpace(prefix[|prefix| - 1])
    ensures Trim(prefix + id) == prefix + id <==> id == "" || !IsSpace(id[|id| - 1])
  {
    TrimLeftStarts(prefix + id);
    assert id != "" ==> (prefix + id)[|prefix + id| - 1] == id[|id| - 1];
  }

  // ---------- Facts and receipts ----------

  /** The session events that matter here, decoded; `Broken...` payloads do not decode. */
  datatype Event =
    | Spliced(keys: seq<string>)  // the dedupe keys of the messages one inbox splice inserted
    | BrokenSplice
    | SubagentEnd(id: string)
    | BrokenEnd
    | SubagentReport(id: string, parent: string, messageID: string)
    | BrokenReport
    | JobDone(id: string)
    | BrokenJobDone
    | Other

  datatype Kind = Ends | Reports | Jobs

  datatype Fact = NoFact | Broken | Wake(key: string)

  /** What a pass of one kind makes of an event. */
  function FactOf(kind: Kind, owner: string, e: Event): Fact {
    match (kind, e)
    case (Ends, BrokenEnd) => Broken
    case (Ends, SubagentEnd(id)) => if Trim(id) == "" then NoFact else Wake("subagent:end:" + id)
    case (Reports, BrokenReport) => Broken
    case (Reports, SubagentReport(id, parent, messageID)) =>
      if Trim(messageID) == "" || Trim(id) == "" || (Trim(parent) != "" && Trim(parent) != owner) then NoFact
      else Wake("subagent:report:" + Trim(messageID))
    case (Jobs, BrokenJobDone) => Broken
    case (Jobs, JobDone(id)) => if Trim(id) == "" then NoFact else Wake("job:" + id)
    case _ => NoFact
  }

  function KeysOf(e: Event): set<string> {
    if e.Spliced? then set k | k in e.keys && Trim(k) != "" :: Trim(k) else {}
  }

  /** The keys with a receipt, as a pass reads them back: trimmed. */
  function Recorded(log: seq<Event>): set<string> {
    if log == [] then {} else Recorded(log[..|log| - 1]) + KeysOf(log[|log| - 1])
  }

  lemma {:induction false} RecordedAppend(a: seq<Event>, b: seq<Event>)
    ensures Recorded(a + b) == Recorded(a) + Recorded(b)
  {
    if b == [] {
      assert a + b == a;
    } else {
      assert (a + b)[..|a + b| - 1] == a + b[..|b| - 1];
      RecordedAppend(a, b[..|b| - 1]);
    }
  }

  lemma {:induction false} RecordedIsTrimmed(log: seq<Event>, k: string)
    requires k in Recorded(log)
    ensures Trim(k) == k
  {
    if k in KeysOf(log[|log| - 1]) {
      var raw :| raw in log[|log| - 1].keys && Trim(raw) == k;
      TrimIsIdempotent(raw);
    } else {
      RecordedIsTrimmed(log[..|log| - 1], k);
    }
  }

  function Facts(kind: Kind, owner: string, log: seq<Event>): (facts: seq<Fact>)
    ensures |facts| == |log|
  {
    seq(|log|, i requires 0 <= i < |log| => FactOf(kind, owner, log[i]))
  }

  predicate Eligible(kind: Kind, owner: string, log: seq<Event>, key: string) {
    Wake(key) in Facts(kind, owner, log)
  }

  lemma KeyIsVisible(kind: Kind, owner: string, log: seq<Event>, key: string)
    requires Eligible(kind, owner, log, key)
    ensures key != "" && !IsSpace(key[0]) && Trim(key) != ""
  {
    var i :| 0 <= i < |log| && FactOf(kind, owner, log[i]) == Wake(key);
    assert key[0] == 's' || key[0] == 'j';
    TrimLeftStarts(key);
    TrimRightKeepsVisible(key);
  }

  predicate Readable(kind: Kind, owner: string, log: seq<Event>) {
    BrokenSplice !in log && Broken !in Facts(kind, owner, log)
  }

  function Splices(keys: seq<string>): seq<Event> {
    seq(|keys|, i requires 0 <= i < |keys| => Spliced([keys[i]]))
  }

  lemma {:induction false} RecordedSplices(keys: seq<string>)
    ensures Recorded(Splices(keys)) == (set k | k in keys && Trim(k) != "" :: Trim(k))
  {
    if keys != [] {
      var front, last := keys[..|keys| - 1], keys[|keys| - 1];
      assert Splices(keys)[..|keys| - 1] == Splices(front);
      RecordedSplices(front);
      assert keys == front + [last];
      assert KeysOf(Spliced([last])) == if Trim(last) != "" then {Trim(last)} else {};
    }
  }

  // ---------- One recovery pass ----------

  /** The durable log, and the dedupe keys of the messages waiting in the live inbox. */
  datatype Session = Session(log: seq<Event>, live: seq<string>)

  function Trimmed(keys: seq<string>): set<string> {
    set k | k in keys :: Trim(k)
  }

  /** The inserted keys belong to facts without a receipt, and no two of them, nor a waiting one, trim alike. */
  ghost predicate InsertedRight(facts: seq<Fact>, before: Session, inserted: seq<string>) {
    && (forall i | 0 <= i < |inserted| ::
          && Wake(inserted[i]) in facts && inserted[i] !in Recorded(before.log)
          && Trim(inserted[i]) !in Trimmed(before.live))
    && (forall i, j | 0 <= i < j < |inserted| :: Trim(inserted[i]) != Trim(inserted[j]))
  }

  lemma InsertOne(facts: seq<Fact>, before: Session, inserted: seq<string>, key: string)
    requires InsertedRight(facts, before, inserted)
    requires Wake(key) in facts && key !in Recorded(before.log)
    requires Trim(key) !in Trimmed(before.live + inserted)
    ensures InsertedRight(facts, before, inserted + [key])
  {
    forall k | k in before.live || k in inserted ensures Trim(k) != Trim(key) {
      assert k in before.live + inserted;
    }
  }

  /** The keys a pass treats as done: those with a receipt, and those it has put in the inbox. */
  ghost predicate Accounted(before: Session, recorded: set<string>, live: seq<string>) {
    Recorded(before.log) <= recorded && forall key | key in recorded :: key in Recorded(before.log) || Trim(key) in Trimmed(live)
  }

  /** How far a pass has come when the facts in `seen` are behind it. */
  ghost predicate SoFar(facts: seq<Fact>, before: Session, at: Session, inserted: seq<string>,
                        recorded: set<string>, failures: nat, seen: seq<Fact>)
  {
    && at == Session(before.log + Splices(inserted), before.live + inserted)
    && InsertedRight(facts, before, inserted) && Accounted(before, recorded, at.live)
    && (failures == 0 ==> forall key | Wake(key) in seen :: key in recorded)
  }

  lemma Delivered(facts: seq<Fact>, before: Session, at: Session, inserted: seq<string>,
                  recorded: set<string>, failures: nat, seen: seq<Fact>, key: string)
    requires Wake(key) in facts && key !in recorded
    requires SoFar(facts, before, at, inserted, recorded, failures, seen)
    ensures Trim(key) in Trimmed(at.live) ==>
      SoFar(facts, before, at, inserted, recorded + {key}, failures, seen + [Wake(key)])
    ensures Trim(key) !in Trimmed(at.live) ==>
      SoFar(facts, before, Session(at.log + [Spliced([key])], at.live + [key]), inserted + [key],
            recorded + {key}, failures, seen + [Wake(key)])
  {
    SeenOneMore(seen, recorded, key);
    if Trim(key) !in Trimmed(at.live) {
      InsertOne(facts, before, inserted, key);
      SpliceOne(before, inserted, key);
      WaitOneMore(before, recorded, at.live, key);
    }
  }

  lemma SeenOneMore(seen: seq<Fact>, recorded: set<string>, key: string)
    ensures (forall k | Wake(k) in seen :: k in recorded) ==> forall k | Wake(k) in seen + [Wake(key)] :: k in recorded + {key}
  {}

  lemma SpliceOne(before: Session, inserted: seq<string>, key: string)
    ensures before.log + Splices(inserted) + [Spliced([key])] == before.log + Splices(inserted + [key])
    ensures before.live + inserted + [key] == before.live + (inserted + [key])
  {
    assert Splices(inserted + [key]) == Splices(inserted) + [Spliced([key])];
  }

  lemma WaitOneMore(before: Session, recorded: set<string>, live: seq<string>, key: string)
    requires Accounted(before, recorded, live)
    ensures Accounted(before, recorded + {key}, live + [key])
  {
    assert key in live + [key];
    assert Trimmed(live) <= Trimmed(live + [key]);
  }

  /**
   What a pass over the facts of a log may do: it appends one splice for each key in
   `inserted`, each of a fact without a receipt or a waiting message; it reports success
   exactly if everything could be read and no append failed; and then no fact is left without
   either.
   */
  ghost predicate PassOver(facts: seq<Fact>, before: Session, after: Session, inserted: seq<string>, failures: nat, ok: bool) {
    && after == Session(before.log + Splices(inserted), before.live + inserted)
    && InsertedRight(facts, before, inserted)
    && (ok <==> failures == 0 && BrokenSplice !in before.log && Broken !in facts)
    && (BrokenSplice in before.log ==> inserted == [])
    && (BrokenSplice !in before.log && failures == 0 ==>
          forall key | Wake(key) in facts ::
            key in Recorded(before.log) || Trim(key) in Trimmed(before.live + inserted))
  }

  ghost predicate PassOf(kind: Kind, owner: string, before: Session, after: Session, inserted: seq<string>, failures: nat, ok: bool) {
    PassOver(Facts(kind, owner, before.log), before, after, inserted, failures, ok)
  }

  lemma PassDone(facts: seq<Fact>, before: Session, inserted: seq<string>, recorded: set<string>, failures: nat)
    requires BrokenSplice !in before.log
    requires SoFar(facts, before, Session(before.log + Splices(inserted), before.live + inserted), inserted, recorded, failures, facts)
    ensures PassOver(facts, before, Session(before.log + Splices(inserted), before.live + inserted), inserted, failures,
                     failures == 0 && Broken !in facts)
  {}

  class SessionInbox {
    const owner: string
    var log: seq<Event>
    var live: seq<string>
    ghost var failures: nat

    constructor (owner: string, log: seq<Event>)
      ensures this.owner == owner && this.log == log && live == [] && failures == 0
    {
      this.owner, this.log, live, failures := owner, log, [], 0;
    }

    ghost function View(): Session
      reads this
    {
      Session(log, live)
    }

    /** Queues a message durably; one with the same trimmed key still waiting makes this a no-op. */
    method Put(key: string) returns (ok: bool)
      requires Trim(key) != ""
      modifies this
      ensures Trim(key) in old(Trimmed(live)) ==> ok && View() == old(View()) && failures == old(failures)
      ensures Trim(key) !in old(Trimmed(live)) && ok ==>
        View() == Session(old(log) + [Spliced([key])], old(live) + [key]) && failures == old(failures)
      ensures !ok ==> View() == old(View()) && failures == old(failures) + 1
    {
      if exists k :: k in live && Trim(k) == Trim(key) { return true; }
      ok := *;
      if ok {
        log := log + [Spliced([key])];
        live := live + [key];
      } else {
        failures := failures + 1;
      }
    }

    /** Reads every splice of the log back; a malformed one fails the pass. */
    method ReadReceipts() returns (recorded: set<string>, ok: bool)
      ensures ok <==> BrokenSplice !in log
      ensures ok ==> recorded == Recorded(log)
    {
      recorded, ok := {}, true;
      for i := 0 to |log|
        invariant ok && BrokenSplice !in log[..i] && recorded == Recorded(log[..i])
      {
        assert log[..i + 1][..i] == log[..i];
        if log[i].BrokenSplice? { return {}, false; }
        recorded := recorded + KeysOf(log[i]);
      }
      assert log[..|log|] == log;
    }

    /** Handles one event: the message of a fact that has no receipt yet is put in the inbox. */
    method Visit(fact: Fact, recorded: set<string>, ghost facts: seq<Fact>, ghost before: Session,
                 ghost inserted: seq<string>, ghost missed: nat, ghost seen: seq<Fact>)
        returns (done: set<string>, fine: bool, ghost now: seq<string>)
      requires fact in facts && (fact.Wake? ==> Trim(fact.key) != "")
      requires SoFar(facts, before, View(), inserted, recorded, missed, seen)
      modifies this
      ensures failures == old(failures) || failures == old(failures) + 1
      ensures fine <==> failures == old(failures) && !fact.Broken?
      ensures SoFar(facts, before, View(), now, done, missed + failures - old(failures), seen + [fact])
    {
      done, fine, now := recorded, !fact.Broken?, inserted;
      if !fact.Wake? || fact.key in recorded { return; }
      ghost var at := View();
      fine := Put(fact.key);
      if fine {
        Delivered(facts, before, at, inserted, recorded, missed, seen, fact.key);
        done := recorded + {fact.key};
        now := if Trim(fact.key) in Trimmed(at.live) then inserted else inserted + [fact.key];
      }
    }

    /** One pass over the decoded facts of the log. */
    method Replay(facts: seq<Fact>) returns (ok: bool, ghost inserted: seq<string>)
      requires forall fact | fact in facts && fact.Wake? :: Trim(fact.key) != ""
      modifies this
      ensures failures >= old(failures)
      ensures PassOver(facts, old(View()), View(), inserted, failures - old(failures), ok)
    {
      ghost var before := View();
      var recorded, readable := ReadReceipts();
      inserted := [];
      if !readable { return false, []; }
      ok := true;
      for i := 0 to |facts|
        invariant failures >= old(failures)
        invariant SoFar(facts, before, View(), inserted, recorded, failures - old(failures), facts[..i])
        invariant ok <==> failures == old(failures) && Broken !in facts[..i]
      {
        assert facts[..i + 1] == facts[..i] + [facts[i]];
        var fine;
        recorded, fine, inserted :=
          Visit(facts[i], recorded, facts, before, inserted, failures - old(failures), facts[..i]);
        ok := ok && fine;
      }
      assert facts[..|facts|] == facts;
      PassDone(facts, before, inserted, recorded, failures - old(failures));
    }

    method Recover(kind: Kind) returns (ok: bool, ghost inserted: seq<string>)
      modifies this
      ensures failures >= old(failures)
      ensures PassOf(kind, owner, old(View()), View(), inserted, failures - old(failures), ok)
    {
      var facts := Facts(kind, owner, log);
      forall fact | fact in facts && fact.Wake? ensures Trim(fact.key) != "" {
        KeyIsVisible(kind, owner, log, fact.key);
      }
      ok, inserted := Replay(facts);
    }
  }

  // ---------- What passes achieve ----------

  /** Inbox journals are written before the live queues: a waiting message has its receipt. */
  ghost predicate Journaled(s: Session) {
    forall k | k in s.live :: Trim(k) == "" || Trim(k) in Recorded(s.log)
  }

  /** After a pass that succeeds, every eligible fact has a receipt, under its trimmed key. */
  lemma EveryFactHasAReceipt(kind: Kind, owner: string, before: Session, after: Session, inserted: seq<string>, failures: nat, key: string)
    requires Journaled(before)
    ensures PassOf(kind, owner, before, after, inserted, failures, true) && Eligible(kind, owner, before.log, key)
      ==> Trim(key) in Recorded(after.log)
  {
    if PassOf(kind, owner, before, after, inserted, failures, true) && Eligible(kind, owner, before.log, key) {
      PassGivesReceipt(kind, owner, before, inserted, key);
    }
  }

  lemma PassGivesReceipt(kind: Kind, owner: string, before: Session, inserted: seq<string>, key: string)
    requires Journaled(before) && Eligible(kind, owner, before.log, key)
    requires key in Recorded(before.log) || Trim(key) in Trimmed(before.live + inserted)
    ensures Trim(key) in Recorded(before.log + Splices(inserted))
  {
    RecordedAppend(before.log, Splices(inserted));
    RecordedSplices(inserted);
    KeyIsVisible(kind, owner, before.log, key);
    if key in Recorded(before.log) {
      RecordedIsTrimmed(before.log, key);
    } else {
      var k :| k in before.live + inserted && Trim(k) == Trim(key);
    }
  }

  // What that means for the events of the log themselves.

  /** Some splice in the log lists a key that trims to this one. */
  predicate HasReceipt(log: seq<Event>, key: string) {
    exists i | 0 <= i < |log| :: Lists(log[i], key)
  }

  predicate Lists(e: Event, key: string) {
    e.Spliced? && exists raw | raw in e.keys :: Trim(raw) == key
  }

  /** What a pass reads back as recorded. */
  lemma {:induction false} RecordedExactlyWhen(log: seq<Event>, key: string)
    ensures key in Recorded(log) <==> key != "" && HasReceipt(log, key)
  {
    if log != [] {
      var front, last := log[..|log| - 1], log[|log| - 1];
      RecordedExactlyWhen(front, key);
      assert key in KeysOf(last) <==> key != "" && Lists(last, key);
      assert forall i | 0 <= i < |front| :: front[i] == log[i];
    }
  }

  lemma FactHasAReceipt(kind: Kind, owner: string, before: Session, after: Session, inserted: seq<string>, failures: nat, e: Event)
    requires Journaled(before) && PassOf(kind, owner, before, after, inserted, failures, true)
    requires e in before.log && FactOf(kind, owner, e).Wake?
    ensures HasReceipt(after.log, Trim(FactOf(kind, owner, e).key))
  {
    var i :| 0 <= i < |before.log| && before.log[i] == e;
    var key := FactOf(kind, owner, e).key;
    assert Facts(kind, owner, before.log)[i] == Wake(key);
    EveryFactHasAReceipt(kind, owner, before, after, inserted, failures, key);
    RecordedExactlyWhen(after.log, Trim(key));
  }

  lemma InsertedIsAFact(kind: Kind, owner: string, before: Session, after: Session, inserted: seq<string>, failures: nat, ok: bool, key: string)
      returns (e: Event)
    requires PassOf(kind, owner, before, after, inserted, failures, ok) && key in inserted
    ensures e in before.log && FactOf(kind, owner, e) == Wake(key) && !HasReceipt(before.log, key)
  {
    var k :| 0 <= k < |inserted| && inserted[k] == key;
    var i :| 0 <= i < |before.log| && FactOf(kind, owner, before.log[i]) == Wake(key);
    e := before.log[i];
    KeyIsVisible(kind, owner, before.log, key);
    RecordedExactlyWhen(before.log, key);
  }

  lemma BrokenFacts(kind: Kind, owner: string, log: seq<Event>, e: Event)
    requires forall x :: FactOf(kind, owner, x).Broken? <==> x == e
    ensures Broken in Facts(kind, owner, log) <==> e in log
  {
    if e in log {
      var i :| 0 <= i < |log| && log[i] == e;
      assert Facts(kind, owner, log)[i] == Broken;
    }
  }

  /**
   A pass over ended subagents: it fails exactly if an append failed or a splice or an end
   did not decode; what it inserts is for an end in the log without a receipt; and with
   success every end with a visible id has one.
   */
  lemma EndsPass(owner: string, before: Session, after: Session, inserted: seq<string>, failures: nat, ok: bool)
    requires PassOf(Ends, owner, before, after, inserted, failures, ok)
    ensures ok <==> failures == 0 && BrokenSplice !in before.log && BrokenEnd !in before.log
    ensures forall key | key in inserted ::
      !HasReceipt(before.log, key) && exists id :: SubagentEnd(id) in before.log && Trim(id) != "" && key == "subagent:end:" + id
    ensures ok && Journaled(before) ==>
      forall id | SubagentEnd(id) in before.log && Trim(id) != "" :: HasReceipt(after.log, Trim("subagent:end:" + id))
  {
    BrokenFacts(Ends, owner, before.log, BrokenEnd);
    forall key | key in inserted
      ensures !HasReceipt(before.log, key) && exists id :: SubagentEnd(id) in before.log && Trim(id) != "" && key == "subagent:end:" + id
    {
      var e := InsertedIsAFact(Ends, owner, before, after, inserted, failures, ok, key);
      assert e == SubagentEnd(e.id);
    }
    if ok && Journaled(before) {
      forall id | SubagentEnd(id) in before.log && Trim(id) != "" ensures HasReceipt(after.log, Trim("subagent:end:" + id)) {
        FactHasAReceipt(Ends, owner, before, after, inserted, failures, SubagentEnd(id));
      }
    }
  }

  /** The owner's report: its message and its child are named, and its parent is left out or the owner. */
  predicate IsReportTo(owner: string, e: Event, key: string) {
    && e.SubagentReport? && Trim(e.messageID) != "" && Trim(e.id) != "" && (Trim(e.parent) == "" || Trim(e.parent) == owner)
    && key == "subagent:report:" + Trim(e.messageID)
  }

  lemma ReportIsAFact(owner: string, e: Event, key: string)
    ensures FactOf(Reports, owner, e) == Wake(key) <==> IsReportTo(owner, e, key)
    ensures IsReportTo(owner, e, key) ==> Trim(key) == key
  {
    if IsReportTo(owner, e, key) { TrimOfKey("subagent:report:", Trim(e.messageID)); }
  }

  lemma ReportHasAReceipt(owner: string, before: Session, after: Session, inserted: seq<string>, failures: nat, e: Event, key: string)
    requires Journaled(before) && PassOf(Reports, owner, before, after, inserted, failures, true)
    requires e in before.log && IsReportTo(owner, e, key)
    ensures HasReceipt(after.log, key)
  {
    ReportIsAFact(owner, e, key);
    FactHasAReceipt(Reports, owner, before, after, inserted, failures, e);
  }

  /** The same for the reports to the owner. */
  lemma ReportsPass(owner: string, before: Session, after: Session, inserted: seq<string>, failures: nat, ok: bool)
    requires PassOf(Reports, owner, before, after, inserted, failures, ok)
    ensures ok <==> failures == 0 && BrokenSplice !in before.log && BrokenReport !in before.log
    ensures forall key | key in inserted :: !HasReceipt(before.log, key) && exists e :: e in before.log && IsReportTo(owner, e, key)
    ensures ok && Journaled(before) ==>
      forall e, key | e in before.log && IsReportTo(owner, e, key) :: HasReceipt(after.log, key)
  {
    BrokenFacts(Reports, owner, before.log, BrokenReport);
    forall key | key in inserted ensures !HasReceipt(before.log, key) && exists e :: e in before.log && IsReportTo(owner, e, key) {
      var e := InsertedIsAFact(Reports, owner, before, after, inserted, failures, ok, key);
      ReportIsAFact(owner, e, key);
    }
    if ok && Journaled(before) {
      forall e, key | e in before.log && IsReportTo(owner, e, key) ensures HasReceipt(after.log, key) {
        ReportHasAReceipt(owner, before, after, inserted, failures, e, key);
      }
    }
  }

  /** And for finished jobs. */
  lemma JobsPass(owner: string, before: Session, after: Session, inserted: seq<string>, failures: nat, ok: bool)
    requires PassOf(Jobs, owner, before, after, inserted, failures, ok)
    ensures ok <==> failures == 0 && BrokenSplice !in before.log && BrokenJobDone !in before.log
    ensures forall key | key in inserted ::
      !HasReceipt(before.log, key) && exists id :: JobDone(id) in before.log && Trim(id) != "" && key == "job:" + id
    ensures ok && Journaled(before) ==>
      forall id | JobDone(id) in before.log && Trim(id) != "" :: HasReceipt(after.log, Trim("job:" + id))
  {
    BrokenFacts(Jobs, owner, before.log, BrokenJobDone);
    forall key | key in inserted
      ensures !HasReceipt(before.log, key) && exists id :: JobDone(id) in before.log && Trim(id) != "" && key == "job:" + id
    {
      var e := InsertedIsAFact(Jobs, owner, before, after, inserted, failures, ok, key);
      assert e == JobDone(e.id);
    }
    if ok && Journaled(before) {
      forall id | JobDone(id) in before.log && Trim(id) != "" ensures HasReceipt(after.log, Trim("job:" + id)) {
        FactHasAReceipt(Jobs, owner, before, after, inserted, failures, JobDone(id));
      }
    }
  }

  lemma SplicesAreNoFacts(kind: Kind, owner: string, log: seq<Event>, keys: seq<string>)
    ensures forall key :: Eligible(kind, owner, log + Splices(keys), key) <==> Eligible(kind, owner, log, key)
    ensures Readable(kind, owner, log + Splices(keys)) <==> Readable(kind, owner, log)
  {
    var facts, longer := Facts(kind, owner, log), Facts(kind, owner, log + Splices(keys));
    assert longer[..|log|] == facts;
    assert forall i | |log| <= i < |longer| :: longer[i] == NoFact;
    assert forall fact | fact != NoFact :: fact in longer <==> fact in facts;
    assert BrokenSplice in log ==> BrokenSplice in log + Splices(keys);
  }

  /**
   The exact condition for a second pass to be idle.  The receipts it reads are trimmed and
   the keys it looks for are not, so that it delivers again exactly those eligible keys that
   trimming changes and whose message no longer waits.
   */
  lemma SecondPassIsIdle(kind: Kind, owner: string, before: Session, mid: Session, inserted: seq<string>,
                         live: seq<string>, after: Session, again: seq<string>)
    requires Journaled(before)
    ensures PassOf(kind, owner, before, mid, inserted, 0, true) && PassOf(kind, owner, Session(mid.log, live), after, again, 0, true)
      ==> (again == [] <==>
             forall key | Eligible(kind, owner, before.log, key) :: Trim(key) == key || Trim(key) in Trimmed(live))
  {
    if PassOf(kind, owner, before, mid, inserted, 0, true) && PassOf(kind, owner, Session(mid.log, live), after, again, 0, true) {
      SplicesAreNoFacts(kind, owner, before.log, inserted);
      if again == [] {
        forall key | Eligible(kind, owner, before.log, key) ensures Trim(key) == key || Trim(key) in Trimmed(live) {
          assert Eligible(kind, owner, mid.log, key);
          assert live + again == live;
          if key in Recorded(mid.log) { RecordedIsTrimmed(mid.log, key); }
        }
      } else {
        var key := again[0];
        assert Eligible(kind, owner, before.log, key);
        EveryFactHasAReceipt(kind, owner, before, mid, inserted, 0, key);
      }
    }
  }

  // ---------- Whole histories ----------

  /** The history: a session, and how often recovery inserted each key. */
  datatype History = History(session: Session, inserted: multiset<string>)

  datatype Step =
    | Happen(e: Event)            // any event is logged, live deliveries included
    | Requeue(live: seq<string>)  // messages are claimed, or a restart rebuilds the queues from the journal
    | Pass(kind: Kind, after: Session, inserted: seq<string>, failures: nat, ok: bool)

  ghost function Do(owner: string, h: History, step: Step): History {
    match step
    case Happen(e) => h.(session := h.session.(log := h.session.log + [e]))
    case Requeue(live) =>
      if Journaled(Session(h.session.log, live)) then h.(session := h.session.(live := live)) else h
    case Pass(kind, after, inserted, failures, ok) =>
      if PassOf(kind, owner, h.session, after, inserted, failures, ok)
      then History(after, h.inserted + multiset(inserted))
      else h
  }

  ghost function Run(owner: string, steps: seq<Step>): History {
    if steps == [] then History(Session([], []), multiset{})
    else Do(owner, Run(owner, steps[..|steps| - 1]), steps[|steps| - 1])
  }

  /**
   Over any sequence of facts, passes, failed appends and crashes, recovery inserts a key
   that trimming leaves alone at most once.
   */
  lemma {:induction false} InsertedAtMostOnce(owner: string, steps: seq<Step>, key: string)
    requires key != "" && Trim(key) == key
    ensures var h := Run(owner, steps); h.inserted[key] <= if key in Recorded(h.session.log) then 1 else 0
  {
    if steps != [] {
      var h, step := Run(owner, steps[..|steps| - 1]), steps[|steps| - 1];
      InsertedAtMostOnce(owner, steps[..|steps| - 1], key);
      match step
      case Happen(e) => RecordedAppend(h.session.log, [e]);
      case Requeue(_) =>
      case Pass(kind, after, inserted, failures, ok) =>
        if PassOf(kind, owner, h.session, after, inserted, failures, ok) {
          RecordedAppend(h.session.log, Splices(inserted));
          RecordedSplices(inserted);
          DistinctOnce(inserted, key);
        }
    }
  }

  lemma {:induction false} RunIsJournaled(owner: string, steps: seq<Step>)
    ensures Journaled(Run(owner, steps).session)
  {
    if steps != [] {
      var h, step := Run(owner, steps[..|steps| - 1]), steps[|steps| - 1];
      RunIsJournaled(owner, steps[..|steps| - 1]);
      match step
      case Happen(e) => RecordedAppend(h.session.log, [e]);
      case Requeue(_) =>
      case Pass(kind, after, inserted, failures, ok) =>
        if PassOf(kind, owner, h.session, after, inserted, failures, ok) {
          RecordedAppend(h.session.log, Splices(inserted));
          RecordedSplices(inserted);
        }
    }
  }

  /** A pass that succeeds anywhere in a run leaves a receipt for every fact logged so far. */
  lemma PassesReachEveryFact(owner: string, steps: seq<Step>, kind: Kind, after: Session, inserted: seq<string>,
                             failures: nat, key: string)
    ensures var before := Run(owner, steps).session;
      PassOf(kind, owner, before, after, inserted, failures, true) && Eligible(kind, owner, before.log, key)
      ==> Trim(key) in Recorded(after.log) && Run(owner, steps + [Pass(kind, after, inserted, failures, true)]).session == after
  {
    RunIsJournaled(owner, steps);
    EveryFactHasAReceipt(kind, owner, Run(owner, steps).session, after, inserted, failures, key);
    var longer := steps + [Pass(kind, after, inserted, failures, true)];
    assert longer[..|longer| - 1] == steps;
  }

  lemma {:induction false} DistinctOnce(keys: seq<string>, key: string)
    requires forall i, j | 0 <= i < j < |keys| :: keys[i] != keys[j]
    ensures multiset(keys)[key] == if key in keys then 1 else 0
  {
    if keys != [] {
      var front := keys[..|keys| - 1];
      assert keys == front + [keys[|keys| - 1]];
      DistinctOnce(front, key);
    }
  }

  /** Such a key exists: a finished job whose id ends in a space is delivered again by every pass. */
  lemma {:induction false} SpacedJobIsNotRecognized()
    ensures FactOf(Jobs, "s", JobDone("a ")) == Wake("job:a ") && Trim("job:a ") != "job:a "
  {
    assert TrimLeft("a ") == "a ";
    TrimRightKeepsVisible("a ");
    assert "job:" + "a " == "job:a ";
    TrimLeftStarts("job:a ");
  }

  lemma RunSnoc(owner: string, steps: seq<Step>, step: Step)
    ensures Run(owner, steps + [step]) == Do(owner, Run(owner, steps), step)
  {
    assert (steps + [step])[..|steps|] == steps;
  }

  /** A pass that finds one key, not recorded, and an empty inbox. */
  lemma OneIsInserted(facts: seq<Fact>, log: seq<Event>, key: string)
    requires Wake(key) in facts && forall fact | fact in facts :: fact == NoFact || fact == Wake(key)
    requires key !in Recorded(log) && BrokenSplice !in log
    ensures PassOver(facts, Session(log, []), Session(log + [Spliced([key])], [key]), [key], 0, true)
  {
    assert Splices([key]) == [Spliced([key])] && [] + [key] == [key];
    assert key in [key];
  }

  /** The job's key is recorded, if at all, in its trimmed form only. */
  lemma SpacedJobIsInserted(log: seq<Event>)
    requires log == [JobDone("a ")] || log == [JobDone("a "), Spliced(["job:a "])]
    ensures PassOf(Jobs, "s", Session(log, []), Session(log + [Spliced(["job:a "])], ["job:a "]), ["job:a "], 0, true)
  {
    SpacedJobIsNotRecognized();
    var key := "job:a ";
    var facts := Facts(Jobs, "s", log);
    assert facts[0] == Wake(key) && forall i | 0 < i < |facts| :: facts[i] == NoFact;
    if key in Recorded(log) { RecordedIsTrimmed(log, key); }
    OneIsInserted(facts, log, key);
  }

  /** So a run can deliver one job twice: finished, recovered, claimed, and recovered again after a restart. */
  lemma SpacedJobIsDeliveredTwice()
    ensures var once := [JobDone("a "), Spliced(["job:a "])];
      var steps := [] + [Happen(JobDone("a "))]
        + [Pass(Jobs, Session(once, ["job:a "]), ["job:a "], 0, true)] + [Requeue([])]
        + [Pass(Jobs, Session(once + [Spliced(["job:a "])], ["job:a "]), ["job:a "], 0, true)];
      Run("s", steps).inserted["job:a "] == 2
  {
    var done := [JobDone("a ")];
    var once := [JobDone("a "), Spliced(["job:a "])];
    var first, second := Pass(Jobs, Session(once, ["job:a "]), ["job:a "], 0, true),
      Pass(Jobs, Session(once + [Spliced(["job:a "])], ["job:a "]), ["job:a "], 0, true);
    SpacedJobIsInserted(done);
    SpacedJobIsInserted(once);
    assert done + [Spliced(["job:a "])] == once && [] + done == done;
    RunSnoc("s", [], Happen(JobDone("a ")));
    RunSnoc("s", [] + [Happen(JobDone("a "))], first);
    RunSnoc("s", [] + [Happen(JobDone("a "))] + [first], Requeue([]));
    RunSnoc("s", [] + [Happen(JobDone("a "))] + [first] + [Requeue([])], second);
    assert Run("s", []) == History(Session([], []), multiset{});
    assert Run("s", [] + [Happen(JobDone("a "))]) == History(Session(done, []), multiset{});
    assert Run("s", [] + [Happen(JobDone("a "))] + [first]) == History(Session(once, ["job:a "]), multiset{"job:a "});
    assert Run("s", [] + [Happen(JobDone("a "))] + [first] + [Requeue([])]) == History(Session(once, []), multiset{"job:a "});
  }
}
