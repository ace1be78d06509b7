/**
 Terminals left open by an earlier process (cmd/sta/terminal_tools.go): before their owner
 comes back, each stale claim in its log gets one stop edge.
 */
module TerminalClaims {
  import opened Common
  import opened TextTrim

  /** The decoded log: `Broken` stands for a terminal event that does not decode. */
  datatype Event = Start(id: string) | Stop(id: string) | Broken | Other

  // ---------- What a log claims ----------

  predicate IsEdge(e: Event, id: string) {
    (e.Start? || e.Stop?) && Trim(e.id) == id
  }

  predicate Malformed(e: Event) {
    e.Broken? || ((e.Start? || e.Stop?) && Trim(e.id) == "")
  }

  /** Whether the last edge of a terminal is a start; None if it has no edge. */
  function LastEdge(log: seq<Event>, id: string): Option<bool> {
    if log == [] then None
    else if IsEdge(log[|log| - 1], id) then Some(log[|log| - 1].Start?)
    else LastEdge(log[..|log| - 1], id)
  }

  function FirstEdge(log: seq<Event>, id: string): Option<bool> {
    if log == [] then None
    else
      var before := FirstEdge(log[..|log| - 1], id);
      if before.Some? then before
      else if IsEdge(log[|log| - 1], id) then Some(log[|log| - 1].Start?)
      else None
  }

  // ---------- The scan ----------

  datatype Scan = Scan(open: map<string, bool>, order: seq<string>, failed: bool)

  function Scanned(sc: Scan, e: Event): Scan {
    if Malformed(e) then sc.(failed := true)
    else
      match e
      case Start(raw) =>
        var id := Trim(raw);
        Scan(sc.open[id := true], if id in sc.open then sc.order else sc.order + [id], sc.failed)
      case Stop(raw) => sc.(open := sc.open[Trim(raw) := false])
      case _ => sc
  }

  function ScanOf(log: seq<Event>): Scan {
    if log == [] then Scan(map[], [], false) else Scanned(ScanOf(log[..|log| - 1]), log[|log| - 1])
  }

  /** The claims to release: those still open, in the order of their first start. */
  function Releasable(order: seq<string>, open: map<string, bool>): seq<string> {
    if order == [] then []
    else
      var id := order[|order| - 1];
      Releasable(order[..|order| - 1], open) + if id in open && open[id] then [id] else []
  }

  function Releases(log: seq<Event>): seq<string> {
    Releasable(ScanOf(log).order, ScanOf(log).open)
  }

  function Stops(ids: seq<string>): (stops: seq<Event>)
    ensures |stops| == |ids|
  {
    seq(|ids|, i requires 0 <= i < |ids| => Stop(ids[i]))
  }

  class SessionLog {
    var events: seq<Event>

    constructor (events: seq<Event>)
      ensures this.events == events
    {
      this.events := events;
    }

    method ScanLog() returns (open: map<string, bool>, order: seq<string>, failed: bool)
      ensures Scan(open, order, failed) == ScanOf(events)
    {
      open, order, failed := map[], [], false;
      for i := 0 to |events|
        invariant Scan(open, order, failed) == ScanOf(events[..i])
      {
        assert events[..i + 1][..i] == events[..i];
        match events[i]
        case Other =>
        case Broken => failed := true;
        case Start(raw) =>
          var id := Trim(raw);
          if id == "" {
            failed := true;
          } else {
            if id !in open { order := order + [id]; }
            open := open[id := true];
          }
        case Stop(raw) =>
          var id := Trim(raw);
          if id == "" { failed := true; } else { open := open[id := false]; }
      }
      assert events[..|events|] == events;
    }

    /**
     Releases the stale claims of an owner none of whose terminals is live.  An append may
     fail: then the first `done` stops have been written.
     */
    method RecoverClaims(live: bool) returns (ok: bool, ghost done: nat)
      modifies this
      ensures live ==> ok && events == old(events)
      ensures !live && old(ScanOf(events)).failed ==> !ok && events == old(events)
      ensures !live && !old(ScanOf(events)).failed ==>
        && done <= |Releases(old(events))| && events == old(events) + Stops(Releases(old(events))[..done])
        && (ok <==> done == |Releases(old(events))|)
    {
      done := 0;
      if live { return true, 0; }
      var open, order, failed := ScanLog();
      if failed { return false, 0; }
      ghost var was, releases := events, Releases(events);
      assert releases[..0] == [] && Stops([]) == [];
      for i := 0 to |order|
        invariant done <= |releases| && releases[..done] == Releasable(order[..i], open)
        invariant events == was + Stops(releases[..done])
      {
        NextRelease(order, open, i, done);
        if order[i] in open && open[order[i]] {
          StopsGrow(was, releases, done);
          var appended: bool := *;
          if !appended { return false, done; }
          events := events + [Stop(order[i])];
          done := done + 1;
        }
      }
      assert order[..|order|] == order && releases[..done] == releases;
      ok := true;
    }
  }

  lemma {:induction false} ReleasablePrefix(order: seq<string>, open: map<string, bool>, i: nat)
    requires i <= |order|
    ensures Releasable(order[..i], open) <= Releasable(order, open)
  {
    if i < |order| {
      ReleasablePrefix(order[..|order| - 1], open, i);
      assert order[..|order| - 1][..i] == order[..i];
    } else {
      assert order[..i] == order;
    }
  }

  lemma ReleasableGrows(order: seq<string>, open: map<string, bool>, i: nat)
    requires i < |order|
    ensures Releasable(order[..i + 1], open) ==
      Releasable(order[..i], open) + if order[i] in open && open[order[i]] then [order[i]] else []
  {
    assert order[..i + 1][..i] == order[..i];
  }

  lemma NextInPrefix<T>(a: seq<T>, x: T, b: seq<T>)
    requires a + [x] <= b
    ensures |a| < |b| && b[|a|] == x && b[..|a| + 1] == a + [x]
  {
    assert (a + [x])[|a|] == x;
  }

  lemma NextRelease(order: seq<string>, open: map<string, bool>, i: nat, done: nat)
    requires i < |order| && done <= |Releasable(order, open)|
    requires Releasable(order, open)[..done] == Releasable(order[..i], open)
    ensures var releases := Releasable(order, open);
      if order[i] in open && open[order[i]]
      then done < |releases| && releases[done] == order[i] && releases[..done + 1] == Releasable(order[..i + 1], open)
      else releases[..done] == Releasable(order[..i + 1], open)
  {
    ReleasableGrows(order, open, i);
    if order[i] in open && open[order[i]] {
      ReleasablePrefix(order, open, i + 1);
      NextInPrefix(Releasable(order[..i], open), order[i], Releasable(order, open));
    } else {
      assert Releasable(order[..i], open) + [] == Releasable(order[..i], open);
    }
  }

  lemma StopsGrow(log: seq<Event>, ids: seq<string>, n: nat)
    requires n < |ids|
    ensures log + Stops(ids[..n]) + [Stop(ids[n])] == log + Stops(ids[..n + 1])
  {
    assert Stops(ids[..n + 1]) == Stops(ids[..n]) + [Stop(ids[n])];
  }

  // ---------- Which claims are released ----------

  lemma {:induction false} ScanAt(log: seq<Event>, id: string)
    requires id != ""
    ensures var sc := ScanOf(log);
      && (id in sc.open <==> LastEdge(log, id).Some?) && (id in sc.open <==> FirstEdge(log, id).Some?)
      && (id in sc.open ==> sc.open[id] == LastEdge(log, id).value)
      && (id in sc.order <==> FirstEdge(log, id) == Some(true))
  {
    if log != [] { ScanAt(log[..|log| - 1], id); }
  }

  predicate Distinct(ids: seq<string>) {
    forall i, j | 0 <= i < j < |ids| :: ids[i] != ids[j]
  }

  lemma {:induction false} OrderIsDistinct(log: seq<Event>)
    ensures Distinct(ScanOf(log).order) && "" !in ScanOf(log).order
    ensures forall id | id in ScanOf(log).order :: id in ScanOf(log).open
  {
    if log != [] { OrderIsDistinct(log[..|log| - 1]); }
  }

  lemma {:induction false} ReleasableAre(order: seq<string>, open: map<string, bool>, id: string)
    requires Distinct(order)
    ensures id in Releasable(order, open) <==> id in order && id in open && open[id]
    ensures Distinct(Releasable(order, open))
  {
    if order != [] {
      var before, last := order[..|order| - 1], order[|order| - 1];
      ReleasableAre(before, open, id);
      ReleasableAre(before, open, last);
      assert order == before + [last];
    }
  }

  /**
   A claim is released, once, exactly if its last edge is a start and its first edge is one
   too: a terminal whose log begins with a stop is never found again.
   */
  lemma ReleasedExactlyWhen(log: seq<Event>, id: string)
    ensures id in Releases(log) <==> id != "" && LastEdge(log, id) == Some(true) && FirstEdge(log, id) == Some(true)
    ensures Distinct(Releases(log))
  {
    OrderIsDistinct(log);
    ReleasableAre(ScanOf(log).order, ScanOf(log).open, id);
    if id != "" { ScanAt(log, id); }
  }

  /** The scan fails exactly over a terminal event that does not decode or has a blank id. */
  lemma {:induction false} ScanFailsExactlyWhen(log: seq<Event>)
    ensures ScanOf(log).failed <==> exists i | 0 <= i < |log| :: log[i].Broken? || ((log[i].Start? || log[i].Stop?) && Trim(log[i].id) == "")
  {
    if log != [] {
      var front, last := log[..|log| - 1], log[|log| - 1];
      ScanFailsExactlyWhen(front);
      assert forall i | 0 <= i < |front| :: front[i] == log[i];
      assert last == log[|log| - 1];
    }
  }

  /** Some event of the log is the first that concerns `a` when none concerns `b` yet. */
  ghost predicate ComesFirst(log: seq<Event>, a: string, b: string) {
    exists i | 0 <= i < |log| :: IsEdge(log[i], a) && forall j | 0 <= j <= i :: !IsEdge(log[j], b)
  }

  lemma {:induction false} NoEdgeYet(log: seq<Event>, id: string)
    ensures FirstEdge(log, id).None? <==> forall j | 0 <= j < |log| :: !IsEdge(log[j], id)
  {
    if log != [] {
      NoEdgeYet(log[..|log| - 1], id);
      assert forall j | 0 <= j < |log| - 1 :: log[..|log| - 1][j] == log[j];
    }
  }

  /** The scan lists one id more, or none. */
  lemma OrderGrows(front: seq<Event>, last: Event)
    ensures var before, after := ScanOf(front), ScanOf(front + [last]);
      || after.order == before.order
      || (|after.order| == |before.order| + 1 && after.order[..|before.order|] == before.order
          && after.order[|before.order|] !in before.open && after.order[|before.order|] != "")
  {
    assert (front + [last])[..|front|] == front;
  }

  lemma {:induction false} OrderIsChronological(log: seq<Event>, i: nat, j: nat)
    requires i < j < |ScanOf(log).order|
    ensures ComesFirst(log, ScanOf(log).order[i], ScanOf(log).order[j])
  {
    var front, last := log[..|log| - 1], log[|log| - 1];
    assert log == front + [last];
    var a, b := ScanOf(log).order[i], ScanOf(log).order[j];
    OrderGrows(front, last);
    if j < |ScanOf(front).order| {
      OrderIsChronological(front, i, j);
      ComesFirstStill(front, last, a, b);
    } else {
      assert a == ScanOf(front).order[i];
      ListedHasAnEdge(front, a, b);
      assert ComesFirst(front + [last], a, b);
    }
  }

  lemma ComesFirstStill(front: seq<Event>, last: Event, a: string, b: string)
    requires ComesFirst(front, a, b)
    ensures ComesFirst(front + [last], a, b)
  {
    var log := front + [last];
    var k :| 0 <= k < |front| && IsEdge(front[k], a) && forall m | 0 <= m <= k :: !IsEdge(front[m], b);
    assert IsEdge(log[k], a) && forall m | 0 <= m <= k :: log[m] == front[m];
  }

  lemma ListedHasAnEdge(front: seq<Event>, a: string, b: string)
    requires a in ScanOf(front).order && b !in ScanOf(front).open && b != ""
    ensures forall e :: ComesFirst(front + [e], a, b)
  {
    OrderIsDistinct(front);
    ScanAt(front, a);
    ScanAt(front, b);
    NoEdgeYet(front, a);
    NoEdgeYet(front, b);
    var k :| 0 <= k < |front| && IsEdge(front[k], a);
    forall e ensures ComesFirst(front + [e], a, b) {
      var log := front + [e];
      assert IsEdge(log[k], a) && forall m | 0 <= m <= k :: log[m] == front[m];
    }
  }

  /** Claims are released in the order in which their terminals first occur. */
  lemma ReleasedInOrder(log: seq<Event>, i: nat, j: nat)
    requires i < j < |Releases(log)|
    ensures ComesFirst(log, Releases(log)[i], Releases(log)[j])
  {
    var p, q := ReleasableFrom(ScanOf(log).order, ScanOf(log).open, i, j);
    OrderIsChronological(log, p, q);
  }

  lemma {:induction false} ReleasableFrom(order: seq<string>, open: map<string, bool>, i: nat, j: nat) returns (p: nat, q: nat)
    requires i < j < |Releasable(order, open)|
    ensures p < q < |order| && Releasable(order, open)[i] == order[p] && Releasable(order, open)[j] == order[q]
  {
    var n := |order| - 1;
    var before := Releasable(order[..n], open);
    if j < |before| {
      p, q := ReleasableFrom(order[..n], open, i, j);
    } else {
      assert before[i] in before;
      ReleasableInside(order[..n], open, before[i]);
      p :| 0 <= p < n && order[..n][p] == before[i];
      q := n;
    }
  }

  lemma {:induction false} ReleasableInside(order: seq<string>, open: map<string, bool>, id: string)
    requires id in Releasable(order, open)
    ensures id in order
  {
    if order != [] {
      if id in Releasable(order[..|order| - 1], open) { ReleasableInside(order[..|order| - 1], open, id); }
    }
  }

  /** Such a terminal exists: its claim stays open through every recovery. */
  lemma StopBeforeStartIsLost()
    ensures var log := [Stop("t"), Start("t")]; LastEdge(log, "t") == Some(true) && Releases(log) == []
  {
    var log := [Stop("t"), Start("t")];
    assert TrimLeft("t") == "t" && Trim("t") == "t";
    assert log[..1] == [Stop("t")] && log[..1][..0] == [];
    assert FirstEdge(log[..1], "t") == Some(false);
    ReleasedExactlyWhen(log, "t");
    assert ScanOf(log[..1]) == Scan(map["t" := false], [], false);
    assert ScanOf(log).order == [];
  }

  // ---------- After a recovery ----------

  lemma OneMoreStop(log: seq<Event>, k: string, id: string)
    requires Trim(k) == k
    ensures LastEdge(log + [Stop(k)], id) == if k == id then Some(false) else LastEdge(log, id)
    ensures FirstEdge(log, id).Some? ==> FirstEdge(log + [Stop(k)], id) == FirstEdge(log, id)
  {
    assert (log + [Stop(k)])[..|log|] == log;
  }

  lemma {:induction false} EdgesAfter(log: seq<Event>, ids: seq<string>, id: string)
    requires forall k | k in ids :: Trim(k) == k
    ensures LastEdge(log + Stops(ids), id) == if id in ids then Some(false) else LastEdge(log, id)
    ensures FirstEdge(log, id).Some? ==> FirstEdge(log + Stops(ids), id) == FirstEdge(log, id)
  {
    if ids == [] {
      assert log + Stops(ids) == log;
    } else {
      var before, last := ids[..|ids| - 1], ids[|ids| - 1];
      EdgesAfter(log, before, id);
      assert ids == before + [last];
      StopsGrow(log, ids, |ids| - 1);
      assert ids[..|ids|] == ids;
      OneMoreStop(log + Stops(before), last, id);
    }
  }

  lemma {:induction false} ClaimsAreTrimmed(log: seq<Event>, id: string)
    requires LastEdge(log, id).Some?
    ensures Trim(id) == id
  {
    if IsEdge(log[|log| - 1], id) { TrimIsIdempotent(log[|log| - 1].id); } else { ClaimsAreTrimmed(log[..|log| - 1], id); }
  }

  /** After a recovery no released claim is open, other terminals are as they were, and a second one finds nothing. */
  lemma RecoveryReleases(log: seq<Event>, id: string)
    ensures var after := log + Stops(Releases(log));
      && LastEdge(after, id) == (if id in Releases(log) then Some(false) else LastEdge(log, id))
      && Releases(after) == []
  {
    var releases := Releases(log);
    var after := log + Stops(releases);
    forall k | k in releases ensures Trim(k) == k {
      ReleasedExactlyWhen(log, k);
      ClaimsAreTrimmed(log, k);
    }
    EdgesAfter(log, releases, id);
    if Releases(after) != [] {
      var k := Releases(after)[0];
      ReleasedExactlyWhen(after, k);
      ReleasedExactlyWhen(log, k);
      EdgesAfter(log, releases, k);
      FirstOrLast(log, k);
      assert false;
    }
  }

  lemma {:induction false} FirstOrLast(log: seq<Event>, id: string)
    ensures FirstEdge(log, id).Some? <==> LastEdge(log, id).Some?
  {
    if log != [] { FirstOrLast(log[..|log| - 1], id); }
  }
}
