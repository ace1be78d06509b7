/**
 Climbing from id to id along a function, for at most 64 steps and no further than the first
 repeated id (the loop of teamRootSessionID in cmd/sta/team.go).
 */
module BoundedWalk {
  const Bound: nat := 64

  ghost function Climb<T>(up: T -> T, id: T, n: nat): T {
    if n == 0 then id else up(Climb(up, id, n - 1))
  }

  lemma {:induction false} ClimbAdds<T>(up: T -> T, id: T, m: nat, n: nat)
    ensures Climb(up, Climb(up, id, m), n) == Climb(up, id, m + n)
  {
    if n > 0 { ClimbAdds(up, id, m, n - 1); }
  }

  // ---------- The walk ----------

  /** The first ids of the climb. */
  ghost function Seen<T>(up: T -> T, id: T, n: nat): set<T> {
    set i | 0 <= i < n :: Climb(up, id, i)
  }

  ghost predicate Fresh<T>(up: T -> T, id: T, n: nat) {
    forall i, j | 0 <= i < j < n :: Climb(up, id, i) != Climb(up, id, j)
  }

  /** How many ids the walk examines: up to the first repetition, at most 64. */
  ghost function Length<T>(up: T -> T, id: T, n: nat): (k: nat)
    requires n <= Bound
    ensures n <= k <= Bound
    decreases Bound - n
  {
    if n == Bound || Climb(up, id, n) in Seen(up, id, n) then n else Length(up, id, n + 1)
  }

  ghost function Walk<T>(up: T -> T, id: T): T {
    Climb(up, id, Length(up, id, 0))
  }

  lemma FreshGrows<T>(up: T -> T, id: T, n: nat)
    requires Fresh(up, id, n) && Climb(up, id, n) !in Seen(up, id, n)
    ensures Fresh(up, id, n + 1) && Seen(up, id, n + 1) == Seen(up, id, n) + {Climb(up, id, n)}
  {}

  lemma {:induction false} LengthIs<T>(up: T -> T, id: T, n: nat)
    requires n <= Bound && Fresh(up, id, n)
    ensures var k := Length(up, id, n);
      Fresh(up, id, k) && (k < Bound ==> Climb(up, id, k) in Seen(up, id, k))
    decreases Bound - n
  {
    if n < Bound && Climb(up, id, n) !in Seen(up, id, n) {
      FreshGrows(up, id, n);
      LengthIs(up, id, n + 1);
    }
  }

  lemma {:induction false} LengthStops<T>(up: T -> T, id: T, n: nat, k: nat)
    requires n <= k < Bound && Fresh(up, id, k) && Climb(up, id, k) in Seen(up, id, k)
    ensures Length(up, id, n) == k
    decreases k - n
  {
    if n < k { LengthStops(up, id, n + 1, k); }
  }

  lemma {:induction false} LengthIsBound<T>(up: T -> T, id: T, n: nat)
    requires n <= Bound && Fresh(up, id, Bound)
    ensures Length(up, id, n) == Bound
    decreases Bound - n
  {
    if n < Bound { LengthIsBound(up, id, n + 1); }
  }

  /** At a root the climb stands still, so that the next id is the first repeated one. */
  lemma RootStands<T>(up: T -> T, id: T, k: nat)
    requires k < Bound && Fresh(up, id, k + 1) && up(Climb(up, id, k)) == Climb(up, id, k)
    ensures Walk(up, id) == Climb(up, id, k)
  {
    if k + 1 < Bound {
      assert Climb(up, id, k) in Seen(up, id, k + 1);
      LengthStops(up, id, 0, k + 1);
    } else {
      LengthIsBound(up, id, 0);
    }
  }

  // ---------- When the walk has arrived ----------

  /** The id comes back to itself within 64 steps; a root does so in one. */
  ghost predicate OnCycle<T>(up: T -> T, id: T) {
    exists p | 1 <= p <= Bound :: Climb(up, id, p) == id
  }

  /** The first repeated id, or the id after 64 fresh ones. */
  lemma WalkIs<T>(up: T -> T, id: T) returns (k: nat)
    ensures k <= Bound && Walk(up, id) == Climb(up, id, k) && Fresh(up, id, k)
    ensures k < Bound ==> Climb(up, id, k) in Seen(up, id, k) && OnCycle(up, Walk(up, id))
  {
    LengthIs(up, id, 0);
    k := Length(up, id, 0);
    if k < Bound {
      var j :| 0 <= j < k && Climb(up, id, j) == Climb(up, id, k);
      ClimbAdds(up, id, j, k - j);
      assert Climb(up, Climb(up, id, k), k - j) == Climb(up, id, k);
    }
  }

  lemma ShorterPeriod<T>(up: T -> T, id: T, p: nat, i: nat, j: nat)
    requires i < j < p && Climb(up, id, p) == id && Climb(up, id, i) == Climb(up, id, j)
    ensures Climb(up, id, i + (p - j)) == id
  {
    ClimbAdds(up, id, j, p - j);
    ClimbAdds(up, id, i, p - j);
  }

  lemma {:induction false} SmallestPeriod<T>(up: T -> T, id: T, p: nat) returns (q: nat)
    requires 1 <= p && Climb(up, id, p) == id
    ensures 1 <= q <= p && Climb(up, id, q) == id && Fresh(up, id, q)
    decreases p
  {
    q := p;
    if !Fresh(up, id, p) {
      var i, j :| 0 <= i < j < p && Climb(up, id, i) == Climb(up, id, j);
      ShorterPeriod(up, id, p, i, j);
      q := SmallestPeriod(up, id, i + (p - j));
    }
  }

  /** Walking again from an id returns it exactly if it lies on a cycle of at most 64 ids. */
  lemma WalkStaysExactlyWhen<T>(up: T -> T, id: T)
    ensures Walk(up, id) == id <==> OnCycle(up, id)
  {
    var k := WalkIs(up, id);
    if OnCycle(up, id) {
      var p :| 1 <= p <= Bound && Climb(up, id, p) == id;
      var q := SmallestPeriod(up, id, p);
      if q < Bound {
        assert Climb(up, id, 0) in Seen(up, id, q);
        LengthStops(up, id, 0, q);
      } else {
        LengthIsBound(up, id, 0);
      }
    }
  }

  lemma {:induction false} SeenHasAtMost<T>(up: T -> T, id: T, ids: set<T>, n: nat)
    requires Fresh(up, id, n) && forall i | 0 <= i < n :: Climb(up, id, i) in ids
    ensures n <= |ids|
  {
    if n > 0 {
      var last := Climb(up, id, n - 1);
      SeenHasAtMost(up, id, ids - {last}, n - 1);
    }
  }

  /**
   If fewer than 64 ids can be reached, even on cyclic lineage, the walk ends on the cycle at
   the first repeated id, and walking again from there stays.
   */
  lemma SmallLineageIsIdempotent<T>(up: T -> T, id: T, reachable: set<T>)
    requires |reachable| < Bound && forall n: nat :: Climb(up, id, n) in reachable
    ensures OnCycle(up, Walk(up, id)) && Walk(up, Walk(up, id)) == Walk(up, id)
    ensures exists k: nat :: k < Bound && Walk(up, id) == Climb(up, id, k)
                             && Fresh(up, id, k) && Climb(up, id, k) in Seen(up, id, k)
  {
    var k := WalkIs(up, id);
    SeenHasAtMost(up, id, reachable, k);
    WalkStaysExactlyWhen(up, Walk(up, id));
  }

  /** `r` is the first id of the climb that lies on a cycle. */
  ghost predicate FirstOnCycle<T>(up: T -> T, id: T, r: T) {
    exists n: nat :: ArrivesAt(up, id, r, n)
  }

  ghost predicate ArrivesAt<T>(up: T -> T, id: T, r: T, n: nat) {
    Climb(up, id, n) == r && OnCycle(up, r) && forall m | 0 <= m < n :: !OnCycle(up, Climb(up, id, m))
  }

  /** No id before the one that is repeated first lies on a cycle. */
  lemma NoCycleBefore<T>(up: T -> T, id: T, m: nat, j: nat, k: nat)
    requires m < j < k < Bound && Fresh(up, id, k) && Climb(up, id, j) == Climb(up, id, k)
    ensures !OnCycle(up, Climb(up, id, m))
  {
    var start, length := Climb(up, id, m), k - m;
    forall i | 0 <= i <= length ensures Climb(up, start, i) == Climb(up, id, m + i) { ClimbAdds(up, id, m, i); }
    assert Climb(up, start, j - m) == Climb(up, start, length) != Climb(up, start, 0);
    LengthStops(up, start, 0, length);
    WalkStaysExactlyWhen(up, start);
  }

  /** With fewer than 64 reachable ids, the walk's result is the first id that lies on a cycle. */
  lemma WalkArrivesExactlyAt<T>(up: T -> T, id: T, reachable: set<T>, r: T)
    requires |reachable| < Bound && forall n: nat :: Climb(up, id, n) in reachable
    ensures Walk(up, id) == r <==> FirstOnCycle(up, id, r)
  {
    var k := WalkIs(up, id);
    SeenHasAtMost(up, id, reachable, k);
    var j :| 0 <= j < k && Climb(up, id, j) == Climb(up, id, k);
    forall m | 0 <= m < j ensures !OnCycle(up, Climb(up, id, m)) { NoCycleBefore(up, id, m, j, k); }
    assert ArrivesAt(up, id, Walk(up, id), j);
    if FirstOnCycle(up, id, r) {
      var n: nat :| ArrivesAt(up, id, r, n);
      assert n == j;
    }
  }

  lemma {:induction false} FixpointStays<T>(up: T -> T, r: T, n: nat)
    requires up(r) == r
    ensures Climb(up, r, n) == r
  {
    if n > 0 { FixpointStays(up, r, n - 1); }
  }

  lemma {:induction false} PeriodRepeats<T>(up: T -> T, id: T, p: nat, times: nat)
    requires Climb(up, id, p) == id
    ensures Climb(up, id, times * p) == id
  {
    if times > 0 {
      PeriodRepeats(up, id, p, times - 1);
      ClimbAdds(up, id, (times - 1) * p, p);
    }
  }

  /** A cycle that leads to a fixpoint is the fixpoint. */
  lemma CycleToFixpoint<T>(up: T -> T, at: T, p: nat, r: T, d: nat)
    requires 1 <= p && Climb(up, at, p) == at && Climb(up, at, d) == r && up(r) == r
    ensures at == r
  {
    PeriodRepeats(up, at, p, d);
    var more := d * (p - 1);
    assert d * p == d + more;
    ClimbAdds(up, at, d, more);
    FixpointStays(up, r, more);
  }

  /** A fixpoint that the climb reaches is the first id on a cycle that it meets. */
  lemma {:induction false} FixpointIsFirst<T>(up: T -> T, id: T, r: T, n: nat)
    requires Climb(up, id, n) == r && up(r) == r
    ensures FirstOnCycle(up, id, r)
    decreases n
  {
    assert Climb(up, r, 1) == up(Climb(up, r, 0)) == r;
    if m: nat :| m < n && OnCycle(up, Climb(up, id, m)) {
      var at := Climb(up, id, m);
      var p :| 1 <= p <= Bound && Climb(up, at, p) == at;
      ClimbAdds(up, id, m, n - m);
      CycleToFixpoint(up, at, p, r, n - m);
      FixpointIsFirst(up, id, r, m);
    } else {
      assert ArrivesAt(up, id, r, n);
    }
  }
}
