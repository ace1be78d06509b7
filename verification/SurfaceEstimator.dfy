/**
 The surface token estimate (cmd/sta/compact.go): replaced stretches of a session log are
 merged in place and then searched, instead of asking every replacement about every event.
 */
module SurfaceEstimator {
  import opened Common

  // ---------- Machine words ----------

  const WORD: nat := 0x1_0000_0000_0000_0000

  type Word = n: nat | n < 0x1_0000_0000_0000_0000
  type Int64 = i: int | -0x8000_0000_0000_0000 <= i < 0x8000_0000_0000_0000

  /** uint64 addition of one, which wraps. */
  function Successor(n: Word): Word { (n + 1) % WORD }

  // ---------- Events and ranges ----------

  datatype SurfaceOp = SurfaceOp(op: string, start: Int64, end: Int64)

  /** `op` is what a payload decodes to; `tokens` is the estimate of the event's own text. */
  datatype Event = Event(id: Word, userMessage: bool, op: Option<SurfaceOp>, tokens: nat)

  datatype Range = Range(start: Word, end: Word)

  predicate Replaces(e: Event) {
    e.userMessage && e.op.Some? && e.op.value.op == "replace" && 0 <= e.op.value.start <= e.op.value.end
  }

  predicate Contains(r: Range, id: int) {
    r.start <= id <= r.end
  }

  predicate Covered(ranges: seq<Range>, id: int) {
    exists r :: r in ranges && Contains(r, id)
  }

  /** A range made from two nonnegative int64 numbers: its end has a successor. */
  predicate Proper(r: Range) {
    r.start <= r.end < 0x8000_0000_0000_0000
  }

  predicate AllProper(ranges: seq<Range>) {
    forall r | r in ranges :: Proper(r)
  }

  predicate SortedByStart(ranges: seq<Range>) {
    forall i, j | 0 <= i < j < |ranges| :: ranges[i].start <= ranges[j].start
  }

  /** Sorted, and no two ranges touch. */
  predicate Separated(ranges: seq<Range>) {
    forall i, j | 0 <= i < j < |ranges| :: ranges[i].end + 1 < ranges[j].start
  }

  // ---------- The reference meaning ----------

  predicate Shadowed(events: seq<Event>, id: Word) {
    exists e :: e in events && Replaces(e) && e.op.value.start <= id <= e.op.value.end
  }

  /** The tokens of the events of `part` that no replacement in `all` covers. */
  function VisibleTokens(all: seq<Event>, part: seq<Event>): nat {
    if part == [] then 0
    else
      var last := part[|part| - 1];
      VisibleTokens(all, part[..|part| - 1]) + if Shadowed(all, last.id) then 0 else last.tokens
  }

  function AllTokens(part: seq<Event>): nat {
    if part == [] then 0 else AllTokens(part[..|part| - 1]) + part[|part| - 1].tokens
  }

  /** The event is a replacement, of a stretch that the number lies in. */
  predicate Hides(e: Event, id: Word) {
    e.userMessage && exists start: Int64, end: Int64 :: e.op == Some(SurfaceOp("replace", start, end)) && 0 <= start <= id <= end
  }

  /** The events of `part` that some event of the log hides. */
  function Hidden(all: seq<Event>, part: seq<Event>): seq<Event> {
    if part == [] then []
    else
      var last := part[|part| - 1];
      Hidden(all, part[..|part| - 1]) + if exists e | e in all :: Hides(e, last.id) then [last] else []
  }

  lemma ShadowedExactlyWhen(events: seq<Event>, id: Word)
    ensures Shadowed(events, id) <==> exists e | e in events :: Hides(e, id)
  {
    if Shadowed(events, id) {
      var e :| e in events && Replaces(e) && e.op.value.start <= id <= e.op.value.end;
      assert e.op == Some(SurfaceOp("replace", e.op.value.start, e.op.value.end));
      assert Hides(e, id);
    }
  }

  lemma {:induction false} AllTokensAppend(a: seq<Event>, e: Event)
    ensures AllTokens(a + [e]) == AllTokens(a) + e.tokens
  {
    assert (a + [e])[..|a|] == a;
  }

  /** Every token of the log is in a visible event or in a hidden one. */
  lemma {:induction false} TokensAreConserved(all: seq<Event>, part: seq<Event>)
    ensures VisibleTokens(all, part) + AllTokens(Hidden(all, part)) == AllTokens(part)
  {
    if part != [] {
      var front, last := part[..|part| - 1], part[|part| - 1];
      TokensAreConserved(all, front);
      ShadowedExactlyWhen(all, last.id);
      AllTokensAppend(Hidden(all, front), last);
      assert Hidden(all, front) + [] == Hidden(all, front);
    }
  }

  // ---------- Merging ----------

  /** Covering the same numbers with separated ranges can be done in one way only. */
  lemma {:induction false} SeparatedCoverIsUnique(r: seq<Range>, s: seq<Range>)
    requires AllProper(r) && AllProper(s) && Separated(r) && Separated(s)
    requires forall id: int :: Covered(r, id) <==> Covered(s, id)
    ensures r == s
  {
    if r == [] || s == [] {
      if r != [] { FirstIsCovered(r); }
      if s != [] { FirstIsCovered(s); }
    } else {
      CoverStarts(r, s);
      CoverStarts(s, r);
      assert r[0] == s[0];
      forall id: int ensures Covered(r[1..], id) <==> Covered(s[1..], id) {
        CoverOfTail(r, id);
        CoverOfTail(s, id);
      }
      SeparatedCoverIsUnique(r[1..], s[1..]);
      assert r == [r[0]] + r[1..] && s == [s[0]] + s[1..];
    }
  }

  lemma FirstIsCovered(r: seq<Range>)
    requires r != [] && AllProper(r)
    ensures Covered(r, r[0].start)
  {
    assert r[0] in r && Contains(r[0], r[0].start);
  }

  lemma CoverOfTail(r: seq<Range>, id: int)
    requires r != [] && AllProper(r) && Separated(r)
    ensures Covered(r[1..], id) <==> Covered(r, id) && id > r[0].end
  {
    if Covered(r, id) && id > r[0].end {
      var x :| x in r && Contains(x, id);
      assert x in r[1..];
    }
    if Covered(r[1..], id) {
      var i :| 0 < i < |r| && Contains(r[i], id);
      assert r[i] in r;
    }
  }

  lemma CoverFrom(r: seq<Range>, id: int)
    requires AllProper(r) && Separated(r) && Covered(r, id)
    ensures r[0].start <= id
  {
    var i :| 0 <= i < |r| && Contains(r[i], id);
    assert r[0] in r;
  }

  lemma CoverStarts(r: seq<Range>, s: seq<Range>)
    requires r != [] && s != [] && AllProper(r) && AllProper(s) && Separated(r) && Separated(s)
    requires forall id: int :: Covered(r, id) <==> Covered(s, id)
    ensures s[0].start <= r[0].start && s[0].end <= r[0].end
  {
    FirstIsCovered(r);
    CoverFrom(s, r[0].start);
    if s[0].end > r[0].end {
      var id := r[0].end + 1;
      assert r[0] in r && s[0] in s && Contains(s[0], id);
      CoverOfTail(r, id);
    }
  }

  lemma CoveredSplit(a: seq<Range>, b: seq<Range>, id: int)
    ensures Covered(a + b, id) <==> Covered(a, id) || Covered(b, id)
  {
    forall r | r in a || r in b ensures r in a + b {}
  }

  /** One round of the merge: the next range is folded into the last merged one, or put behind it. */
  function MergeInto(merged: seq<Range>, next: Range): seq<Range>
    requires merged != []
  {
    var last := merged[|merged| - 1];
    if next.start <= Successor(last.end)
    then merged[|merged| - 1 := Range(last.start, if next.end > last.end then next.end else last.end)]
    else merged + [next]
  }

  function Merged(ranges: seq<Range>): (m: seq<Range>)
    ensures |m| <= |ranges| && (ranges != [] ==> m != [])
  {
    if |ranges| < 2 then ranges
    else MergeInto(Merged(ranges[..|ranges| - 1]), ranges[|ranges| - 1])
  }

  lemma MergeIntoCovers(merged: seq<Range>, next: Range, id: int)
    requires merged != [] && AllProper(merged) && Proper(next) && merged[|merged| - 1].start <= next.start
    ensures Covered(MergeInto(merged, next), id) <==> Covered(merged, id) || Contains(next, id)
  {
    var front, last := merged[..|merged| - 1], merged[|merged| - 1];
    assert merged == front + [last] && last in merged && last in [last] && next in [next];
    if next.start <= last.end + 1 {
      var wide := Range(last.start, if next.end > last.end then next.end else last.end);
      assert MergeInto(merged, next) == front + [wide] && wide in [wide];
      CoveredSplit(front, [wide], id);
      CoveredSplit(front, [last], id);
    } else {
      CoveredSplit(merged, [next], id);
    }
  }

  lemma MergeIntoSeparates(merged: seq<Range>, next: Range)
    requires merged != [] && AllProper(merged) && Separated(merged)
    requires Proper(next) && merged[|merged| - 1].start <= next.start
    ensures var m := MergeInto(merged, next);
      AllProper(m) && Separated(m) && m[|m| - 1].start <= next.start
  {
    assert merged[|merged| - 1] in merged;
  }

  lemma CoveredSnoc(before: seq<Range>, next: Range, id: int)
    ensures Covered(before + [next], id) <==> Covered(before, id) || next.start <= id <= next.end
  {
    CoveredSplit(before, [next], id);
    assert next in [next];
  }

  /** Merging start-sorted ranges separates them and covers the same numbers; no end overflows on the way. */
  lemma {:induction false} MergedIsRight(ranges: seq<Range>)
    requires AllProper(ranges) && SortedByStart(ranges)
    ensures AllProper(Merged(ranges)) && Separated(Merged(ranges))
    ensures forall id: int :: Covered(Merged(ranges), id) <==> Covered(ranges, id)
    ensures var m := Merged(ranges); m != [] ==> m[|m| - 1].start <= ranges[|ranges| - 1].start
  {
    if |ranges| >= 2 {
      var before, next := ranges[..|ranges| - 1], ranges[|ranges| - 1];
      assert next in ranges && ranges == before + [next];
      assert before[|before| - 1].start <= next.start;
      MergedIsRight(before);
      MergeIntoSeparates(Merged(before), next);
      forall id: int ensures Covered(Merged(ranges), id) <==> Covered(ranges, id) {
        MergeIntoCovers(Merged(before), next, id);
        CoveredSnoc(before, next, id);
      }
    }
  }

  /** Merges one range into the `n` merged ones at the front of the array. */
  method MergeNext(a: array<Range>, n: nat, next: Range) returns (m: nat)
    requires 1 <= n < a.Length
    modifies a
    ensures n <= m <= n + 1 && a[..m] == MergeInto(old(a[..n]), next)
    ensures a[n + 1..] == old(a[n + 1..])
  {
    m := n;
    if next.start <= Successor(a[n - 1].end) {
      if next.end > a[n - 1].end {
        a[n - 1] := Range(a[n - 1].start, next.end);
      }
    } else {
      a[n] := next;
      m := n + 1;
    }
  }

  lemma MergedOneMore(ranges: seq<Range>, i: nat)
    requires 1 <= i < |ranges|
    ensures Merged(ranges[..i]) != [] && Merged(ranges[..i + 1]) == MergeInto(Merged(ranges[..i]), ranges[i])
  {
    assert ranges[..i + 1][..i] == ranges[..i];
  }

  /** Merges in place: the array's front becomes the result while its rest is still being read. */
  method MergeRanges(a: array<Range>) returns (n: nat)
    modifies a
    ensures n <= a.Length && a[..n] == Merged(old(a[..]))
  {
    ghost var was := a[..];
    if a.Length < 2 { return a.Length; }
    n := 1;
    for i := 1 to a.Length
      invariant 1 <= n <= i && a[i..] == was[i..] && a[..n] == Merged(was[..i])
    {
      assert a[i] == a[i..][0] == was[i];
      MergedOneMore(was, i);
      ghost var k := i + 1 - (n + 1);
      assert a[n + 1..][k..] == was[i + 1..];
      ghost var from := n + 1;
      n := MergeNext(a, n, a[i]);
      assert a[i + 1..] == a[from..][k..];
    }
    assert was[..a.Length] == was;
  }

  /** Among separated ranges only the first one ending at or behind a number can contain it. */
  lemma FirstBehind(ranges: seq<Range>, i: nat, id: Word)
    requires AllProper(ranges) && Separated(ranges) && i <= |ranges|
    requires (i > 0 ==> ranges[i - 1].end < id) && (i < |ranges| ==> id <= ranges[i].end)
    ensures Covered(ranges, id) <==> i < |ranges| && ranges[i].start <= id
  {
    forall k | 0 <= k < i ensures ranges[k].end < id {
      if k < i - 1 { assert ranges[k].end + 1 < ranges[i - 1].start && ranges[i - 1] in ranges; }
    }
    forall k | i < k < |ranges| ensures id < ranges[k].start {
      assert ranges[i].end + 1 < ranges[k].start;
    }
    if i < |ranges| && ranges[i].start <= id { assert Contains(ranges[i], id); }
  }

  /** Binary search for the first range ending at or behind `id`. */
  method IsShadowed(ranges: seq<Range>, id: Word) returns (yes: bool)
    requires AllProper(ranges) && Separated(ranges)
    ensures yes <==> Covered(ranges, id)
  {
    var low, high := 0, |ranges|;
    while low < high
      invariant low <= high <= |ranges|
      invariant low > 0 ==> ranges[low - 1].end < id
      invariant high < |ranges| ==> id <= ranges[high].end
    {
      var mid := (low + high) / 2;
      if ranges[mid].end < id {
        low := mid + 1;
      } else {
        high := mid;
      }
    }
    FirstBehind(ranges, low, id);
    yes := low < |ranges| && ranges[low].start <= id;
  }

  // ---------- The estimate ----------

  function Insert(r: Range, sorted: seq<Range>): (s: seq<Range>)
    ensures |s| == |sorted| + 1 && forall x :: x in s <==> x in sorted || x == r
  {
    if sorted == [] || r.start <= sorted[0].start then [r] + sorted
    else
      assert sorted == [sorted[0]] + sorted[1..];
      [sorted[0]] + Insert(r, sorted[1..])
  }

  lemma {:induction false} InsertKeepsOrder(r: Range, sorted: seq<Range>)
    requires SortedByStart(sorted)
    ensures SortedByStart(Insert(r, sorted))
  {
    if sorted != [] && r.start > sorted[0].start {
      InsertKeepsOrder(r, sorted[1..]);
      var rest := Insert(r, sorted[1..]);
      forall j | 0 <= j < |rest| ensures sorted[0].start <= rest[j].start {
        assert rest[j] in rest;
      }
    }
  }

  /** Stands for the library sort; the order of equal starts does not matter below. */
  function SortByStart(ranges: seq<Range>): (s: seq<Range>)
    ensures |s| == |ranges| && SortedByStart(s) && forall x :: x in s <==> x in ranges
  {
    if ranges == [] then []
    else
      assert ranges == [ranges[0]] + ranges[1..];
      var rest := SortByStart(ranges[1..]);
      InsertKeepsOrder(ranges[0], rest);
      Insert(ranges[0], rest)
  }

  method Replacements(events: seq<Event>) returns (ranges: seq<Range>)
    ensures AllProper(ranges)
    ensures forall id: Word :: Covered(ranges, id) <==> Shadowed(events, id)
  {
    ranges := [];
    for i := 0 to |events|
      invariant AllProper(ranges)
      invariant forall id: Word :: Covered(ranges, id) <==> Shadowed(events[..i], id)
    {
      var e := events[i];
      assert events[..i + 1] == events[..i] + [e];
      if e.userMessage && e.op.Some? && e.op.value.op == "replace" && e.op.value.start >= 0 && e.op.value.end >= e.op.value.start {
        var next := Range(e.op.value.start, e.op.value.end);
        forall id: Word ensures Covered(ranges + [next], id) <==> Shadowed(events[..i + 1], id) {
          CoveredSplit(ranges, [next], id);
          assert next in [next];
        }
        ranges := ranges + [next];
      }
    }
    assert events[..|events|] == events;
  }

  /** The fast estimate is the sum over the events that no replacement shadows. */
  method Estimate(events: seq<Event>) returns (total: nat)
    ensures total == VisibleTokens(events, events)
    ensures total == AllTokens(events) - AllTokens(Hidden(events, events))
  {
    var ranges := Replacements(events);
    var sorted := SortByStart(ranges);
    var a := new Range[|sorted|](i requires 0 <= i < |sorted| => sorted[i]);
    assert a[..] == sorted;
    var n := MergeRanges(a);
    MergedIsRight(sorted);
    total := 0;
    for i := 0 to |events|
      invariant total == VisibleTokens(events, events[..i])
      invariant AllProper(a[..n]) && Separated(a[..n])
      invariant forall id: Word :: Covered(a[..n], id) <==> Shadowed(events, id)
    {
      assert events[..i + 1][..i] == events[..i];
      var shadowed := IsShadowed(a[..n], events[i].id);
      if !shadowed { total := total + events[i].tokens; }
    }
    assert events[..|events|] == events;
    TokensAreConserved(events, events);
  }
}
