/**
 The Agent scope tree (internal/agent/scope.go): scopes hold capabilities, child
 scopes and disposers, and closing a scope disposes its whole subtree.

 The value view of a subtree is a `Tree`; `Disposal` is the sequence of disposers
 that closing it runs.  `Scope.Close` is proved to run exactly that sequence.
 */
module ScopeTree {
  import opened Common

  /** A registered disposer: its identity and the error it returns, if any. */
  datatype Cleanup = Cleanup(id: nat, failure: Option<string>)

  /** What closing a scope can still dispose: nothing once it is closed. */
  datatype Tree = Closed | Open(own: seq<Cleanup>, kids: seq<Tree>)

  // ---------- The disposal order, on values ----------

  function Reverse<T>(s: seq<T>): (r: seq<T>)
    ensures |r| == |s|
    ensures forall k :: 0 <= k < |s| ==> r[k] == s[|s| - 1 - k]
  {
    if s == [] then [] else Reverse(s[1..]) + [s[0]]
  }

  function Disposal(t: Tree): seq<Cleanup> {
    match t
    case Closed => []
    case Open(own, kids) => DisposalOf(kids) + Reverse(own)
  }

  function DisposalOf(kids: seq<Tree>): seq<Cleanup> {
    if kids == [] then [] else Disposal(kids[0]) + DisposalOf(kids[1..])
  }

  function FirstFailure(ran: seq<Cleanup>): (r: Option<string>) {
    if ran == [] then None
    else if ran[0].failure.Some? then ran[0].failure
    else FirstFailure(ran[1..])
  }

  lemma {:induction false} FirstFailureSnoc(ran: seq<Cleanup>, more: seq<Cleanup>)
    ensures FirstFailure(ran + more)
         == if FirstFailure(ran).Some? then FirstFailure(ran) else FirstFailure(more)
  {
    if ran == [] {
      assert ran + more == more;
    } else {
      assert (ran + more)[1..] == ran[1..] + more;
      FirstFailureSnoc(ran[1..], more);
    }
  }

  /** The error a close returns belongs to the earliest failing disposer. */
  lemma {:induction false} FirstFailureIsFirst(ran: seq<Cleanup>)
    ensures FirstFailure(ran).None? <==> forall k :: 0 <= k < |ran| ==> ran[k].failure.None?
    ensures FirstFailure(ran).Some? ==>
      exists k :: 0 <= k < |ran| && ran[k].failure == FirstFailure(ran)
               && forall j :: 0 <= j < k ==> ran[j].failure.None?
  {
    if ran != [] {
      FirstFailureIsFirst(ran[1..]);
      if ran[0].failure.None? && FirstFailure(ran[1..]).Some? {
        var k :| 0 <= k < |ran[1..]| && ran[1..][k].failure == FirstFailure(ran[1..])
              && forall j :: 0 <= j < k ==> ran[1..][j].failure.None?;
        assert ran[k + 1] == ran[1..][k];
        assert forall j :: 0 < j < k + 1 ==> ran[j] == ran[1..][j - 1];
      }
    }
  }

  lemma {:induction false} DisposalSplit(a: seq<Tree>, b: seq<Tree>)
    ensures DisposalOf(a + b) == DisposalOf(a) + DisposalOf(b)
  {
    if a == [] {
      assert a + b == b;
    } else {
      assert (a + b)[1..] == a[1..] + b;
      DisposalSplit(a[1..], b);
      Associates(Disposal(a[0]), DisposalOf(a[1..]), DisposalOf(b));
    }
  }

  lemma DisposalAtKid(kids: seq<Tree>, k: nat)
    requires k < |kids|
    ensures DisposalOf(kids) == DisposalOf(kids[..k]) + Disposal(kids[k]) + DisposalOf(kids[k + 1..])
    ensures DisposalOf(kids[..k + 1]) == DisposalOf(kids[..k]) + Disposal(kids[k])
  {
    var rest := kids[k..];
    assert kids == kids[..k] + rest && rest[1..] == kids[k + 1..] && rest[0] == kids[k];
    DisposalSplit(kids[..k], rest);
    assert kids[..k + 1] == kids[..k] + [kids[k]];
    DisposalSplit(kids[..k], [kids[k]]);
    DisposalOfOne(kids[k]);
    Associates(DisposalOf(kids[..k]), Disposal(kids[k]), DisposalOf(kids[k + 1..]));
  }

  lemma DisposalOfOne(t: Tree)
    ensures DisposalOf([t]) == Disposal(t)
  {
    assert [t][1..] == [];
  }

  lemma Associates<T>(a: seq<T>, b: seq<T>, c: seq<T>)
    ensures a + (b + c) == a + b + c
  {}

  // ---------- Which registration runs where ----------

  /** `path` leads down child lists to an open scope with an `i`-th registered disposer. */
  predicate Registered(t: Tree, path: seq<nat>, i: nat)
    decreases path
  {
    t.Open? &&
    if path == [] then i < |t.own|
    else path[0] < |t.kids| && Registered(t.kids[path[0]], path[1..], i)
  }

  function CleanupAt(t: Tree, path: seq<nat>, i: nat): Cleanup
    requires Registered(t, path, i)
    decreases path
  {
    if path == [] then t.own[i] else CleanupAt(t.kids[path[0]], path[1..], i)
  }

  function Position(t: Tree, path: seq<nat>, i: nat): nat
    requires Registered(t, path, i)
    decreases path
  {
    if path == [] then |DisposalOf(t.kids)| + (|t.own| - 1 - i)
    else |DisposalOf(t.kids[..path[0]])| + Position(t.kids[path[0]], path[1..], i)
  }

  /**
   The promised order: later registrations of one scope first, every descendant's
   disposers before the scope's own, and earlier children before later ones.
   */
  predicate RunsBefore(p: seq<nat>, i: nat, q: seq<nat>, j: nat)
    decreases p
  {
    if p == [] then q == [] && i > j
    else if q == [] then true
    else if p[0] != q[0] then p[0] < q[0]
    else RunsBefore(p[1..], i, q[1..], j)
  }

  lemma {:induction false} RunsBeforeIsTotal(p: seq<nat>, i: nat, q: seq<nat>, j: nat)
    ensures (p, i) == (q, j) || RunsBefore(p, i, q, j) || RunsBefore(q, j, p, i)
    decreases p
  {
    if p != [] && q != [] && p[0] == q[0] {
      RunsBeforeIsTotal(p[1..], i, q[1..], j);
      assert p == [p[0]] + p[1..] && q == [q[0]] + q[1..];
    }
  }

  /** Every registered disposer runs, at its own position. */
  lemma {:induction false} RegisteredRuns(t: Tree, path: seq<nat>, i: nat)
    requires Registered(t, path, i)
    ensures Position(t, path, i) < |Disposal(t)|
    ensures Disposal(t)[Position(t, path, i)] == CleanupAt(t, path, i)
    decreases path
  {
    if path != [] {
      RegisteredRuns(t.kids[path[0]], path[1..], i);
      DisposalAtKid(t.kids, path[0]);
    }
  }

  /** Positions follow the promised order; with `RunsBeforeIsTotal`, no two coincide. */
  lemma {:induction false} DisposalOrder(t: Tree, p: seq<nat>, i: nat, q: seq<nat>, j: nat)
    requires Registered(t, p, i) && Registered(t, q, j) && RunsBefore(p, i, q, j)
    ensures Position(t, p, i) < Position(t, q, j)
    decreases p
  {
    if p != [] {
      var kid := t.kids[p[0]];
      RegisteredRuns(kid, p[1..], i);
      DisposalAtKid(t.kids, p[0]);
      if q != [] {
        if p[0] == q[0] {
          DisposalOrder(kid, p[1..], i, q[1..], j);
        } else {
          var rest := t.kids[p[0] + 1..q[0]];
          assert t.kids[..q[0]] == t.kids[..p[0] + 1] + rest;
          DisposalSplit(t.kids[..p[0] + 1], rest);
        }
      }
    }
  }

  /** Nothing else runs: each position belongs to a registration. */
  lemma {:induction false} RanWasRegistered(t: Tree, k: nat) returns (path: seq<nat>, i: nat)
    requires k < |Disposal(t)|
    ensures Registered(t, path, i) && Position(t, path, i) == k
    decreases t
  {
    var below := |DisposalOf(t.kids)|;
    if k >= below {
      path, i := [], |t.own| - 1 - (k - below);
    } else {
      var c, k' := KidAt(t.kids, k);
      var rest;
      rest, i := RanWasRegistered(t.kids[c], k');
      path := [c] + rest;
      assert path[1..] == rest;
    }
  }

  lemma {:induction false} KidAt(kids: seq<Tree>, k: nat) returns (c: nat, k': nat)
    requires k < |DisposalOf(kids)|
    ensures c < |kids| && k' < |Disposal(kids[c])| && k == |DisposalOf(kids[..c])| + k'
    decreases kids
  {
    if k < |Disposal(kids[0])| {
      c, k' := 0, k;
    } else {
      var c1, k1 := KidAt(kids[1..], k - |Disposal(kids[0])|);
      c, k' := c1 + 1, k1;
      assert kids[..c] == [kids[0]] + kids[1..][..c1];
      DisposalSplit([kids[0]], kids[1..][..c1]);
      assert DisposalOf([kids[0]]) == Disposal(kids[0]) + DisposalOf([]);
    }
  }

  // ---------- The heap of scopes ----------

  /** `u` is `s` or lies below it.  Parents never change, so neither does this. */
  ghost predicate Under(u: Scope, s: Scope)
    decreases u.depth
  {
    u == s || (u.parent != null && u.parent.depth < u.depth && Under(u.parent, s))
  }

  ghost function Owned(scopes: set<Scope>, s: Scope): set<Scope> {
    set u | u in scopes && Under(u, s)
  }

  ghost function OwnedAll(scopes: set<Scope>, kids: seq<Scope>): set<Scope> {
    set u | u in scopes && exists c :: c in kids && Under(u, c)
  }

  /** The created scopes: each one's parent was created too, one level up. */
  ghost predicate Linked(scopes: set<Scope>, limit: nat) {
    forall u | u in scopes ::
      && u.depth < limit
      && (u.parent != null ==> u.parent in scopes && u.parent.depth + 1 == u.depth)
  }

  /** Child lists and parent links agree within `part`, and a closed scope is empty. */
  ghost predicate Valid(part: set<Scope>)
    reads part
  {
    && (forall u | u in part :: u.closed ==> u.children == [] && u.cleanup == [])
    && (forall u, c | u in part && c in u.children :: c in part && c.parent == u)
    && (forall u | u in part :: forall i, j | 0 <= i < j < |u.children| :: u.children[i] != u.children[j])
    && (forall u | u in part && u.parent != null && u.parent in part :: u.closed || u in u.parent.children)
  }

  lemma {:induction false} UnderTransitive(u: Scope, v: Scope, s: Scope)
    requires Under(u, v) && Under(v, s)
    ensures Under(u, s)
    decreases u.depth
  {
    if u != v { UnderTransitive(u.parent, v, s); }
  }

  lemma {:induction false} UnderIsDeeper(u: Scope, s: Scope)
    requires Under(u, s) && u != s
    ensures u.depth > s.depth
    decreases u.depth
  {
    if u.parent != s { UnderIsDeeper(u.parent, s); }
  }

  /** Subtrees of two children of one scope share nothing. */
  lemma {:induction false} SiblingsDisjoint(u: Scope, c: Scope, d: Scope)
    requires c.parent == d.parent && c.depth == d.depth && Under(u, c) && Under(u, d)
    ensures c == d
    decreases u.depth
  {
    if u == c {
      if u != d { UnderIsDeeper(u, d); }
    } else if u == d {
      UnderIsDeeper(u, c);
    } else {
      SiblingsDisjoint(u.parent, c, d);
    }
  }

  /** Below `s` means at `s` or below one of its children. */
  lemma {:induction false} TopChild(scopes: set<Scope>, limit: nat, u: Scope, s: Scope) returns (c: Scope)
    requires Linked(scopes, limit) && u in scopes && Under(u, s) && u != s
    ensures c in scopes && c.parent == s && Under(u, c)
    decreases u.depth
  {
    if u.parent == s { c := u; } else { c := TopChild(scopes, limit, u.parent, s); }
  }

  lemma ChildPart(scopes: set<Scope>, limit: nat, s: Scope, c: Scope)
    requires Linked(scopes, limit) && s in scopes && c in scopes && c.parent == s
    ensures Owned(scopes, c) <= Owned(scopes, s) && s !in Owned(scopes, c)
  {
    forall u | u in Owned(scopes, c) ensures u in Owned(scopes, s) {
      UnderTransitive(u, c, s);
    }
    if Under(s, c) { UnderIsDeeper(s, c); }
  }

  lemma ChildValid(scopes: set<Scope>, limit: nat, s: Scope, c: Scope)
    requires Linked(scopes, limit) && s in scopes && c in scopes && c.parent == s
    requires Valid(Owned(scopes, s))
    ensures Valid(Owned(scopes, c))
  {
    ChildPart(scopes, limit, s, c);
    forall u, d | u in Owned(scopes, c) && d in u.children ensures d in Owned(scopes, c) && d.parent == u {
      assert d in Owned(scopes, s) && d.parent == u;
      assert Under(u, c) && d.parent.depth < d.depth;
    }
  }

  lemma ChildParts(scopes: set<Scope>, limit: nat, s: Scope)
    requires Linked(scopes, limit) && s in scopes && Valid(Owned(scopes, s))
    ensures forall c | c in s.children ::
      && c in scopes && c.parent == s && c.depth == s.depth + 1
      && Owned(scopes, c) <= Owned(scopes, s) - {s} && Valid(Owned(scopes, c))
  {
    assert s in Owned(scopes, s);
    forall c | c in s.children
      ensures c in scopes && c.parent == s && c.depth == s.depth + 1
      ensures Owned(scopes, c) <= Owned(scopes, s) - {s} && Valid(Owned(scopes, c))
    {
      assert c in Owned(scopes, s);
      ChildPart(scopes, limit, s, c);
      ChildValid(scopes, limit, s, c);
    }
  }

  /** Below a closed scope everything is closed. */
  lemma {:induction false} ClosedBelow(scopes: set<Scope>, limit: nat, s: Scope, u: Scope)
    requires Linked(scopes, limit) && s in scopes && u in scopes && Under(u, s)
    requires Valid(Owned(scopes, s)) && s.closed
    ensures u.closed
    decreases u.depth
  {
    if u != s {
      ClosedBelow(scopes, limit, s, u.parent);
    }
  }

  /** Closed and holding nothing more to dispose. */
  ghost predicate Spent(u: Scope)
    reads u
  {
    u.closed && u.children == [] && u.cleanup == []
  }

  /** What is still open below `s` lies below its listed children. */
  lemma OpenBelow(scopes: set<Scope>, limit: nat, s: Scope)
    requires Linked(scopes, limit) && s in scopes && Valid(Owned(scopes, s))
    ensures forall u | u in Owned(scopes, s) && u != s :: Spent(u) || u in OwnedAll(scopes, s.children)
  {
    forall u | u in Owned(scopes, s) && u != s ensures Spent(u) || u in OwnedAll(scopes, s.children) {
      var c := TopChild(scopes, limit, u, s);
      if c !in s.children {
        ChildPart(scopes, limit, s, c);
        ChildValid(scopes, limit, s, c);
        assert c in Owned(scopes, s) && s in Owned(scopes, s);
        ClosedBelow(scopes, limit, c, u);
      }
    }
  }

  ghost function Snapshot(scopes: set<Scope>, limit: nat, s: Scope): Tree
    requires Linked(scopes, limit) && s in scopes && Valid(Owned(scopes, s))
    reads Owned(scopes, s)
    decreases limit - s.depth, 0, 0
  {
    if s.closed then Closed
    else
      ChildParts(scopes, limit, s);
      assert OwnedAll(scopes, s.children) <= Owned(scopes, s);
      Open(s.cleanup, Snapshots(scopes, limit, s.children, s.depth + 1))
  }

  ghost predicate KidsValid(scopes: set<Scope>, kids: seq<Scope>, depth: nat)
    reads OwnedAll(scopes, kids)
  {
    forall c | c in kids ::
      && c in scopes && c.depth == depth
      && (assert Owned(scopes, c) <= OwnedAll(scopes, kids); Valid(Owned(scopes, c)))
  }

  ghost function Snapshots(scopes: set<Scope>, limit: nat, kids: seq<Scope>, depth: nat): (ts: seq<Tree>)
    requires Linked(scopes, limit) && depth <= limit && KidsValid(scopes, kids, depth)
    reads OwnedAll(scopes, kids)
    ensures |ts| == |kids|
    ensures forall k | 0 <= k < |kids| :: ts[k] == Snapshot(scopes, limit, kids[k])
    decreases limit - depth, 1, |kids|
  {
    if kids == [] then []
    else
      assert kids[0] in kids && forall c | c in kids[1..] :: c in kids;
      [Snapshot(scopes, limit, kids[0])] + Snapshots(scopes, limit, kids[1..], depth)
  }

  /** `a` provides `key`, and no scope strictly between it and `s`, nor `s` itself, does. */
  ghost predicate NearestProvider(scopes: set<Scope>, s: Scope, key: string, a: Scope)
    reads scopes
  {
    && a in scopes && Under(s, a) && !a.closed && key in a.values
    && forall b | b in scopes && Under(s, b) && b.depth > a.depth :: key !in b.values
  }

  /** What an open scope's close relies on. */
  lemma OpenScope(scopes: set<Scope>, limit: nat, s: Scope)
    requires Linked(scopes, limit) && s in scopes && Valid(Owned(scopes, s)) && !s.closed
    ensures s.depth < limit && KidsValid(scopes, s.children, s.depth + 1)
    ensures s in Owned(scopes, s) && OwnedAll(scopes, s.children) <= Owned(scopes, s) - {s}
    ensures forall u | u in Owned(scopes, s) && u != s :: Spent(u) || u in OwnedAll(scopes, s.children)
    ensures forall i, j | 0 <= i < j < |s.children| :: s.children[i] != s.children[j] && s.children[i].parent == s.children[j].parent
    ensures Snapshot(scopes, limit, s) == Open(s.cleanup, Snapshots(scopes, limit, s.children, s.depth + 1))
  {
    ChildParts(scopes, limit, s);
    OpenBelow(scopes, limit, s);
  }

  /** A close leaves the forest sound, so that scopes can be created and closed in any order. */
  twostate lemma CloseKeepsForest(scopes: set<Scope>, limit: nat, s: Scope)
    requires Linked(scopes, limit) && s in scopes && old(Valid(scopes))
    requires forall u | u in Owned(scopes, s) :: Spent(u)
    requires forall u | u in scopes :: u in Owned(scopes, s) || unchanged(u)
    ensures Valid(scopes)
  {
    forall u, c | u in scopes && c in u.children ensures c in scopes && c.parent == u {
      assert u !in Owned(scopes, s);
    }
    forall u | u in scopes && u.parent != null && u.parent in scopes ensures u.closed || u in u.parent.children {
      if u !in Owned(scopes, s) && Under(u.parent, s) { assert false; }
    }
  }

  datatype Resolution = ScopeClosed | Absent | Found(value: int)

  class Scope {
    const parent: Scope?
    ghost const depth: nat
    var values: map<string, int>
    var cleanup: seq<Cleanup>
    var children: seq<Scope>
    var closed: bool

    /** Creates a child scope; below a closed parent the new scope is born closed and unlisted. */
    constructor (parent: Scope?, ghost scopes: set<Scope>, ghost limit: nat)
      requires Linked(scopes, limit) && Valid(scopes)
      requires parent != null ==> parent in scopes && parent.depth + 1 < limit
      requires limit > 0
      modifies if parent == null then {} else {parent}
      ensures this !in scopes && Linked(scopes + {this}, limit) && Valid(scopes + {this})
      ensures this.parent == parent && values == map[] && cleanup == [] && children == []
      ensures closed == (parent != null && old(parent.closed))
      ensures parent != null ==>
        && parent.children == old(parent.children) + (if closed then [] else [this])
        && parent.closed == old(parent.closed) && parent.cleanup == old(parent.cleanup) && parent.values == old(parent.values)
    {
      this.parent := parent;
      depth := if parent == null then 0 else parent.depth + 1;
      values, cleanup, children, closed := map[], [], [], false;
      new;
      if parent != null {
        if parent.closed {
          closed := true;
        } else {
          parent.children := parent.children + [this];
        }
      }
    }

    /** Registers a disposer, to run before every disposer registered so far. */
    method AddCleanup(c: Cleanup, ghost scopes: set<Scope>) returns (ok: bool)
      requires this in scopes && Valid(scopes)
      modifies this`cleanup
      ensures ok == !closed && cleanup == (if closed then old(cleanup) else old(cleanup) + [c])
      ensures Valid(scopes)
    {
      if closed { return false; }
      cleanup := cleanup + [c];
      ok := true;
    }

    /** Registers a capability under a key that this scope does not provide yet. */
    method Provide(key: string, value: int, ghost scopes: set<Scope>) returns (ok: bool)
      requires this in scopes && Valid(scopes)
      modifies this`values
      ensures ok == (key != "" && !closed && key !in old(values))
      ensures values == if ok then old(values)[key := value] else old(values)
      ensures Valid(scopes)
    {
      if key == "" || closed || key in values { return false; }
      values := values[key := value];
      ok := true;
    }

    /** Finds the capability of the nearest scope above that provides the key. */
    method Resolve(key: string, ghost scopes: set<Scope>, ghost limit: nat) returns (r: Resolution)
      requires Linked(scopes, limit) && this in scopes && Valid(scopes)
      ensures r == ScopeClosed <==> closed
      ensures r.Found? ==> exists a :: NearestProvider(scopes, this, key, a) && a.values[key] == r.value
      ensures r == Absent ==> forall a | a in scopes && Under(this, a) :: key !in a.values
      decreases depth
    {
      if closed { return ScopeClosed; }
      if key in values {
        forall b | b in scopes && Under(this, b) ensures b.depth <= depth { if b != this { UnderIsDeeper(this, b); } }
        assert Under(this, this);
        assert NearestProvider(scopes, this, key, this);
        return Found(values[key]);
      }
      if parent != null {
        r := parent.Resolve(key, scopes, limit);
        assert forall a | Under(parent, a) :: Under(this, a);
      } else {
        r := Absent;
      }
    }

    /** Disposes the subtree once: children first, then the own disposers, last registered first. */
    method Close(ghost scopes: set<Scope>, ghost limit: nat) returns (first: Option<string>, ran: seq<Cleanup>)
      requires Linked(scopes, limit) && this in scopes && Valid(Owned(scopes, this))
      modifies Owned(scopes, this)
      ensures forall u | u in Owned(scopes, this) :: Spent(u)
      ensures ran == Disposal(old(Snapshot(scopes, limit, this)))
      ensures first == FirstFailure(ran)
      decreases limit - depth, 0
    {
      ghost var part := Owned(scopes, this);
      if closed {
        forall u | u in part ensures Spent(u) { ClosedBelow(scopes, limit, this, u); }
        return None, [];
      }
      ghost var trees;
      var cleanups, kids;
      cleanups, kids, trees := Seal(scopes, limit);
      first, ran := CloseKids(kids, scopes, limit, depth + 1, trees);
      first, ran := RunReversed(cleanups, first, ran);
    }

    /** The section of `Close` under the lock: the scope takes its lists and drops them. */
    method Seal(ghost scopes: set<Scope>, ghost limit: nat)
        returns (cleanups: seq<Cleanup>, kids: seq<Scope>, ghost trees: seq<Tree>)
      requires Linked(scopes, limit) && this in scopes && Valid(Owned(scopes, this)) && !closed
      modifies this
      ensures Spent(this) && values == map[]
      ensures depth < limit && cleanups == old(cleanup) && kids == old(children)
      ensures KidsValid(scopes, kids, depth + 1) && trees == Snapshots(scopes, limit, kids, depth + 1)
      ensures old(Snapshot(scopes, limit, this)) == Open(cleanups, trees)
      ensures this in Owned(scopes, this) && OwnedAll(scopes, kids) <= Owned(scopes, this) - {this}
      ensures forall u | u in Owned(scopes, this) :: Spent(u) || u in OwnedAll(scopes, kids)
      ensures forall i, j | 0 <= i < j < |kids| :: kids[i] != kids[j] && kids[i].parent == kids[j].parent
    {
      OpenScope(scopes, limit, this);
      trees := Snapshots(scopes, limit, children, depth + 1);
      cleanups, kids := cleanup, children;
      closed, cleanup, children, values := true, [], [], map[];
    }
  }

  lemma SiblingPartsDisjoint(kids: seq<Scope>, scopes: set<Scope>, i: nat)
    requires i < |kids|
    requires forall j, k | 0 <= j < k < |kids| :: kids[j] != kids[k] && kids[j].parent == kids[k].parent && kids[j].depth == kids[k].depth
    ensures forall j | i < j < |kids| :: Owned(scopes, kids[j]) !! Owned(scopes, kids[i])
  {
    forall j, u | i < j < |kids| && u in Owned(scopes, kids[j]) ensures u !in Owned(scopes, kids[i]) {
      if Under(u, kids[i]) { SiblingsDisjoint(u, kids[i], kids[j]); }
    }
  }

  lemma OwnedAllSplit(scopes: set<Scope>, kids: seq<Scope>, i: nat)
    requires i < |kids|
    ensures OwnedAll(scopes, kids[..i + 1]) == OwnedAll(scopes, kids[..i]) + Owned(scopes, kids[i])
    ensures OwnedAll(scopes, kids[..i]) <= OwnedAll(scopes, kids)
  {
    assert kids[..i + 1] == kids[..i] + [kids[i]];
  }

  /** What one more child adds to the disposal, and to the error that stays. */
  lemma KidClosed(trees: seq<Tree>, i: nat, ran: seq<Cleanup>, r: seq<Cleanup>)
    requires i < |trees| && ran == DisposalOf(trees[..i]) && r == Disposal(trees[i])
    ensures ran + r == DisposalOf(trees[..i + 1])
    ensures FirstFailure(ran + r) == if FirstFailure(ran).None? then FirstFailure(r) else FirstFailure(ran)
  {
    DisposalAtKid(trees, i);
    FirstFailureSnoc(ran, r);
  }

  /** The children from the `i`-th on are as they were when their trees were taken. */
  ghost predicate Remaining(scopes: set<Scope>, limit: nat, kids: seq<Scope>, trees: seq<Tree>, i: nat)
    requires Linked(scopes, limit) && |trees| == |kids| && forall c | c in kids :: c in scopes
    reads OwnedAll(scopes, kids)
  {
    forall j | i <= j < |kids| ::
      && (assert kids[j] in kids && Owned(scopes, kids[j]) <= OwnedAll(scopes, kids); Valid(Owned(scopes, kids[j])))
      && Snapshot(scopes, limit, kids[j]) == trees[j]
  }

  /** Siblings: distinct children of one parent, all at one depth. */
  ghost predicate Siblings(kids: seq<Scope>, level: nat) {
    && (forall i, j | 0 <= i < j < |kids| :: kids[i] != kids[j] && kids[i].parent == kids[j].parent)
    && forall c | c in kids :: c.depth == level
  }

  /** Closes one child; its later siblings are not touched. */
  method CloseKid(kids: seq<Scope>, i: nat, ghost scopes: set<Scope>, ghost limit: nat, ghost level: nat, ghost trees: seq<Tree>)
      returns (err: Option<string>, r: seq<Cleanup>)
    requires Linked(scopes, limit) && level <= limit && |trees| == |kids| && i < |kids|
    requires (forall c | c in kids :: c in scopes) && Siblings(kids, level) && Remaining(scopes, limit, kids, trees, i)
    modifies Owned(scopes, kids[i])
    ensures forall u | u in Owned(scopes, kids[i]) :: Spent(u)
    ensures Remaining(scopes, limit, kids, trees, i + 1)
    ensures r == Disposal(trees[i]) && err == FirstFailure(r)
    decreases limit - level, 1
  {
    assert kids[i] in kids;
    SiblingPartsDisjoint(kids, scopes, i);
    err, r := kids[i].Close(scopes, limit);
  }

  /** The children loop of `Close`. */
  method CloseKids(kids: seq<Scope>, ghost scopes: set<Scope>, ghost limit: nat, ghost level: nat, ghost trees: seq<Tree>)
      returns (first: Option<string>, ran: seq<Cleanup>)
    requires Linked(scopes, limit) && level <= limit && KidsValid(scopes, kids, level)
    requires trees == Snapshots(scopes, limit, kids, level)
    requires forall i, j | 0 <= i < j < |kids| :: kids[i] != kids[j] && kids[i].parent == kids[j].parent
    modifies OwnedAll(scopes, kids)
    ensures forall u | u in OwnedAll(scopes, kids) :: Spent(u)
    ensures ran == DisposalOf(trees) && first == FirstFailure(ran)
    decreases limit - level, |kids| + 1
  {
    first, ran := None, [];
    for i := 0 to |kids|
      invariant Remaining(scopes, limit, kids, trees, i)
      invariant forall u | u in OwnedAll(scopes, kids[..i]) :: Spent(u)
      invariant ran == DisposalOf(trees[..i]) && first == FirstFailure(ran)
    {
      assert kids[i] in kids && Owned(scopes, kids[i]) <= OwnedAll(scopes, kids);
      OwnedAllSplit(scopes, kids, i);
      var err, r := CloseKid(kids, i, scopes, limit, level, trees);
      KidClosed(trees, i, ran, r);
      if first.None? { first := err; }
      ran := ran + r;
    }
    assert trees[..|kids|] == trees && kids[..|kids|] == kids;
  }

  /** The disposer loop of `Close`: last registered first, every one runs, the first error stays. */
  method RunReversed(cleanups: seq<Cleanup>, soFar: Option<string>, before: seq<Cleanup>)
      returns (first: Option<string>, ran: seq<Cleanup>)
    requires soFar == FirstFailure(before)
    ensures ran == before + Reverse(cleanups) && first == FirstFailure(ran)
  {
    first, ran := soFar, before;
    var i := |cleanups|;
    while i > 0
      invariant 0 <= i <= |cleanups|
      invariant ran == before + Reverse(cleanups)[..|cleanups| - i] && first == FirstFailure(ran)
    {
      i := i - 1;
      assert Reverse(cleanups)[..|cleanups| - i] == Reverse(cleanups)[..|cleanups| - i - 1] + [cleanups[i]];
      FirstFailureSnoc(ran, [cleanups[i]]);
      assert FirstFailure([cleanups[i]]) == cleanups[i].failure;
      if first.None? { first := cleanups[i].failure; }
      ran := ran + [cleanups[i]];
    }
    assert Reverse(cleanups)[..|cleanups|] == Reverse(cleanups);
  }
}
