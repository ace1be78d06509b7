/**
 The session that owns a team's board (cmd/sta/team.go): a walk up the durable lineage that
 stops at a root, at the first repeated id, or after 64 ids.
 */
module LineageRoot {
  import opened BoundedWalk
  import opened Common
  import opened TextTrim

  /** What the lineage store answers for a session: an error, or its parent field. */
  datatype Header = Missing | Found(parent: string)

  // ---------- One step ----------

  const TeamPrefix := "team:"

  function FirstColon(s: string): Option<nat> {
    if s == "" then None
    else if s[0] == ':' then Some(0)
    else if FirstColon(s[1..]).Some? then Some(FirstColon(s[1..]).value + 1)
    else None
  }

  lemma {:induction false} FirstColonIsFirst(s: string)
    ensures var cut := FirstColon(s);
      if cut.Some? then cut.value < |s| && s[cut.value] == ':' && ':' !in s[..cut.value] else ':' !in s
  {
    if s != "" && s[0] != ':' {
      FirstColonIsFirst(s[1..]);
      if FirstColon(s[1..]).Some? { assert s[..FirstColon(s).value] == [s[0]] + s[1..][..FirstColon(s[1..]).value]; }
      else { assert s == [s[0]] + s[1..]; }
    }
  }

  /** The parent in a name of the form team:<parent>:<member>. */
  function LegacyParent(id: string): Option<string> {
    if !(TeamPrefix <= id) then None
    else
      var cut := FirstColon(id[5..]);
      FirstColonIsFirst(id[5..]);
      if cut.None? || cut.value == 0 then None else Some(id[5..][..cut.value])
  }

  function NextOf(answer: Header, id: string): Option<string> {
    match answer
    case Missing => LegacyParent(id)
    case Found(parent) => if Trim(parent) == "" then None else Some(Trim(parent))
  }

  function Parent(header: string -> Header, id: string): Option<string> {
    NextOf(header(id), id)
  }

  /** The parent of each id; a root is its own. */
  ghost function Up(header: string -> Header): string -> string {
    id => if Parent(header, id).Some? then Parent(header, id).value else id
  }

  // ---------- The lookup ----------

  method WalkUp(header: string -> Header, id: string) returns (root: string)
    ensures root == Walk(Up(header), id)
  {
    ghost var up := Up(header);
    root := id;
    var seen: set<string> := {};
    ghost var n := 0;
    while |seen| < 64
      invariant n <= Bound && |seen| == n && seen == Seen(up, id, n) && Fresh(up, id, n)
      invariant root == Climb(up, id, n)
      decreases Bound - n
    {
      if root in seen {
        LengthStops(up, id, 0, n);
        return;
      }
      FreshGrows(up, id, n);
      seen := seen + {root};
      var parent := NextOf(header(root), root);
      if parent.None? {
        RootStands(up, id, n);
        return;
      }
      root := parent.value;
      n := n + 1;
    }
    LengthIsBound(up, id, 0);
  }

  /** The whole lookup; without a lineage store only the name tells the parent. */
  method RootSession(hasLineage: bool, header: string -> Header, sessionID: string) returns (root: string)
    ensures root == Root(hasLineage, header, sessionID)
  {
    var current := Trim(sessionID);
    if current == "" { return current; }
    if !hasLineage {
      var parent := LegacyParent(current);
      return if parent.Some? then parent.value else current;
    }
    root := WalkUp(header, current);
  }

  ghost function Root(hasLineage: bool, header: string -> Header, sessionID: string): string {
    var id := Trim(sessionID);
    if id == "" then id
    else if hasLineage then Walk(Up(header), id)
    else if LegacyParent(id).Some? then LegacyParent(id).value
    else id
  }

  // ---------- When the root is its own root ----------

  /** The parent that a generated name tells, if it tells one, has no outer space. */
  predicate TellsTrimmed(id: string) {
    LegacyParent(id).Some? ==> Trim(LegacyParent(id).value) == LegacyParent(id).value
  }

  lemma {:induction false} ClimbIsTrimmed(header: string -> Header, id: string, n: nat)
    requires Trim(id) == id
    requires forall i | 0 <= i < n :: header(Climb(Up(header), id, i)).Missing? ==> TellsTrimmed(Climb(Up(header), id, i))
    ensures Trim(Climb(Up(header), id, n)) == Climb(Up(header), id, n)
  {
    if n > 0 {
      ClimbIsTrimmed(header, id, n - 1);
      var before := Climb(Up(header), id, n - 1);
      if header(before).Found? { TrimIsIdempotent(header(before).parent); }
    }
  }

  /**
   The root of a root is itself, on any lineage with fewer than 64 ids above the session,
   cyclic or not, if the names of the headerless ones tell parents without outer space.
   */
  lemma RootIsIdempotent(header: string -> Header, sessionID: string, reachable: set<string>)
    requires |reachable| < Bound && forall n: nat :: Climb(Up(header), Trim(sessionID), n) in reachable
    requires forall id | id in reachable && header(id).Missing? :: TellsTrimmed(id)
    ensures var root := Root(true, header, sessionID); Root(true, header, root) == root
  {
    var id := Trim(sessionID);
    TrimIsIdempotent(sessionID);
    SmallLineageIsIdempotent(Up(header), id, reachable);
    var k: nat :| k < Bound && Walk(Up(header), id) == Climb(Up(header), id, k);
    ClimbIsTrimmed(header, id, k);
  }

  /** On a lineage of any length, a root without outer space is its own root exactly if it lies on a cycle of at most 64 ids. */
  lemma TrimmedRootStaysExactlyWhen(header: string -> Header, root: string)
    ensures Trim(root) == root ==> (Root(true, header, root) == root <==> root == "" || OnCycle(Up(header), root))
  {
    WalkStaysExactlyWhen(Up(header), root);
  }

  /**
   What happens to any root, also one with outer space: looked up again it is trimmed, and so
   stays exactly if it is the first id on a cycle that the climb from its trimmed form meets.
   */
  lemma RootStaysExactlyWhen(header: string -> Header, root: string, reachable: set<string>)
    requires |reachable| < Bound && forall n: nat :: Climb(Up(header), Trim(root), n) in reachable
    ensures Root(true, header, root) == root <==> root == "" || (Trim(root) != "" && FirstOnCycle(Up(header), Trim(root), root))
  {
    if Trim(root) == "" {
      assert root == "" ==> Trim(root) == "";
    } else {
      WalkArrivesExactlyAt(Up(header), Trim(root), reachable, root);
    }
  }

  /** A name of the form team:<parent>:<member>, the parent being the part up to the second colon. */
  predicate NamesParent(id: string, parent: string) {
    parent != "" && ':' !in parent && "team:" + parent + ":" <= id
  }

  lemma LegacyParentExactlyWhen(id: string, parent: string)
    ensures LegacyParent(id) == Some(parent) <==> NamesParent(id, parent)
  {
    if NamesParent(id, parent) {
      var front := "team:" + parent + ":";
      assert front[..5] == "team:" && front[5..] == parent + ":" && TeamPrefix <= id;
      var rest := id[|front|..];
      assert id == front + rest && id[5..] == parent + (":" + rest);
      ColonIsThere(parent, ":" + rest);
    }
    if LegacyParent(id) == Some(parent) {
      var rest := id[5..];
      FirstColonIsFirst(rest);
      assert parent == rest[..|parent|] && id[..5] == "team:";
      assert "team:" + parent + ":" == id[..5 + |parent| + 1];
    }
  }

  lemma {:induction false} ColonIsThere(parent: string, tail: string)
    requires ':' !in parent && tail != "" && tail[0] == ':'
    ensures FirstColon(parent + tail) == Some(|parent|)
  {
    if parent == "" {
      assert parent + tail == tail;
    } else {
      assert (parent + tail)[1..] == parent[1..] + tail;
      ColonIsThere(parent[1..], tail);
    }
  }

  /** The recorded parent, without outer space; or, where nothing is recorded, the one that the name tells. */
  ghost predicate IsChildOf(header: string -> Header, id: string, parent: string) {
    match header(id)
    case Found(recorded) => parent != "" && Trim(recorded) == parent
    case Missing => NamesParent(id, parent)
  }

  ghost predicate IsOrphan(header: string -> Header, id: string) {
    forall parent: string :: !IsChildOf(header, id, parent)
  }

  lemma UpExactlyWhen(header: string -> Header, id: string)
    ensures Parent(header, id).Some? ==> IsChildOf(header, id, Up(header)(id))
    ensures Parent(header, id).None? ==> Up(header)(id) == id && IsOrphan(header, id)
    ensures forall parent | IsChildOf(header, id, parent) :: Up(header)(id) == parent
  {
    if Parent(header, id).Some? { LegacyParentExactlyWhen(id, Parent(header, id).value); }
    forall parent ensures header(id).Missing? && IsChildOf(header, id, parent) ==> LegacyParent(id) == Some(parent) {
      LegacyParentExactlyWhen(id, parent);
    }
  }

  /**
   The lookup follows the lineage: along a chain of different ids, each the parent of the one
   before, it comes to the last one, if that has no parent and is among the first 64.
   */
  lemma LineageIsFollowed(header: string -> Header, sessionID: string, ids: seq<string>)
    requires 1 <= |ids| <= 64 && ids[0] == Trim(sessionID) != ""
    requires forall i, j | 0 <= i < j < |ids| :: ids[i] != ids[j]
    requires forall i | 0 <= i < |ids| - 1 :: IsChildOf(header, ids[i], ids[i + 1])
    requires IsOrphan(header, ids[|ids| - 1])
    ensures Root(true, header, sessionID) == ids[|ids| - 1]
  {
    var up, k := Up(header), |ids| - 1;
    forall i | 0 <= i < |ids| ensures Climb(up, ids[0], i) == ids[i] { ChainIsClimbed(header, ids, i); }
    UpExactlyWhen(header, ids[k]);
    RootStands(up, ids[0], k);
  }

  /** Of a longer chain it comes to the id after the first 64, whether or not that is the root. */
  lemma LongLineageIsCutOff(header: string -> Header, sessionID: string, ids: seq<string>)
    requires |ids| == 65 && ids[0] == Trim(sessionID) != ""
    requires forall i, j | 0 <= i < j < 64 :: ids[i] != ids[j]
    requires forall i | 0 <= i < 64 :: IsChildOf(header, ids[i], ids[i + 1])
    ensures Root(true, header, sessionID) == ids[64]
  {
    var up := Up(header);
    forall i | 0 <= i < |ids| ensures Climb(up, ids[0], i) == ids[i] { ChainIsClimbed(header, ids, i); }
    LengthIsBound(up, ids[0], 0);
  }

  lemma {:induction false} ChainIsClimbed(header: string -> Header, ids: seq<string>, i: nat)
    requires i < |ids| && forall k | 0 <= k < |ids| - 1 :: IsChildOf(header, ids[k], ids[k + 1])
    ensures Climb(Up(header), ids[0], i) == ids[i]
  {
    if i > 0 {
      ChainIsClimbed(header, ids, i - 1);
      UpExactlyWhen(header, ids[i - 1]);
    }
  }

  /** A parent told by the name has no parent in its own name, with or without its outer space. */
  lemma LegacyParentIsARoot(id: string)
    requires LegacyParent(id).Some?
    ensures LegacyParent(LegacyParent(id).value).None? && LegacyParent(Trim(LegacyParent(id).value)).None?
  {
    FirstColonIsFirst(id[5..]);
    var parent := LegacyParent(id).value;
    NoColonNoParent(parent);
    TrimIsInside(parent);
    NoColonNoParent(Trim(parent));
  }

  lemma NoColonNoParent(id: string)
    requires ':' !in id
    ensures LegacyParent(id).None?
  {
    assert |id| > 4 ==> id[4] != ':';
    assert TeamPrefix[4] == ':';
  }

  /**
   Without a lineage store the root of a root is itself exactly if the name tells no parent,
   or one without outer space.
   */
  lemma RootByNameIsIdempotentExactlyWhen(header: string -> Header, sessionID: string)
    ensures var root := Root(false, header, sessionID);
      Root(false, header, root) == root <==> TellsTrimmed(Trim(sessionID))
  {
    var id := Trim(sessionID);
    TrimIsIdempotent(sessionID);
    if id != "" && LegacyParent(id).Some? { LegacyParentIsARoot(id); }
  }

  /**
   A spaced parent told by a name and standing for itself is kept exactly if the climb from
   its trimmed form comes back to it.
   */
  lemma SpacedRootStaysExactlyWhen(header: string -> Header, root: string, reachable: set<string>)
    requires Trim(root) != "" && Parent(header, root).None?
    requires |reachable| < Bound && forall n: nat :: Climb(Up(header), Trim(root), n) in reachable
    ensures Root(true, header, root) == root <==> exists n: nat :: Climb(Up(header), Trim(root), n) == root
  {
    RootStaysExactlyWhen(header, root, reachable);
    var up, id := Up(header), Trim(root);
    if exists n: nat :: Climb(up, id, n) == root {
      var n: nat :| Climb(up, id, n) == root;
      assert Climb(up, root, 1) == up(Climb(up, root, 0)) == root;
      FixpointIsFirst(up, id, root, n);
    }
  }

  lemma SpacedName()
    ensures LegacyParent("team: a:m") == Some(" a") && LegacyParent(" a") == None && LegacyParent("a") == None
  {
    var id := "team: a:m";
    assert id[5..] == " a:m" && " a:m"[1..] == "a:m" && "a:m"[1..] == ":m" && id[5..][..2] == " a";
    assert FirstColon(":m") == Some(0) && FirstColon("a:m") == Some(1) && FirstColon(" a:m") == Some(2);
  }

  lemma SpacedNameTrims()
    ensures Trim("team: a:m") == "team: a:m" && Trim(" a") == "a" && Trim("a") == "a"
  {
    TrimLeftStarts("team: a:m");
    assert " a"[1..] == "a" && TrimLeft("a") == "a" && TrimLeft(" a") == "a";
  }

  /** The parent in a name is not trimmed, so that the lookup is not idempotent for every name. */
  lemma SpacedNameMoves(header: string -> Header)
    requires header("team: a:m") == header(" a") == header("a") == Missing
    ensures Root(true, header, "team: a:m") == " a" && Root(true, header, " a") == "a"
  {
    SpacedName();
    SpacedNameTrims();
    var up := Up(header);
    assert Climb(up, "team: a:m", 0) == "team: a:m" && Climb(up, "team: a:m", 1) == " a";
    RootStands(up, "team: a:m", 1);
    RootStands(up, "a", 0);
  }
}
