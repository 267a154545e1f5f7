/** The plan in terms of ranks: which deletions it holds, and in what order. */
module GcRank {
  import opened Prelude
  import opened Ids
  import opened Model
  import opened Gc

  /** The order of a group: newest first, ties by id. */
  predicate Precedes(a: Snapshot, b: Snapshot) {
    a.createdAt > b.createdAt || (a.createdAt == b.createdAt && Before(a.id, b.id))
  }

  /** The snapshots of the same source that come before `s`. */
  ghost function Ahead(m: Metadata, s: Id): set<Id>
    requires s in m.snapshots
  {
    set t | t in m.snapshots && m.snapshots[t].source == m.snapshots[s].source && Precedes(m.snapshots[t], m.snapshots[s])
  }

  ghost function Rank(m: Metadata, s: Id): nat
    requires s in m.snapshots
  {
    |Ahead(m, s)|
  }

  /** The workspaces the planner is meant to delete: deleted, and unused for long enough. */
  ghost predicate Expired(w: Workspace, now: Time, policy: GcPolicy) {
    w.state == Deleted && (policy.after == 0 || now - w.lastAccessed >= policy.after)
  }

  /** The snapshots the planner is meant to delete. */
  ghost predicate Doomed(m: Metadata, s: Id, policy: GcPolicy) {
    s in m.snapshots && !IsParent(m, s) && Rank(m, s) >= policy.retain
  }

  // ---- The stable sort ----

  ghost predicate Sorted(s: seq<Snapshot>) {
    forall i, j | 0 <= i < j < |s| :: Precedes(s[i], s[j])
  }

  lemma {:induction false} InsertSorts(s: Snapshot, sorted: seq<Snapshot>)
    requires Sorted(sorted) && forall t | t in sorted :: Before(s.id, t.id)
    ensures Sorted(Insert(s, sorted))
    ensures forall t :: t in Insert(s, sorted) <==> t == s || t in sorted
  {
    var r := Insert(s, sorted);
    if sorted == [] || sorted[0].createdAt <= s.createdAt {
      assert r == [s] + sorted;
      assert forall t | t in sorted :: t.createdAt <= s.createdAt;
    } else {
      InsertSorts(s, sorted[1..]);
      var tail := Insert(s, sorted[1..]);
      assert sorted == [sorted[0]] + sorted[1..];
      assert forall t | t in tail :: Precedes(sorted[0], t);
      assert r == [sorted[0]] + tail;
    }
  }

  lemma {:induction false} NewestFirstSorts(s: seq<Snapshot>)
    requires forall i, j | 0 <= i < j < |s| :: Before(s[i].id, s[j].id)
    ensures Sorted(NewestFirst(s))
    ensures forall t :: t in NewestFirst(s) <==> t in s
  {
    if s != [] {
      NewestFirstSorts(s[1..]);
      InsertSorts(s[0], NewestFirst(s[1..]));
      assert s == [s[0]] + s[1..];
    }
  }

  // ---- A group is sorted and complete ----

  lemma {:induction false} TakenFromMembers(m: Metadata, keys: seq<Id>, n: nat, source: Id)
    requires n <= |keys| && forall i | 0 <= i < n :: keys[i] in m.snapshots
    requires WellKeyed(m) && Ascending(keys)
    ensures var g := TakenFrom(m, keys, n, source);
      && (forall i, j | 0 <= i < j < |g| :: Before(g[i].id, g[j].id))
      && (forall t :: t in g <==> t.id in keys[..n] && t == m.snapshots[t.id] && t.source == source)
  {
    hide Before;
    if n > 0 {
      TakenFromMembers(m, keys, n - 1, source);
      assert keys[..n] == keys[..n - 1] + [keys[n - 1]];
    }
  }

  lemma RankedIsSorted(m: Metadata, source: Id)
    requires WellKeyed(m)
    ensures Sorted(Ranked(m, source))
    ensures forall t :: t in Ranked(m, source) <==> t.id in m.snapshots && t == m.snapshots[t.id] && t.source == source
  {
    var keys := SnapshotKeys(m);
    TakenFromMembers(m, keys, |keys|, source);
    assert keys[..|keys|] == keys;
    NewestFirstSorts(TakenFrom(m, keys, |keys|, source));
  }

  lemma PrecedesIsStrict(a: Snapshot, b: Snapshot)
    ensures !(Precedes(a, b) && Precedes(b, a)) && !Precedes(a, a)
  {
    BeforeIsTotal(a.id, b.id);
    BeforeIsTotal(a.id, a.id);
  }

  ghost function IdsOf(s: seq<Snapshot>): set<Id> {
    set t | t in s :: t.id
  }

  lemma {:induction false} DistinctIds(s: seq<Snapshot>)
    requires forall i, j | 0 <= i < j < |s| :: s[i].id != s[j].id
    ensures |IdsOf(s)| == |s|
  {
    if s != [] {
      var p := s[..|s| - 1];
      DistinctIds(p);
      assert s == p + [s[|s| - 1]];
      assert IdsOf(s) == IdsOf(p) + {s[|s| - 1].id};
    }
  }

  lemma AheadIsPrefix(m: Metadata, source: Id, i: nat, t: Id)
    requires WellKeyed(m) && i < |Ranked(m, source)|
    requires Ranked(m, source)[i].id in m.snapshots && m.snapshots[Ranked(m, source)[i].id] == Ranked(m, source)[i]
    ensures t in IdsOf(Ranked(m, source)[..i]) <==> t in Ahead(m, Ranked(m, source)[i].id)
  {
    var g := Ranked(m, source);
    RankedIsSorted(m, source);
    assert g[i] in g;
    if t in IdsOf(g[..i]) {
      var j :| 0 <= j < i && g[j].id == t;
      assert g[j] in g;
    } else if t in Ahead(m, g[i].id) {
      assert m.snapshots[t] in g;
      var j :| 0 <= j < |g| && g[j] == m.snapshots[t];
      PrecedesIsStrict(g[i], g[j]);
    }
  }

  /** The rank of a snapshot is its index in its group. */
  lemma IndexIsRank(m: Metadata, source: Id, i: nat)
    requires WellKeyed(m) && i < |Ranked(m, source)|
    ensures var s := Ranked(m, source)[i]; s.id in m.snapshots && s == m.snapshots[s.id] && s.source == source && Rank(m, s.id) == i
  {
    var g := Ranked(m, source);
    RankedIsSorted(m, source);
    assert g[i] in g;
    SortedIsDistinct(m, source);
    DistinctIds(g[..i]);
    forall t ensures t in IdsOf(g[..i]) <==> t in Ahead(m, g[i].id) {
      AheadIsPrefix(m, source, i, t);
    }
    assert IdsOf(g[..i]) == Ahead(m, g[i].id);
  }

  lemma SortedIsDistinct(m: Metadata, source: Id)
    requires WellKeyed(m)
    ensures var g := Ranked(m, source); forall j, k | 0 <= j < k < |g| :: g[j].id != g[k].id
  {
    var g := Ranked(m, source);
    RankedIsSorted(m, source);
    forall j, k | 0 <= j < k < |g| ensures g[j].id != g[k].id {
      assert g[j] in g && g[k] in g;
      PrecedesIsStrict(g[j], g[k]);
    }
  }

  // ---- What the plan holds ----

  ghost predicate NoDuplicates<T>(s: seq<T>) {
    forall i, j | 0 <= i < j < |s| :: s[i] != s[j]
  }

  /**
   * The order of a plan: workspaces by id, then snapshots by source and, within a source, newest
   * first with ties by id.
   */
  ghost predicate Follows(m: Metadata, a: GcAction, b: GcAction) {
    match (a, b)
    case (DeleteWorkspace(v), DeleteWorkspace(w)) => Before(v, w)
    case (DeleteWorkspace(_), DeleteSnapshot(_)) => true
    case (DeleteSnapshot(_), DeleteWorkspace(_)) => false
    case (DeleteSnapshot(s), DeleteSnapshot(t)) =>
      && s in m.snapshots && t in m.snapshots
      && var x, y := m.snapshots[s], m.snapshots[t];
        Before(x.source, y.source) || (x.source == y.source && Precedes(x, y))
  }

  ghost predicate InOrder(m: Metadata, s: seq<GcAction>) {
    forall i, j | 0 <= i < j < |s| :: Follows(m, s[i], s[j])
  }

  lemma FollowsIsStrict(m: Metadata, a: GcAction)
    ensures !Follows(m, a, a)
  {
    match a
    case DeleteWorkspace(w) => BeforeIsTotal(w, w);
    case DeleteSnapshot(s) =>
      if s in m.snapshots {
        BeforeIsTotal(m.snapshots[s].source, m.snapshots[s].source);
        PrecedesIsStrict(m.snapshots[s], m.snapshots[s]);
      }
  }

  lemma ConcatenationIsInOrder(m: Metadata, a: seq<GcAction>, b: seq<GcAction>)
    requires InOrder(m, a) && InOrder(m, b) && forall x, y | x in a && y in b :: Follows(m, x, y)
    ensures InOrder(m, a + b)
  {
    hide Follows;
    forall i, j | 0 <= i < j < |a + b| ensures Follows(m, (a + b)[i], (a + b)[j]) {
      assert i < |a| ==> (a + b)[i] in a;
      assert j >= |a| ==> (a + b)[j] in b;
    }
  }

  lemma {:induction false} WorkspaceActionsMeaning(m: Metadata, keys: seq<Id>, n: nat, now: Time, policy: GcPolicy)
    requires n <= |keys| && (forall i | 0 <= i < n :: keys[i] in m.workspaces) && WellKeyed(m) && Ascending(keys)
    ensures var a := WorkspaceActions(m, keys, n, now, policy);
      && InOrder(m, a)
      && (forall x :: x in a <==> x.DeleteWorkspace? && x.workspace in keys[..n] && Expired(m.workspaces[x.workspace], now, policy))
  {
    hide Before;
    if n > 0 {
      WorkspaceActionsMeaning(m, keys, n - 1, now, policy);
      assert keys[..n] == keys[..n - 1] + [keys[n - 1]];
    }
  }

  /** A group, as it is sorted and filed. */
  ghost predicate IsGroup(m: Metadata, s: seq<Snapshot>, source: Id) {
    && Sorted(s)
    && forall i | 0 <= i < |s| :: s[i].id in m.snapshots && s[i] == m.snapshots[s[i].id] && s[i].source == source
  }

  lemma {:induction false} UnprotectedMeaning(m: Metadata, source: Id, parents: set<Id>, s: seq<Snapshot>, n: nat)
    requires n <= |s| && IsGroup(m, s, source)
    ensures var a := Unprotected(parents, s, n);
      && InOrder(m, a)
      && (forall x :: x in a <==> x.DeleteSnapshot? && x.snapshot !in parents && exists i | 0 <= i < n :: s[i].id == x.snapshot)
  {
    hide Precedes, Before;
    if n > 0 { UnprotectedMeaning(m, source, parents, s, n - 1); }
  }

  /** Skipping the first `retain` of a group leaves its snapshots of rank at least `retain`. */
  lemma SkippedMeaning(m: Metadata, source: Id, retain: nat, s: Id)
    requires WellKeyed(m)
    ensures var c := Skip(Ranked(m, source), retain);
      (exists i | 0 <= i < |c| :: c[i].id == s) <==> s in m.snapshots && m.snapshots[s].source == source && Rank(m, s) >= retain
  {
    hide Before;
    var g := Ranked(m, source);
    var c := Skip(g, retain);
    if i :| 0 <= i < |c| && c[i].id == s {
      IndexIsRank(m, source, retain + i);
    }
    if s in m.snapshots && m.snapshots[s].source == source && Rank(m, s) >= retain {
      RankedIsSorted(m, source);
      assert m.snapshots[s] in g;
      var j :| 0 <= j < |g| && g[j] == m.snapshots[s];
      IndexIsRank(m, source, j);
      assert c[j - retain].id == s;
    }
  }

  lemma SkippedIsGroup(m: Metadata, source: Id, retain: nat)
    requires WellKeyed(m)
    ensures IsGroup(m, Skip(Ranked(m, source), retain), source)
  {
    hide Precedes, Ranked;
    RankedIsSorted(m, source);
    var g := Ranked(m, source);
    var c := Skip(g, retain);
    forall i | 0 <= i < |c| ensures c[i].id in m.snapshots && c[i] == m.snapshots[c[i].id] && c[i].source == source {
      assert c[i] == g[retain + i] && g[retain + i] in g;
    }
  }

  ghost predicate InGroup(m: Metadata, x: GcAction, source: Id, policy: GcPolicy) {
    x.DeleteSnapshot? && Doomed(m, x.snapshot, policy) && m.snapshots[x.snapshot].source == source
  }

  /** Deletions within one group. */
  lemma GroupMeaning(m: Metadata, source: Id, policy: GcPolicy)
    requires WellKeyed(m)
    ensures InOrder(m, GroupActions(m, source, policy.retain))
    ensures forall x :: x in GroupActions(m, source, policy.retain) <==> InGroup(m, x, source, policy)
  {
    hide Rank, Skip, Unprotected, IsGroup;
    var c := Skip(Ranked(m, source), policy.retain);
    SkippedIsGroup(m, source, policy.retain);
    UnprotectedMeaning(m, source, Parents(m), c, |c|);
    forall x ensures x in Unprotected(Parents(m), c, |c|) <==> InGroup(m, x, source, policy) {
      if x.DeleteSnapshot? { SkippedMeaning(m, source, policy.retain, x.snapshot); }
    }
  }

  ghost predicate InSomeGroup(m: Metadata, x: GcAction, sources: seq<Id>, n: nat, policy: GcPolicy)
    requires n <= |sources|
  {
    exists i | 0 <= i < n :: InGroup(m, x, sources[i], policy)
  }

  lemma {:induction false} SnapshotActionsMeaning(m: Metadata, sources: seq<Id>, n: nat, policy: GcPolicy)
    requires n <= |sources| && WellKeyed(m) && Ascending(sources)
    ensures forall x :: x in SnapshotActions(m, sources, n, policy.retain) <==> InSomeGroup(m, x, sources, n, policy)
    ensures InOrder(m, SnapshotActions(m, sources, n, policy.retain))
  {
    hide Before, InGroup, GroupActions, InOrder;
    if n == 0 {
      assert InOrder(m, []) by { NothingIsInOrder(m); }
    } else {
      SnapshotActionsMeaning(m, sources, n - 1, policy);
      GroupMeaning(m, sources[n - 1], policy);
      var earlier, group := SnapshotActions(m, sources, n - 1, policy.retain), GroupActions(m, sources[n - 1], policy.retain);
      forall x, y | x in earlier && y in group ensures Follows(m, x, y) {
        var i :| 0 <= i < n - 1 && InGroup(m, x, sources[i], policy);
        GroupsFollow(m, sources, i, n - 1, policy, x, y);
      }
      ConcatenationIsInOrder(m, earlier, group);
    }
  }

  lemma NothingIsInOrder(m: Metadata)
    ensures InOrder(m, [])
  {
  }

  lemma GroupsFollow(m: Metadata, sources: seq<Id>, i: nat, j: nat, policy: GcPolicy, x: GcAction, y: GcAction)
    requires i < j < |sources| && Ascending(sources) && InGroup(m, x, sources[i], policy) && InGroup(m, y, sources[j], policy)
    ensures Follows(m, x, y)
  {
    hide Before, Rank, IsParent;
  }

  lemma PlanParts(m: Metadata, now: Time, policy: GcPolicy) returns (expired: seq<GcAction>, doomed: seq<GcAction>)
    requires WellKeyed(m)
    ensures Plan(m, now, policy) == expired + doomed
    ensures InOrder(m, expired) && InOrder(m, doomed)
    ensures forall x :: x in expired <==> x.DeleteWorkspace? && x.workspace in m.workspaces && Expired(m.workspaces[x.workspace], now, policy)
    ensures forall x :: x in doomed <==> x.DeleteSnapshot? && Doomed(m, x.snapshot, policy)
  {
    hide Rank, Expired, InOrder;
    var keys, sources := WorkspaceKeys(m), SortedKeys(Sources(m));
    expired := WorkspaceActions(m, keys, |keys|, now, policy);
    doomed := SnapshotActions(m, sources, |sources|, policy.retain);
    WorkspaceActionsMeaning(m, keys, |keys|, now, policy);
    assert keys[..|keys|] == keys;
    SnapshotActionsMeaning(m, sources, |sources|, policy);
    forall x ensures x in doomed <==> x.DeleteSnapshot? && Doomed(m, x.snapshot, policy) {
      if x.DeleteSnapshot? && Doomed(m, x.snapshot, policy) { SourceIsListed(m, x.snapshot); }
    }
  }

  lemma SourceIsListed(m: Metadata, s: Id)
    requires s in m.snapshots
    ensures var sources := SortedKeys(Sources(m)); exists i | 0 <= i < |sources| :: sources[i] == m.snapshots[s].source
  {
    assert m.snapshots[s].source in Sources(m);
    assert m.snapshots[s].source in SortedKeys(Sources(m));
  }

  /**
   * The plan is exactly the deleted workspaces unused for long enough and the unprotected snapshots of
   * rank at least `retain`, each once, in plan order; that leaves one list only.
   */
  lemma PlanMeaning(m: Metadata, now: Time, policy: GcPolicy)
    requires WellKeyed(m)
    ensures forall w :: DeleteWorkspace(w) in Plan(m, now, policy) <==>
      w in m.workspaces && m.workspaces[w].state == Deleted && (policy.after == 0 || now - m.workspaces[w].lastAccessed >= policy.after)
    ensures forall s :: DeleteSnapshot(s) in Plan(m, now, policy) <==> Doomed(m, s, policy)
    ensures InOrder(m, Plan(m, now, policy)) && NoDuplicates(Plan(m, now, policy))
  {
    hide Before, Rank, Follows;
    var expired, doomed := PlanParts(m, now, policy);
    forall x, y | x in expired && y in doomed ensures Follows(m, x, y) { WorkspacesComeFirst(m, x, y); }
    ConcatenationIsInOrder(m, expired, doomed);
    forall a ensures !Follows(m, a, a) { FollowsIsStrict(m, a); }
  }

  lemma WorkspacesComeFirst(m: Metadata, a: GcAction, b: GcAction)
    requires a.DeleteWorkspace? && b.DeleteSnapshot?
    ensures Follows(m, a, b)
  {
  }

  /** Two lists with the same members, both in plan order, are the same list. */
  lemma {:induction false} OrderDecides(m: Metadata, a: seq<GcAction>, b: seq<GcAction>)
    requires InOrder(m, a) && InOrder(m, b) && (forall x :: x in a <==> x in b)
    ensures a == b
  {
    hide Follows;
    if a == [] {
      assert forall i | 0 <= i < |b| :: b[i] in b;
    } else {
      assert a[0] in a && b != [];
      assert b[0] in b;
      var i :| 0 <= i < |b| && b[i] == a[0];
      var j :| 0 <= j < |a| && a[j] == b[0];
      if i > 0 && j > 0 { FollowsIsAsymmetric(m, a[0], b[0]); }
      forall x ensures x in a[1..] <==> x in b[1..] {
        FollowsIsStrict(m, a[0]);
        assert x in a <==> x == a[0] || x in a[1..];
        assert x in b <==> x == b[0] || x in b[1..];
      }
      OrderDecides(m, a[1..], b[1..]);
      assert a == [a[0]] + a[1..] && b == [b[0]] + b[1..];
    }
  }

  lemma FollowsIsAsymmetric(m: Metadata, a: GcAction, b: GcAction)
    ensures !(Follows(m, a, b) && Follows(m, b, a))
  {
    hide Before;
    match (a, b)
    case (DeleteWorkspace(v), DeleteWorkspace(w)) => BeforeIsTotal(v, w);
    case (DeleteSnapshot(s), DeleteSnapshot(t)) =>
      if s in m.snapshots && t in m.snapshots {
        BeforeIsTotal(m.snapshots[s].source, m.snapshots[t].source);
        PrecedesIsStrict(m.snapshots[s], m.snapshots[t]);
      }
    case _ =>
  }
}
