/** The garbage-collection planner of src/gc.rs. */
module Gc {
  import opened Prelude
  import opened Ids
  import opened Model

  datatype GcPolicy = GcPolicy(retain: nat, after: nat)

  datatype GcAction = DeleteWorkspace(workspace: Id) | DeleteSnapshot(snapshot: Id)

  /** A saturating `duration_since`. */
  function Age(now: Time, since: Time): nat {
    if since <= now then now - since else 0
  }

  /** Workspace deletions for the first `n` keys, in their order. */
  function WorkspaceActions(m: Metadata, keys: seq<Id>, n: nat, now: Time, policy: GcPolicy): seq<GcAction>
    requires n <= |keys| && forall i | 0 <= i < n :: keys[i] in m.workspaces
  {
    if n == 0 then []
    else
      var w := m.workspaces[keys[n - 1]];
      WorkspaceActions(m, keys, n - 1, now, policy)
        + if w.state == Deleted && Age(now, w.lastAccessed) >= policy.after then [DeleteWorkspace(w.id)] else []
  }

  /** The snapshots of one source among the first `n` keys, in the order of the keys. */
  function TakenFrom(m: Metadata, keys: seq<Id>, n: nat, source: Id): seq<Snapshot>
    requires n <= |keys| && forall i | 0 <= i < n :: keys[i] in m.snapshots
  {
    if n == 0 then []
    else
      var s := m.snapshots[keys[n - 1]];
      TakenFrom(m, keys, n - 1, source) + if s.source == source then [s] else []
  }

  /** Puts a snapshot ahead of every one that is not strictly newer. */
  function Insert(s: Snapshot, sorted: seq<Snapshot>): seq<Snapshot> {
    if sorted == [] || sorted[0].createdAt <= s.createdAt then [s] + sorted
    else [sorted[0]] + Insert(s, sorted[1..])
  }

  /** The stable sort by descending creation time. */
  function NewestFirst(s: seq<Snapshot>): seq<Snapshot> {
    if s == [] then [] else Insert(s[0], NewestFirst(s[1..]))
  }

  function SnapshotKeys(m: Metadata): (keys: seq<Id>)
    ensures forall i | 0 <= i < |keys| :: keys[i] in m.snapshots
  {
    SortedKeys(m.snapshots.Keys)
  }

  function WorkspaceKeys(m: Metadata): (keys: seq<Id>)
    ensures forall i | 0 <= i < |keys| :: keys[i] in m.workspaces
  {
    SortedKeys(m.workspaces.Keys)
  }

  function Sources(m: Metadata): set<Id> {
    set s | s in m.snapshots :: m.snapshots[s].source
  }

  /** One group of the planner, newest first. */
  function Ranked(m: Metadata, source: Id): seq<Snapshot> {
    var keys := SnapshotKeys(m);
    NewestFirst(TakenFrom(m, keys, |keys|, source))
  }

  function Skip<T>(s: seq<T>, k: nat): seq<T> {
    if k <= |s| then s[k..] else []
  }

  /** The snapshots some workspace was branched from. */
  function Parents(m: Metadata): (parents: set<Id>)
    ensures forall s :: s in parents <==> IsParent(m, s)
  {
    set w | w in m.workspaces && m.workspaces[w].parent.Some? :: m.workspaces[w].parent.value
  }

  /** Deletions of the unprotected among the first `n` snapshots. */
  function Unprotected(parents: set<Id>, s: seq<Snapshot>, n: nat): seq<GcAction>
    requires n <= |s|
  {
    if n == 0 then []
    else Unprotected(parents, s, n - 1) + if s[n - 1].id in parents then [] else [DeleteSnapshot(s[n - 1].id)]
  }

  /** Snapshot deletions for one source: all but its newest `retain`, less the parents. */
  function GroupActions(m: Metadata, source: Id, retain: nat): seq<GcAction> {
    var candidates := Skip(Ranked(m, source), retain);
    Unprotected(Parents(m), candidates, |candidates|)
  }

  /** Snapshot deletions for the first `n` sources. */
  function SnapshotActions(m: Metadata, sources: seq<Id>, n: nat, retain: nat): seq<GcAction>
    requires n <= |sources|
  {
    if n == 0 then [] else SnapshotActions(m, sources, n - 1, retain) + GroupActions(m, sources[n - 1], retain)
  }

  /** What the planner returns, as a value. */
  function Plan(m: Metadata, now: Time, policy: GcPolicy): seq<GcAction> {
    var keys, sources := WorkspaceKeys(m), SortedKeys(Sources(m));
    WorkspaceActions(m, keys, |keys|, now, policy) + SnapshotActions(m, sources, |sources|, policy.retain)
  }

  /** The first loop of the planner. */
  method PlanWorkspaces(m: Metadata, now: Time, policy: GcPolicy) returns (actions: seq<GcAction>)
    ensures var keys := WorkspaceKeys(m); actions == WorkspaceActions(m, keys, |keys|, now, policy)
  {
    actions := [];
    var keys := WorkspaceKeys(m);
    for i := 0 to |keys|
      invariant actions == WorkspaceActions(m, keys, i, now, policy)
    {
      var w := m.workspaces[keys[i]];
      if w.state == Deleted && Age(now, w.lastAccessed) >= policy.after {
        actions := actions + [DeleteWorkspace(w.id)];
      }
    }
  }

  /** The map of groups holds exactly the nonempty ones. */
  ghost predicate Grouped(m: Metadata, keys: seq<Id>, n: nat, groups: map<Id, seq<Snapshot>>)
    requires n <= |keys| && forall i | 0 <= i < n :: keys[i] in m.snapshots
  {
    forall g ::
      && (g in groups ==> groups[g] == TakenFrom(m, keys, n, g) != [])
      && (g !in groups ==> TakenFrom(m, keys, n, g) == [])
  }

  lemma {:induction false} GroupIsEmpty(m: Metadata, keys: seq<Id>, n: nat, source: Id)
    requires n <= |keys| && forall i | 0 <= i < n :: keys[i] in m.snapshots
    ensures TakenFrom(m, keys, n, source) == [] <==> forall i | 0 <= i < n :: m.snapshots[keys[i]].source != source
  {
    if n > 0 { GroupIsEmpty(m, keys, n - 1, source); }
  }

  function AddToGroup(groups: map<Id, seq<Snapshot>>, s: Snapshot): map<Id, seq<Snapshot>> {
    groups[s.source := (if s.source in groups then groups[s.source] else []) + [s]]
  }

  lemma GroupedStep(m: Metadata, keys: seq<Id>, n: nat, groups: map<Id, seq<Snapshot>>)
    requires n < |keys| && forall i | 0 <= i <= n :: keys[i] in m.snapshots
    requires Grouped(m, keys, n, groups)
    ensures Grouped(m, keys, n + 1, AddToGroup(groups, m.snapshots[keys[n]]))
  {
  }

  lemma GroupedKeys(m: Metadata, groups: map<Id, seq<Snapshot>>)
    requires Grouped(m, SnapshotKeys(m), |SnapshotKeys(m)|, groups)
    ensures groups.Keys == Sources(m)
  {
    var keys := SnapshotKeys(m);
    forall g ensures g in groups <==> g in Sources(m) {
      GroupIsEmpty(m, keys, |keys|, g);
      if g in Sources(m) {
        var s :| s in m.snapshots && m.snapshots[s].source == g;
        assert s in keys;
      }
    }
  }

  /** The grouping loop of the planner. */
  method GroupSnapshots(m: Metadata) returns (groups: map<Id, seq<Snapshot>>)
    ensures groups.Keys == Sources(m)
    ensures Grouped(m, SnapshotKeys(m), |SnapshotKeys(m)|, groups)
  {
    var keys := SnapshotKeys(m);
    groups := map[];
    for i := 0 to |keys|
      invariant Grouped(m, keys, i, groups)
    {
      GroupedStep(m, keys, i, groups);
      groups := AddToGroup(groups, m.snapshots[keys[i]]);
    }
    GroupedKeys(m, groups);
  }

  /** The innermost loop of the planner. */
  method PlanGroup(parents: set<Id>, candidates: seq<Snapshot>) returns (actions: seq<GcAction>)
    ensures actions == Unprotected(parents, candidates, |candidates|)
  {
    actions := [];
    for i := 0 to |candidates|
      invariant actions == Unprotected(parents, candidates, i)
    {
      if candidates[i].id !in parents {
        actions := actions + [DeleteSnapshot(candidates[i].id)];
      }
    }
  }

  /** The last loop of the planner: sort each group, skip the retained, spare the parents. */
  method PlanSnapshots(m: Metadata, groups: map<Id, seq<Snapshot>>, retain: nat) returns (actions: seq<GcAction>)
    requires Grouped(m, SnapshotKeys(m), |SnapshotKeys(m)|, groups)
    ensures var sources := SortedKeys(groups.Keys); actions == SnapshotActions(m, sources, |sources|, retain)
  {
    hide NewestFirst, TakenFrom, Skip, Unprotected, SortedKeys, Ascending, IsParent;
    actions := [];
    var parents := Parents(m);
    var sources := SortedKeys(groups.Keys);
    for i := 0 to |sources|
      invariant actions == SnapshotActions(m, sources, i, retain)
    {
      var sorted := NewestFirst(groups[sources[i]]);
      assert sorted == Ranked(m, sources[i]);
      var doomed := PlanGroup(parents, Skip(sorted, retain));
      actions := actions + doomed;
    }
  }

  method PlanGc(m: Metadata, now: Time, policy: GcPolicy) returns (actions: seq<GcAction>)
    ensures actions == Plan(m, now, policy)
  {
    actions := PlanWorkspaces(m, now, policy);
    var groups := GroupSnapshots(m);
    var doomed := PlanSnapshots(m, groups, policy.retain);
    actions := actions + doomed;
  }
}
