/** Where the file, the control plane and the planner meet: saving a run's metadata and planning on what is loaded. */
module Reload {
  import opened Prelude
  import opened Ids
  import opened Model
  import opened Storage
  import opened Gc
  import opened GcRank
  import opened Plane
  import opened Runs
  import opened Text
  import opened Codec
  import opened CodecOrder
  import opened CodecRoundTrip

  // ---- Planning on reloaded metadata ----

  /** Whole seconds of the creation times tell any two snapshots of one source apart. */
  ghost predicate DistinctSeconds(m: Metadata) {
    forall s, t | s in m.snapshots && t in m.snapshots && s != t && m.snapshots[s].source == m.snapshots[t].source ::
      Truncate(m.snapshots[s].createdAt) != Truncate(m.snapshots[t].createdAt)
  }

  lemma TruncateIsMonotone(a: Time, b: Time)
    requires a <= b
    ensures Truncate(a) <= Truncate(b)
  {
  }

  lemma TruncatedRank(m: Metadata, s: Id)
    requires WellKeyed(m) && DistinctSeconds(m) && s in m.snapshots
    ensures Rank(TruncateTimes(m), s) == Rank(m, s)
  {
    hide Truncate, Before;
    var t := TruncateTimes(m);
    forall x ensures x in Ahead(t, s) <==> x in Ahead(m, s) {
      if x in m.snapshots && m.snapshots[x].source == m.snapshots[s].source && x != s {
        var a, b := m.snapshots[x].createdAt, m.snapshots[s].createdAt;
        if a <= b { TruncateIsMonotone(a, b); } else { TruncateIsMonotone(b, a); }
      }
    }
    assert Ahead(t, s) == Ahead(m, s);
  }

  lemma TruncatedKeys(m: Metadata)
    requires WellKeyed(m)
    ensures WellKeyed(TruncateTimes(m))
    ensures forall s :: IsParent(TruncateTimes(m), s) <==> IsParent(m, s)
  {
    var t := TruncateTimes(m);
    forall s ensures IsParent(t, s) <==> IsParent(m, s) {
      if w :| w in m.workspaces && m.workspaces[w].parent == Some(s) { assert t.workspaces[w].parent == Some(s); }
      if w :| w in t.workspaces && t.workspaces[w].parent == Some(s) { assert m.workspaces[w].parent == Some(s); }
    }
  }

  /**
   * How a plan for `t`, which is `m` with truncated times, compares with one for `m`: every deletion
   * of a workspace last used after the epoch is still planned, and any other workspace planned is
   * deleted and less than a second short of its time. With whole seconds that tell a source's
   * snapshots apart, the snapshot deletions are the same.
   */
  ghost predicate PlansAlike(m: Metadata, t: Metadata, now: Time, policy: GcPolicy) {
    && (forall w | w in m.workspaces && m.workspaces[w].lastAccessed >= 0 && DeleteWorkspace(w) in Plan(m, now, policy) ::
          DeleteWorkspace(w) in Plan(t, now, policy))
    && (forall w | DeleteWorkspace(w) in Plan(t, now, policy) ::
          w in m.workspaces && m.workspaces[w].state == Deleted
          && (policy.after == 0 || now - m.workspaces[w].lastAccessed > policy.after - SECOND))
    && (DistinctSeconds(m) ==> forall s :: DeleteSnapshot(s) in Plan(t, now, policy) <==> DeleteSnapshot(s) in Plan(m, now, policy))
  }

  lemma PlanAfterTruncation(m: Metadata, now: Time, policy: GcPolicy)
    requires WellKeyed(m)
    ensures PlansAlike(m, TruncateTimes(m), now, policy)
  {
    hide Plan, Rank, TruncateTimes, IsParent;
    var t := TruncateTimes(m);
    TruncatedKeys(m);
    PlanMeaning(m, now, policy);
    PlanMeaning(t, now, policy);
    forall w | w in m.workspaces && m.workspaces[w].lastAccessed >= 0 && DeleteWorkspace(w) in Plan(m, now, policy)
      ensures DeleteWorkspace(w) in Plan(t, now, policy)
    {
      TruncatedWorkspace(m, w);
    }
    forall w | DeleteWorkspace(w) in Plan(t, now, policy)
      ensures w in m.workspaces && m.workspaces[w].state == Deleted
      ensures policy.after == 0 || now - m.workspaces[w].lastAccessed > policy.after - SECOND
    {
      TruncatedWorkspace(m, w);
    }
    if DistinctSeconds(m) {
      forall s ensures DeleteSnapshot(s) in Plan(t, now, policy) <==> DeleteSnapshot(s) in Plan(m, now, policy) {
        TruncatedSnapshot(m, s);
        if s in m.snapshots { TruncatedRank(m, s); }
      }
    }
  }

  lemma TruncatedWorkspace(m: Metadata, w: Id)
    ensures w in TruncateTimes(m).workspaces <==> w in m.workspaces
    ensures w in m.workspaces ==> TruncateTimes(m).workspaces[w] == TruncateWorkspace(m.workspaces[w])
  {
  }

  lemma TruncatedSnapshot(m: Metadata, s: Id)
    ensures s in TruncateTimes(m).snapshots <==> s in m.snapshots
  {
  }

  // ---- Saving what a run has made ----

  /** The ids a command names are valid, a policy it sets survives the file, and it branches from no snapshot called "-". */
  ghost predicate CleanCommand(c: Command) {
    match c
    case Create(w, agent) => ValidId(w) && ValidId(agent)
    case TakeSnapshot(w, s) => ValidId(s)
    case Branch(s, w, agent) => ValidId(s) && s != "-" && ValidId(w) && ValidId(agent)
    case Police(w, policy) => CleanPolicy(policy) && !EndsInCr(policy)
    case _ => true
  }

  /** The metadata can be saved, under a root whose paths can be. */
  ghost predicate Savable(p: Plane) {
    Clean(p.meta) && NoTrailingCr(p.meta) && CleanPath(p.storage.root) && ValidId(p.defaultPolicy)
  }

  lemma PathsAreClean(root: Path, id: Id)
    requires CleanPath(root) && ValidId(id)
    ensures CleanPath(WorkspacePath(root, id)) && CleanPath(SnapshotPath(root, id))
  {
    hide JoinPath, CleanPath, ValidId;
    ValidIdIsClean(id);
    JoinIsClean(root, "workspaces");
    JoinIsClean(root, "snapshots");
    JoinIsClean(JoinPath(root, "workspaces"), id);
    JoinIsClean(JoinPath(root, "snapshots"), id);
  }

  lemma JoinIsClean(base: Path, part: string)
    requires CleanPath(base) && '\t' !in part && '\n' !in part
    ensures CleanPath(JoinPath(base, part))
  {
  }

  lemma PutSavable(p: Plane, w: Id, record: Workspace)
    requires Savable(p) && record.id == w && CleanWorkspace(record)
    ensures Savable(PutWorkspace(p, w, record))
  {
    hide CleanWorkspace, CleanPolicy, CleanSnapshot, EndsInCr, ValidId;
  }

  lemma MakeSavable(p: Plane, w: Id, agent: Id, parent: Option<Id>, now: Time, quota: Fault)
    requires Savable(p) && w !in p.storage.workspaces && ValidId(w) && ValidId(agent)
    requires parent.Some? ==> ValidId(parent.value) && parent.value != "-"
    ensures var (stored, root) := p.storage.CreateWorkspace(w, Works);
      Savable(FinishWorkspace(p, stored, root, w, agent, parent, now, quota).plane)
  {
    hide Clean, NoTrailingCr, ValidId, CleanPath, WorkspacePath;
    var (stored, root) := p.storage.CreateWorkspace(w, Works);
    var q := p.(storage := stored);
    assert Savable(q);
    PathsAreClean(p.storage.root, w);
    PutSavable(q, w, FreshWorkspace(p, w, agent, root.value, parent, now));
  }

  lemma TakeSavable(p: Plane, w: Id, s: Id, now: Time, made: Fault)
    requires Savable(p) && ValidId(s)
    ensures Savable(SnapshotWorkspace(p, w, s, now, made).plane)
  {
    hide ValidId, CleanPath, SnapshotPath, EndsInCr, CleanPolicy;
    PathsAreClean(p.storage.root, s);
  }

  lemma PoliceSavable(p: Plane, w: Id, policy: NetworkPolicy)
    requires Savable(p) && CleanPolicy(policy) && !EndsInCr(policy)
    ensures Savable(SetNetworkPolicy(p, w, policy).plane)
  {
    hide ValidId, CleanPath, EndsInCr, CleanSnapshot;
    if ReadyWorkspace(p.meta, w).Ok? {
      var q := p.(meta := p.meta.(policies := p.meta.policies[policy.id := policy]));
      assert Savable(q);
      PutSavable(q, w, p.meta.workspaces[w].(networkPolicy := policy.id));
    }
  }

  lemma ActionSavable(p: Plane, action: GcAction, fault: Fault)
    requires Savable(p)
    ensures Savable(RunAction(p, action, fault).plane)
  {
    hide ValidId, CleanPath, EndsInCr, CleanSnapshot, CleanWorkspace, CleanPolicy;
  }

  lemma {:induction false} ExecuteSavable(p: Plane, actions: seq<GcAction>, faults: seq<Fault>)
    requires Savable(p)
    ensures Savable(Execute(p, actions, faults).plane)
    decreases |actions|
  {
    hide Savable, RunAction;
    if actions != [] {
      var f := if faults == [] then Works else faults[0];
      ActionSavable(p, actions[0], f);
      var first := RunAction(p, actions[0], f);
      if first.result.Ok? { ExecuteSavable(first.plane, actions[1..], if faults == [] then [] else faults[1..]); }
    }
  }

  lemma UpdateSavable(p: Plane, w: Id, record: Workspace)
    requires Savable(p) && w in p.meta.workspaces
    requires record == p.meta.workspaces[w].(limits := record.limits, state := record.state, lastAccessed := record.lastAccessed)
    ensures Savable(PutWorkspace(p, w, record))
  {
    hide NoTrailingCr, ValidId, CleanPath, CleanPolicy, CleanSnapshot;
    PutSavable(p, w, record);
  }

  lemma StepSavable(p: Plane, e: Event)
    requires Savable(p) && CleanCommand(e.command)
    ensures Savable(Step(p, e).plane)
  {
    hide Clean, NoTrailingCr, ValidId, CleanPath, Execute, FinishWorkspace, SnapshotWorkspace, SetNetworkPolicy, PutWorkspace,
      PurgeWorkspace, PurgeSnapshot, CleanPolicy, EndsInCr;
    var f, g := At(e.faults, 0), At(e.faults, 1);
    match e.command
    case Create(w, agent) =>
      if w !in p.storage.workspaces { MakeSavable(p, w, agent, None, e.now, g); }
      UnmadeSavable(p, p.storage.CreateWorkspace(w, f), w, agent, None, e.now, g);
    case TakeSnapshot(w, s) => TakeSavable(p, w, s, e.now, f);
    case Branch(s, w, agent) =>
      if w !in p.storage.workspaces { MakeSavable(p, w, agent, Some(s), e.now, g); }
      UnmadeSavable(p, p.storage.CloneWorkspace(s, w, f), w, agent, Some(s), e.now, g);
    case SoftDelete(w) =>
      if w in p.meta.workspaces { UpdateSavable(p, w, p.meta.workspaces[w].(state := Deleted)); }
    case Purge(w) => ActionSavable(p, DeleteWorkspace(w), f);
    case PurgeSnap(s) => ActionSavable(p, DeleteSnapshot(s), f);
    case Collect(actions) => ExecuteSavable(p, actions, e.faults);
    case Limit(w, limits) =>
      if w in p.meta.workspaces { UpdateSavable(p, w, p.meta.workspaces[w].(limits := limits)); }
    case Police(w, policy) => PoliceSavable(p, w, policy);
    case Open(w, session, request) =>
      if w in p.meta.workspaces { UpdateSavable(p, w, p.meta.workspaces[w].(lastAccessed := e.now)); }
  }

  lemma UnmadeSavable(p: Plane, reply: (Stored, Result<Path>), w: Id, agent: Id, parent: Option<Id>, now: Time, quota: Fault)
    requires Savable(p) && reply.0.root == p.storage.root
    ensures reply.1.Err? ==> Savable(FinishWorkspace(p, reply.0, reply.1, w, agent, parent, now, quota).plane)
  {
    hide Clean, NoTrailingCr;
  }

  lemma {:induction false} RunSavable(p: Plane, events: seq<Event>, n: nat)
    requires Savable(p) && n <= |events| && forall i | 0 <= i < n :: CleanCommand(events[i].command)
    ensures Savable(After(p, events, n))
  {
    hide Savable, CleanCommand, Step;
    if n > 0 {
      RunSavable(p, events, n - 1);
      StepSavable(After(p, events, n - 1), events[n - 1]);
    }
  }

  /**
   * What any run of such commands has made, with any faults, is saved and loaded back, and the plane
   * that goes on with the loaded metadata satisfies the invariant of every run.
   */
  lemma RunSurvivesRestart(root: Path, profile: NixProfile, policy: NetworkPolicy, events: seq<Event>, n: nat)
    requires CleanPath(root) && CleanPolicy(policy) && !EndsInCr(policy)
    requires n <= |events| && forall i | 0 <= i < n :: CleanCommand(events[i].command)
    ensures var p := After(NewPlane(root, profile, policy), events, n);
      && Decode(Encode(p.meta)) == Ok(TruncateTimes(p.meta))
      && Inv(p.(meta := TruncateTimes(p.meta)))
  {
    hide CleanCommand, Step, Decode, Encode, TruncateTimes, Inv;
    var p0 := NewPlane(root, profile, policy);
    NewPlaneInv(root, profile, policy);
    RunKeepsInv(p0, events, n);
    RunSavable(p0, events, n);
    RoundTrip(After(p0, events, n).meta);
    TruncationKeepsInv(After(p0, events, n));
  }

  lemma TruncationKeepsInv(p: Plane)
    requires Inv(p)
    ensures Inv(p.(meta := TruncateTimes(p.meta)))
  {
    hide Truncate, WorkspacePath, SnapshotPath;
  }

  /** Planning after a restart, for a run of such commands. */
  lemma RestartedPlan(root: Path, profile: NixProfile, policy: NetworkPolicy, events: seq<Event>, n: nat, now: Time, gc: GcPolicy)
    requires CleanPath(root) && CleanPolicy(policy) && !EndsInCr(policy)
    requires n <= |events| && forall i | 0 <= i < n :: CleanCommand(events[i].command)
    ensures var m := After(NewPlane(root, profile, policy), events, n).meta; var loaded := Decode(Encode(m));
      loaded.Ok? && PlansAlike(m, loaded.value, now, gc)
  {
    hide CleanCommand, Step, Decode, Encode, TruncateTimes, PlansAlike, Inv;
    var p0 := NewPlane(root, profile, policy);
    RunSurvivesRestart(root, profile, policy, events, n);
    NewPlaneInv(root, profile, policy);
    RunKeepsInv(p0, events, n);
    InvIsKeyed(After(p0, events, n));
    PlanAfterTruncation(After(p0, events, n).meta, now, gc);
  }

  lemma InvIsKeyed(p: Plane)
    requires Inv(p)
    ensures WellKeyed(p.meta)
  {
  }

  // ---- The marker for "no parent" ----

  /** The metadata with every parent called "-" dropped. */
  function DropDash(m: Metadata): Metadata {
    m.(workspaces := map w | w in m.workspaces ::
         if m.workspaces[w].parent == Some("-") then m.workspaces[w].(parent := None) else m.workspaces[w])
  }

  lemma {:induction false} DashLines(m: Metadata, keys: seq<Id>, n: nat)
    requires n <= |keys| && forall i | 0 <= i < n :: keys[i] in m.workspaces
    ensures WorkspaceLines(DropDash(m).workspaces, keys, n) == WorkspaceLines(m.workspaces, keys, n)
  {
    hide Join, Decimal;
    if n > 0 {
      DashLines(m, keys, n - 1);
      var w := m.workspaces[keys[n - 1]];
      assert WorkspaceFields(w) == WorkspaceFields(DropDash(m).workspaces[keys[n - 1]]);
    }
  }

  lemma DashIsWrittenAsNone(m: Metadata)
    ensures Encode(m) == Encode(DropDash(m))
  {
    hide Join, WorkspaceLines, PolicyLines, SnapshotLines;
    assert DropDash(m).workspaces.Keys == m.workspaces.Keys;
    var keys := SortedKeys(m.workspaces.Keys);
    DashLines(m, keys, |keys|);
    assert WorkspacesBlock(m) == WorkspacesBlock(DropDash(m));
  }

  /** A workspace and a branch of its snapshot, which is called "-", a valid id. */
  function DashRun(now: Time): seq<Event> {
    [ Event(Create("a", "x"), now, []),
      Event(TakeSnapshot("a", "-"), now, []),
      Event(Branch("-", "b", "x"), now, [])]
  }

  function DashWorkspace(root: Path, w: Id, parent: Option<Id>, policy: NetworkPolicy, now: Time): Workspace {
    Workspace(w, "x", WorkspacePath(root, w), parent, DEFAULT_LIMITS, policy.id, Ready, now, now)
  }

  /** What that run makes, if the branch has this parent. */
  function DashMetadata(root: Path, parent: Option<Id>, policy: NetworkPolicy, now: Time): Metadata {
    Metadata(
      map["a" := DashWorkspace(root, "a", None, policy, now), "b" := DashWorkspace(root, "b", parent, policy, now)],
      map["-" := Snapshot("-", "a", SnapshotPath(root, "-"), now)],
      map[policy.id := policy])
  }

  lemma DashRunEnds(root: Path, profile: NixProfile, policy: NetworkPolicy, now: Time)
    ensures After(NewPlane(root, profile, policy), DashRun(now), 3).meta == DashMetadata(root, Some("-"), policy, now)
  {
    hide WorkspacePath, SnapshotPath;
    var p0, r := NewPlane(root, profile, policy), DashRun(now);
    assert After(p0, r, 1) == CreateWorkspace(p0, "a", "x", now, Works, Works).plane;
    assert After(p0, r, 2) == SnapshotWorkspace(After(p0, r, 1), "a", "-", now, Works).plane;
    assert After(p0, r, 3) == BranchWorkspace(After(p0, r, 2), "-", "b", "x", now, Works, Works).plane;
  }

  lemma DashIsDropped(root: Path, policy: NetworkPolicy, now: Time)
    ensures DropDash(DashMetadata(root, Some("-"), policy, now)) == DashMetadata(root, None, policy, now)
  {
    hide WorkspacePath, SnapshotPath;
    assert DropDash(DashMetadata(root, Some("-"), policy, now)).workspaces == DashMetadata(root, None, policy, now).workspaces;
  }

  /** Without the parent that metadata can be read back. */
  lemma DashlessIsClean(root: Path, policy: NetworkPolicy, now: Time)
    requires CleanPath(root) && CleanPolicy(policy)
    ensures Clean(DashMetadata(root, None, policy, now))
  {
    hide CleanPath, WorkspacePath, SnapshotPath;
    PathsAreClean(root, "a");
    PathsAreClean(root, "b");
    PathsAreClean(root, "-");
  }

  lemma DashProtection(root: Path, policy: NetworkPolicy, now: Time)
    ensures IsParent(DashMetadata(root, Some("-"), policy, now), "-")
    ensures var loaded := ReadBack(DashMetadata(root, None, policy, now)); "-" in loaded.snapshots && !IsParent(loaded, "-")
  {
    hide WorkspacePath, SnapshotPath, Truncate, ReadPolicy;
    assert DashMetadata(root, Some("-"), policy, now).workspaces["b"].parent == Some("-");
  }

  /**
   * The round trip is false of a reachable plane: the branch of "-" loads without its parent, and a
   * plan made on what was loaded deletes the snapshot it was branched from.
   */
  lemma DashParentIsLost(root: Path, profile: NixProfile, policy: NetworkPolicy, now: Time, after: nat)
    requires CleanPath(root) && CleanPolicy(policy)
    ensures var m := After(NewPlane(root, profile, policy), DashRun(now), 3).meta; var loaded := Decode(Encode(m));
      && loaded.Ok?
      && DeleteSnapshot("-") in Plan(loaded.value, now, GcPolicy(0, after))
      && DeleteSnapshot("-") !in Plan(m, now, GcPolicy(0, after))
  {
    hide Decode, Encode, Plan, After, Clean, DashMetadata, DropDash, ReadBack, NewPlane, IsParent, Rank;
    var m, d := DashMetadata(root, Some("-"), policy, now), DashMetadata(root, None, policy, now);
    DashRunEnds(root, profile, policy, now);
    RunKeepsInv(NewPlane(root, profile, policy), DashRun(now), 3) by { NewPlaneInv(root, profile, policy); }
    DashIsWrittenAsNone(m);
    DashIsDropped(root, policy, now);
    DashlessIsClean(root, policy, now);
    LoadOfSaved(d);
    LoadYieldsClean(Encode(m));
    CleanIsKeyed(ReadBack(d));
    DashProtection(root, policy, now);
    PlanMeaning(m, now, GcPolicy(0, after));
    PlanMeaning(ReadBack(d), now, GcPolicy(0, after));
  }

  lemma CleanIsKeyed(m: Metadata)
    requires Clean(m)
    ensures WellKeyed(m)
  {
  }
}
