/** Executing garbage-collection actions: fresh plans, convergence, and arbitrary action lists. */
module GcRuns {
  import opened Prelude
  import opened Ids
  import opened Model
  import opened Storage
  import opened Gc
  import opened GcRank
  import opened Plane
  import opened Runs

  // ---- Fresh plans ----

  ghost function PurgedWorkspaces(actions: seq<GcAction>): set<Id> {
    set a | a in actions && a.DeleteWorkspace? :: a.workspace
  }

  ghost function PurgedSnapshots(actions: seq<GcAction>): set<Id> {
    set a | a in actions && a.DeleteSnapshot? :: a.snapshot
  }

  /** The plane with the named entries gone from metadata and backend, and nothing else changed. */
  ghost function Without(p: Plane, ws: set<Id>, ss: set<Id>): Plane {
    p.(meta := p.meta.(workspaces := p.meta.workspaces - ws, snapshots := p.meta.snapshots - ss),
       storage := p.storage.(workspaces := p.storage.workspaces - ws, snapshots := p.storage.snapshots - ss))
  }

  /** The action would go through. */
  ghost predicate Ripe(p: Plane, a: GcAction) {
    match a
    case DeleteWorkspace(w) => w in p.meta.workspaces && p.meta.workspaces[w].state == Deleted && w in p.storage.workspaces
    case DeleteSnapshot(s) => s in p.meta.snapshots && !IsParent(p.meta, s) && s in p.storage.snapshots
  }

  lemma RunRipe(p: Plane, a: GcAction)
    requires Ripe(p, a)
    ensures RunAction(p, a, Works) == Outcome(Without(p, PurgedWorkspaces([a]), PurgedSnapshots([a])), Ok(()))
  {
    if a.DeleteWorkspace? {
      assert PurgedWorkspaces([a]) == {a.workspace} && PurgedSnapshots([a]) == {};
    } else {
      assert PurgedWorkspaces([a]) == {} && PurgedSnapshots([a]) == {a.snapshot};
    }
  }

  lemma OthersStayRipe(p: Plane, a: GcAction, b: GcAction)
    requires Ripe(p, a) && Ripe(p, b) && a != b
    ensures Ripe(Without(p, PurgedWorkspaces([a]), PurgedSnapshots([a])), b)
  {
  }

  lemma PurgedSplits(actions: seq<GcAction>)
    requires actions != []
    ensures PurgedWorkspaces(actions) == PurgedWorkspaces([actions[0]]) + PurgedWorkspaces(actions[1..])
    ensures PurgedSnapshots(actions) == PurgedSnapshots([actions[0]]) + PurgedSnapshots(actions[1..])
  {
    assert actions == [actions[0]] + actions[1..];
  }

  lemma {:induction false} ExecuteRipe(p: Plane, actions: seq<GcAction>)
    requires NoDuplicates(actions) && forall a | a in actions :: Ripe(p, a)
    ensures Execute(p, actions, []) == Outcome(Without(p, PurgedWorkspaces(actions), PurgedSnapshots(actions)), Ok(()))
    decreases |actions|
  {
    hide Ripe, RunAction, PurgedWorkspaces, PurgedSnapshots;
    if actions == [] {
      NothingPurged();
    } else {
      var a, rest := actions[0], actions[1..];
      RunRipe(p, a);
      var q := Without(p, PurgedWorkspaces([a]), PurgedSnapshots([a]));
      forall b | b in rest ensures Ripe(q, b) { OthersStayRipe(p, a, b); }
      ExecuteRipe(q, rest);
      PurgedSplits(actions);
      var ws, ss := PurgedWorkspaces(rest), PurgedSnapshots(rest);
      assert Without(q, ws, ss) == Without(p, PurgedWorkspaces([a]) + ws, PurgedSnapshots([a]) + ss) by {
        WithoutTwice(p, PurgedWorkspaces([a]), PurgedSnapshots([a]), ws, ss);
      }
    }
  }

  lemma NothingPurged()
    ensures PurgedWorkspaces([]) == {} && PurgedSnapshots([]) == {}
  {
  }

  lemma WithoutTwice(p: Plane, ws: set<Id>, ss: set<Id>, ws': set<Id>, ss': set<Id>)
    ensures Without(Without(p, ws, ss), ws', ss') == Without(p, ws + ws', ss + ss')
  {
    assert p.meta.workspaces - ws - ws' == p.meta.workspaces - (ws + ws');
    assert p.meta.snapshots - ss - ss' == p.meta.snapshots - (ss + ss');
    assert p.storage.workspaces - ws - ws' == p.storage.workspaces - (ws + ws');
    assert p.storage.snapshots - ss - ss' == p.storage.snapshots - (ss + ss');
  }

  /** One collection: plan on the current metadata, then execute. */
  function Round(p: Plane, now: Time, policy: GcPolicy): Plane {
    Execute(p, Plan(p.meta, now, policy), []).plane
  }

  ghost function ExpiredIds(m: Metadata, now: Time, policy: GcPolicy): set<Id> {
    set w | w in m.workspaces && Expired(m.workspaces[w], now, policy)
  }

  ghost function DoomedIds(m: Metadata, policy: GcPolicy): set<Id> {
    set s | s in m.snapshots && Doomed(m, s, policy)
  }

  lemma PlanPurges(m: Metadata, now: Time, policy: GcPolicy)
    requires WellKeyed(m)
    ensures PurgedWorkspaces(Plan(m, now, policy)) == ExpiredIds(m, now, policy)
    ensures PurgedSnapshots(Plan(m, now, policy)) == DoomedIds(m, policy)
  {
    hide Plan, Rank;
    PlanMeaning(m, now, policy);
    var plan := Plan(m, now, policy);
    forall w ensures w in PurgedWorkspaces(plan) <==> w in ExpiredIds(m, now, policy) {
      assert w in PurgedWorkspaces(plan) <==> DeleteWorkspace(w) in plan;
    }
    forall s ensures s in PurgedSnapshots(plan) <==> s in DoomedIds(m, policy) {
      assert s in PurgedSnapshots(plan) <==> DeleteSnapshot(s) in plan;
    }
  }

  /**
   * A plan executed on the plane it was made for succeeds, and removes exactly the expired workspaces
   * and the doomed snapshots, from metadata and backend alike.
   */
  lemma FreshPlanExecutes(p: Plane, now: Time, policy: GcPolicy)
    requires Inv(p)
    ensures Execute(p, Plan(p.meta, now, policy), [])
      == Outcome(Without(p, ExpiredIds(p.meta, now, policy), DoomedIds(p.meta, policy)), Ok(()))
    ensures Inv(Round(p, now, policy))
  {
    hide Plan, Execute, Without;
    var plan := Plan(p.meta, now, policy);
    PlanMeaning(p.meta, now, policy);
    forall a | a in plan ensures Ripe(p, a) {
      PlannedIsRipe(p, now, policy, a);
    }
    ExecuteRipe(p, plan);
    PlanPurges(p.meta, now, policy);
    ExecuteKeepsInv(p, plan, []);
  }

  lemma PlannedIsRipe(p: Plane, now: Time, policy: GcPolicy, a: GcAction)
    requires Inv(p) && a in Plan(p.meta, now, policy)
    ensures Ripe(p, a)
  {
    hide Plan, Rank;
    PlanMeaning(p.meta, now, policy);
    match a
    case DeleteWorkspace(w) =>
    case DeleteSnapshot(s) =>
  }

  // ---- Convergence ----

  lemma EmptyPlan(m: Metadata, now: Time, policy: GcPolicy)
    requires WellKeyed(m)
    ensures Plan(m, now, policy) == [] <==> ExpiredIds(m, now, policy) == {} && DoomedIds(m, policy) == {}
  {
    hide Plan, Rank;
    PlanMeaning(m, now, policy);
    var plan := Plan(m, now, policy);
    if plan != [] {
      assert plan[0] in plan;
      match plan[0]
      case DeleteWorkspace(w) => assert w in ExpiredIds(m, now, policy);
      case DeleteSnapshot(s) => assert s in DoomedIds(m, policy);
    } else {
      forall w ensures w !in ExpiredIds(m, now, policy) { assert DeleteWorkspace(w) !in plan; }
      forall s ensures s !in DoomedIds(m, policy) { assert DeleteSnapshot(s) !in plan; }
    }
  }

  /** `after` has the snapshots of `before` less the doomed ones. */
  ghost predicate Collected(before: Metadata, after: Metadata, policy: GcPolicy) {
    after.snapshots == before.snapshots - DoomedIds(before, policy)
  }

  lemma {:induction false} RankedPrefixIsAhead(m: Metadata, s: Id, k: nat) returns (first: set<Id>)
    requires WellKeyed(m) && s in m.snapshots && k <= Rank(m, s)
    ensures |first| == k && first <= Ahead(m, s) && forall t | t in first :: t in m.snapshots && Rank(m, t) < k
  {
    hide Ranked;
    var source := m.snapshots[s].source;
    var g := Ranked(m, source);
    RankedIsSorted(m, source);
    var i :| 0 <= i < |g| && g[i] == m.snapshots[s];
    IndexIsRank(m, source, i);
    first := IdsOf(g[..k]);
    SortedIsDistinct(m, source);
    DistinctIds(g[..k]);
    forall t | t in first ensures t in Ahead(m, s) && t in m.snapshots && Rank(m, t) < k {
      var j :| 0 <= j < k && g[..k][j].id == t;
      assert g[..k][j] == g[j];
      IndexIsRank(m, source, j);
      assert t in IdsOf(g[..i]) by { assert g[..i][j] == g[j]; }
      AheadIsPrefix(m, source, i, t);
    }
  }

  /**
   * A collection preserves whether a surviving snapshot's rank has reached the retained number, and
   * leaves the ranks below that number as they were.
   */
  lemma RankAfterCollection(before: Metadata, after: Metadata, policy: GcPolicy, s: Id)
    requires WellKeyed(before) && WellKeyed(after) && Collected(before, after, policy) && s in after.snapshots
    ensures Rank(after, s) >= policy.retain <==> Rank(before, s) >= policy.retain
    ensures Rank(before, s) < policy.retain ==> Rank(after, s) == Rank(before, s)
  {
    hide IsParent;
    assert Ahead(after, s) <= Ahead(before, s);
    SubsetIsSmaller(Ahead(after, s), Ahead(before, s));
    var k := if Rank(before, s) < policy.retain then Rank(before, s) else policy.retain;
    var first := RankedPrefixIsAhead(before, s, k);
    assert first <= Ahead(after, s);
    SubsetIsSmaller(first, Ahead(after, s));
  }

  lemma RoundCollects(p: Plane, now: Time, policy: GcPolicy)
    requires Inv(p)
    ensures Inv(Round(p, now, policy))
    ensures Collected(p.meta, Round(p, now, policy).meta, policy)
    ensures Round(p, now, policy).meta.workspaces == p.meta.workspaces - ExpiredIds(p.meta, now, policy)
  {
    hide Inv, Plan, Execute, Expired, Doomed;
    FreshPlanExecutes(p, now, policy);
  }

  lemma NothingExpiredAfterRound(p: Plane, now: Time, policy: GcPolicy)
    requires Inv(p)
    ensures ExpiredIds(Round(p, now, policy).meta, now, policy) == {}
  {
    hide Inv, Round, Expired;
    RoundCollects(p, now, policy);
  }

  /**
   * The snapshots a second round deletes are exactly those of rank at least `retain` that the first
   * round spared as parents and left without a branch.
   */
  lemma SecondRoundMeaning(p: Plane, now: Time, policy: GcPolicy, s: Id)
    requires Inv(p)
    ensures var q := Round(p, now, policy);
      s in DoomedIds(q.meta, policy) <==>
        s in p.meta.snapshots && Rank(p.meta, s) >= policy.retain && IsParent(p.meta, s) && !IsParent(q.meta, s)
  {
    hide Linked, Rooted, Recorded, Round, Rank, Expired;
    var q := Round(p, now, policy);
    RoundCollects(p, now, policy);
    if s in q.meta.snapshots { RankAfterCollection(p.meta, q.meta, policy, s); }
    assert !IsParent(p.meta, s) ==> !IsParent(q.meta, s);
  }

  /** A collection that purges no workspace leaves nothing to collect. */
  lemma OneRoundSuffices(p: Plane, now: Time, policy: GcPolicy)
    requires Inv(p) && ExpiredIds(p.meta, now, policy) == {}
    ensures Plan(Round(p, now, policy).meta, now, policy) == []
  {
    hide Plan, Round, Rank, Expired, Linked, Rooted, Recorded;
    var q := Round(p, now, policy);
    RoundCollects(p, now, policy);
    assert q.meta.workspaces == p.meta.workspaces;
    forall s ensures s !in DoomedIds(q.meta, policy) { SecondRoundMeaning(p, now, policy, s); }
    EmptyPlan(q.meta, now, policy);
  }

  /** For a fixed clock and policy two rounds always reach an empty plan. */
  lemma TwoRoundsSuffice(p: Plane, now: Time, policy: GcPolicy)
    requires Inv(p)
    ensures Plan(Round(Round(p, now, policy), now, policy).meta, now, policy) == []
  {
    hide Plan, Round, Inv;
    RoundCollects(p, now, policy);
    NothingExpiredAfterRound(p, now, policy);
    OneRoundSuffices(Round(p, now, policy), now, policy);
  }

  /** Every workspace branched from `s` is expired. */
  ghost predicate OnlyExpiredBranches(m: Metadata, s: Id, now: Time, policy: GcPolicy) {
    forall w | w in m.workspaces && m.workspaces[w].parent == Some(s) :: Expired(m.workspaces[w], now, policy)
  }

  lemma ParentsAfterRound(p: Plane, now: Time, policy: GcPolicy, s: Id)
    requires Inv(p)
    ensures IsParent(Round(p, now, policy).meta, s) <==> !OnlyExpiredBranches(p.meta, s, now, policy)
  {
    hide Round, Inv, Expired;
    RoundCollects(p, now, policy);
    var q := Round(p, now, policy);
    if !OnlyExpiredBranches(p.meta, s, now, policy) {
      var w :| w in p.meta.workspaces && p.meta.workspaces[w].parent == Some(s) && !Expired(p.meta.workspaces[w], now, policy);
      assert w in q.meta.workspaces && q.meta.workspaces[w].parent == Some(s);
    }
  }

  /**
   * A second round finds work exactly when some parent of rank at least `retain` has only expired
   * branches: purging them is what frees it.
   */
  lemma SecondRoundNeeded(p: Plane, now: Time, policy: GcPolicy)
    requires Inv(p)
    ensures Plan(Round(p, now, policy).meta, now, policy) != [] <==>
      exists s | s in p.meta.snapshots ::
        Rank(p.meta, s) >= policy.retain && IsParent(p.meta, s) && OnlyExpiredBranches(p.meta, s, now, policy)
  {
    hide Plan, Round, Rank, Expired, OnlyExpiredBranches, IsParent, Linked, Rooted, Recorded;
    var q := Round(p, now, policy);
    RoundCollects(p, now, policy);
    NothingExpiredAfterRound(p, now, policy);
    EmptyPlan(q.meta, now, policy);
    forall s ensures s in DoomedIds(q.meta, policy) <==>
      s in p.meta.snapshots && Rank(p.meta, s) >= policy.retain && IsParent(p.meta, s) && OnlyExpiredBranches(p.meta, s, now, policy)
    {
      SecondRoundMeaning(p, now, policy, s);
      ParentsAfterRound(p, now, policy, s);
    }
  }

  /** A workspace, its snapshot, and a deleted branch of that snapshot. */
  function TwoRoundRun(now: Time): seq<Event> {
    [ Event(Create("a", "x"), now, []),
      Event(TakeSnapshot("a", "s"), now, []),
      Event(Branch("s", "b", "x"), now, []),
      Event(SoftDelete("b"), now, [])]
  }

  /** Two rounds can be necessary: here the first purges only the branch, and frees its parent. */
  lemma OneRoundCanFallShort(root: Path, profile: NixProfile, policy: NetworkPolicy, now: Time)
    ensures var p := After(NewPlane(root, profile, policy), TwoRoundRun(now), 4);
      Plan(Round(p, now, GcPolicy(0, 0)).meta, now, GcPolicy(0, 0)) != []
  {
    hide Plan, Rank, Inv, Round;
    var p0, r := NewPlane(root, profile, policy), TwoRoundRun(now);
    NewPlaneInv(root, profile, policy);
    RunKeepsInv(p0, r, 4);
    assert After(p0, r, 1) == CreateWorkspace(p0, "a", "x", now, Works, Works).plane;
    assert After(p0, r, 2) == SnapshotWorkspace(After(p0, r, 1), "a", "s", now, Works).plane;
    assert After(p0, r, 3) == BranchWorkspace(After(p0, r, 2), "s", "b", "x", now, Works, Works).plane;
    assert After(p0, r, 4) == MarkDeleted(After(p0, r, 3), "b").plane;
    var m := After(p0, r, 4).meta;
    assert m.workspaces["b"].parent == Some("s") && m.workspaces["b"].state == Deleted && m.workspaces["a"].parent == None;
    assert m.workspaces.Keys == {"a", "b"};
    assert "s" in m.snapshots && IsParent(m, "s") && OnlyExpiredBranches(m, "s", now, GcPolicy(0, 0));
    SecondRoundNeeded(After(p0, r, 4), now, GcPolicy(0, 0));
  }

  // ---- Retention and variation ----

  /** The newest `retain` of every source are still there, at their ranks, and so is every branch's parent. */
  ghost predicate Retains(before: Metadata, after: Metadata, retain: nat) {
    && (forall s | s in before.snapshots && Rank(before, s) < retain :: s in after.snapshots && Rank(after, s) == Rank(before, s))
    && (forall w, s | w in after.workspaces && after.workspaces[w].parent == Some(s) :: s in after.snapshots)
    && (forall s | s in after.snapshots :: s in before.snapshots && after.snapshots[s] == before.snapshots[s])
  }

  /** What a collection spares. */
  lemma Retention(p: Plane, now: Time, policy: GcPolicy)
    requires Inv(p)
    ensures Retains(p.meta, Round(p, now, policy).meta, policy.retain)
  {
    hide Round, Rank, Expired, Rooted, Recorded;
    var q := Round(p, now, policy);
    RoundCollects(p, now, policy);
    forall s | s in p.meta.snapshots && Rank(p.meta, s) < policy.retain
      ensures s in q.meta.snapshots && Rank(q.meta, s) == Rank(p.meta, s)
    {
      RankAfterCollection(p.meta, q.meta, policy, s);
    }
  }

  /** Retaining more, or for longer, plans no deletion that was not planned before. */
  lemma StricterPlansMore(m: Metadata, now: Time, lax: GcPolicy, strict: GcPolicy)
    requires WellKeyed(m) && strict.retain <= lax.retain && strict.after <= lax.after
    ensures forall a | a in Plan(m, now, lax) :: a in Plan(m, now, strict)
  {
    hide Plan, Rank;
    PlanMeaning(m, now, lax);
    PlanMeaning(m, now, strict);
    forall a | a in Plan(m, now, lax) ensures a in Plan(m, now, strict) {
      match a
      case DeleteWorkspace(w) =>
      case DeleteSnapshot(s) =>
    }
  }

  /** A later clock keeps every planned deletion and can add only workspace deletions. */
  lemma LaterPlansMore(m: Metadata, now: Time, later: Time, policy: GcPolicy)
    requires WellKeyed(m) && now <= later
    ensures forall a | a in Plan(m, now, policy) :: a in Plan(m, later, policy)
    ensures forall s :: DeleteSnapshot(s) in Plan(m, later, policy) ==> DeleteSnapshot(s) in Plan(m, now, policy)
  {
    hide Plan, Rank;
    PlanMeaning(m, now, policy);
    PlanMeaning(m, later, policy);
    forall a | a in Plan(m, now, policy) ensures a in Plan(m, later, policy) {
      match a
      case DeleteWorkspace(w) =>
      case DeleteSnapshot(s) =>
    }
  }

  /**
   * The age of a deleted workspace runs from its last session, not from its deletion: deleting it
   * makes it due at once exactly when that session is already old enough.
   */
  lemma DeletionGivesNoGrace(p: Plane, w: Id, now: Time, policy: GcPolicy)
    requires Inv(p) && w in p.meta.workspaces
    ensures DeleteWorkspace(w) in Plan(MarkDeleted(p, w).plane.meta, now, policy)
      <==> policy.after == 0 || now - p.meta.workspaces[w].lastAccessed >= policy.after
  {
    hide Plan;
    MarkKeepsInv(p, w);
    PlanMeaning(MarkDeleted(p, w).plane.meta, now, policy);
  }

  // ---- Arbitrary action lists ----

  /**
   * Any list of actions, with any faults, either runs to the end or stops at its first failing action
   * and leaves exactly the plane the actions before it made.
   */
  lemma {:induction false} ExecuteStopsAtFirstError(p: Plane, actions: seq<GcAction>, faults: seq<Fault>)
    ensures var r := Execute(p, actions, faults);
      r.result.Err? ==> exists i | 0 <= i < |actions| :: FailsAt(p, actions, faults, i, r)
    decreases |actions|
  {
    hide RunAction;
    var r := Execute(p, actions, faults);
    if r.result.Err? {
      var first := RunAction(p, actions[0], At(faults, 0));
      if first.result.Err? {
        FailedActionIsNeutral(p, actions[0], At(faults, 0));
        assert actions[..0] == [];
        assert FailsAt(p, actions, faults, 0, r);
      } else {
        var rest := if faults == [] then [] else faults[1..];
        ExecuteStopsAtFirstError(first.plane, actions[1..], rest);
        var i :| 0 <= i < |actions[1..]| && FailsAt(first.plane, actions[1..], rest, i, r);
        assert actions[..i + 1][0] == actions[0] && actions[..i + 1][1..] == actions[1..][..i];
        assert At(rest, i) == At(faults, i + 1);
        assert FailsAt(p, actions, faults, i + 1, r);
      }
    }
  }

  ghost predicate FailsAt(p: Plane, actions: seq<GcAction>, faults: seq<Fault>, i: nat, r: Outcome<()>)
    requires i < |actions|
  {
    var before := Execute(p, actions[..i], faults);
    before.result.Ok? && r.plane == before.plane && r == RunAction(before.plane, actions[i], At(faults, i))
  }

  lemma FailedActionIsNeutral(p: Plane, a: GcAction, fault: Fault)
    requires RunAction(p, a, fault).result.Err?
    ensures RunAction(p, a, fault).plane == p
  {
  }

  /** The action deletes `s`, was reached, went through, and found no workspace branched from `s`. */
  ghost predicate LosesAt(p: Plane, actions: seq<GcAction>, faults: seq<Fault>, i: nat, s: Id)
    requires i < |actions|
  {
    var before := Execute(p, actions[..i], faults);
    && actions[i] == DeleteSnapshot(s)
    && before.result.Ok?
    && RunAction(before.plane, actions[i], At(faults, i)).result.Ok?
    && !IsParent(before.plane.meta, s)
  }

  /** A snapshot that goes was no parent when its action was reached. */
  lemma {:induction false} LostSnapshotWasFree(p: Plane, actions: seq<GcAction>, faults: seq<Fault>, s: Id)
    requires s in p.meta.snapshots && s !in Execute(p, actions, faults).plane.meta.snapshots
    ensures exists i | 0 <= i < |actions| :: LosesAt(p, actions, faults, i, s)
    decreases |actions|
  {
    var first := RunAction(p, actions[0], At(faults, 0));
    if s !in first.plane.meta.snapshots {
      assert actions[..0] == [];
      assert Execute(p, actions[..0], faults).plane == p;
      assert LosesAt(p, actions, faults, 0, s);
    } else {
      hide RunAction;
      var rest := if faults == [] then [] else faults[1..];
      LostSnapshotWasFree(first.plane, actions[1..], rest, s);
      var i :| 0 <= i < |actions[1..]| && LosesAt(first.plane, actions[1..], rest, i, s);
      assert actions[..i + 1][0] == actions[0] && actions[..i + 1][1..] == actions[1..][..i];
      assert Execute(p, actions[..i + 1], faults) == Execute(first.plane, actions[1..][..i], rest);
      assert At(rest, i) == At(faults, i + 1);
      assert LosesAt(p, actions, faults, i + 1, s);
    }
  }
}
