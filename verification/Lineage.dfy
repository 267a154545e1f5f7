/**
 * Lineage: following a workspace to the workspace its parent snapshot was taken from. When that walk
 * stops, which step can make it loop, and which runs never do.
 */
module Lineage {
  import opened Prelude
  import opened Ids
  import opened Model
  import opened Storage
  import opened Gc
  import opened Plane
  import opened Runs

  /** The source of the parent snapshot. */
  function Ancestor(m: Metadata, w: Id): Option<Id> {
    if w in m.workspaces && m.workspaces[w].parent.Some? && m.workspaces[w].parent.value in m.snapshots
    then Some(m.snapshots[m.workspaces[w].parent.value].source)
    else None
  }

  /** The workspace `n` steps up, if the walk gets that far. */
  function Up(m: Metadata, w: Id, n: nat): Option<Id>
    decreases n
  {
    if n == 0 then Some(w)
    else if Ancestor(m, w).None? then None
    else Up(m, Ancestor(m, w).value, n - 1)
  }

  ghost predicate Acyclic(m: Metadata) {
    forall w, n: nat | n > 0 :: Up(m, w, n) != Some(w)
  }

  ghost predicate Reaches(m: Metadata, a: Id, b: Id) {
    exists n: nat :: Up(m, a, n) == Some(b)
  }

  lemma {:induction false} UpAdds(m: Metadata, w: Id, a: nat, b: nat)
    requires Up(m, w, a).Some?
    ensures Up(m, w, a + b) == Up(m, Up(m, w, a).value, b)
    decreases a
  {
    if a > 0 { UpAdds(m, Ancestor(m, w).value, a - 1, b); }
  }

  lemma {:induction false} UpIsSomeBelow(m: Metadata, w: Id, a: nat, b: nat)
    requires a <= b && Up(m, w, b).Some?
    ensures Up(m, w, a).Some?
    decreases a
  {
    if a > 0 { UpIsSomeBelow(m, Ancestor(m, w).value, a - 1, b - 1); }
  }

  // ---- Acyclic is the same as every walk stopping ----

  lemma {:induction false} LoopNeverStops(m: Metadata, w: Id, n: nat, k: nat)
    requires n > 0 && Up(m, w, n) == Some(w)
    ensures Up(m, w, k).Some?
  {
    if k <= n {
      UpIsSomeBelow(m, w, k, n);
    } else {
      LoopNeverStops(m, w, n, k - n);
      UpAdds(m, w, n, k - n);
    }
  }

  ghost function Visited(m: Metadata, w: Id, n: nat): set<Id> {
    set i | 0 <= i < n && Up(m, w, i).Some? :: Up(m, w, i).value
  }

  lemma {:induction false} VisitedAreDistinct(m: Metadata, w: Id, n: nat)
    requires Acyclic(m) && Up(m, w, n).Some?
    ensures |Visited(m, w, n)| == n
    ensures Visited(m, w, n) <= m.workspaces.Keys
  {
    if n > 0 {
      UpIsSomeBelow(m, w, n - 1, n);
      VisitedAreDistinct(m, w, n - 1);
      var last := Up(m, w, n - 1).value;
      UpAdds(m, w, n - 1, 1);
      assert Up(m, last, 1) == if Ancestor(m, last).None? then None else Up(m, Ancestor(m, last).value, 0);
      if last in Visited(m, w, n - 1) {
        var i :| 0 <= i < n - 1 && Up(m, w, i) == Some(last);
        UpAdds(m, w, i, n - 1 - i);
      }
      assert Visited(m, w, n) == Visited(m, w, n - 1) + {last};
    }
  }

  /** The walk has stopped after one step per workspace and one more. */
  ghost predicate WalkStops(m: Metadata, w: Id) {
    Up(m, w, |m.workspaces| + 1).None?
  }

  /** The metadata is acyclic exactly when every walk stops. */
  lemma AcyclicMeansWalksStop(m: Metadata)
    ensures Acyclic(m) <==> forall w :: WalkStops(m, w)
  {
    var k := |m.workspaces| + 1;
    if Acyclic(m) {
      forall w ensures WalkStops(m, w) {
        if Up(m, w, k).Some? {
          VisitedAreDistinct(m, w, k);
          SubsetIsSmaller(Visited(m, w, k), m.workspaces.Keys);
        }
      }
    } else {
      var w, n: nat :| n > 0 && Up(m, w, n) == Some(w);
      LoopNeverStops(m, w, n, k);
      assert !WalkStops(m, w);
    }
  }

  // ---- How a change of edges affects walks ----

  /** Every edge of `after` is an edge of `before`. */
  ghost predicate FewerEdges(before: Metadata, after: Metadata) {
    forall w :: Ancestor(after, w) == None || Ancestor(after, w) == Ancestor(before, w)
  }

  lemma {:induction false} FewerEdgesWalk(before: Metadata, after: Metadata, w: Id, n: nat)
    requires FewerEdges(before, after) && Up(after, w, n).Some?
    ensures Up(before, w, n) == Up(after, w, n)
    decreases n
  {
    if n > 0 { FewerEdgesWalk(before, after, Ancestor(after, w).value, n - 1); }
  }

  lemma FewerEdgesKeepAcyclic(before: Metadata, after: Metadata)
    requires FewerEdges(before, after) && Acyclic(before)
    ensures Acyclic(after)
  {
    forall w, n: nat | n > 0 ensures Up(after, w, n) != Some(w) {
      if Up(after, w, n) == Some(w) { FewerEdgesWalk(before, after, w, n); }
    }
  }

  /** `after` has the edges of `before` and one from `w`, which had none, to `x`. */
  ghost predicate AddsEdge(before: Metadata, after: Metadata, w: Id, x: Id) {
    && Ancestor(before, w) == None
    && Ancestor(after, w) == Some(x)
    && forall v | v != w :: Ancestor(after, v) == Ancestor(before, v)
  }

  lemma {:induction false} OldWalksRemain(before: Metadata, after: Metadata, w: Id, x: Id, v: Id, n: nat)
    requires AddsEdge(before, after, w, x) && Up(before, v, n).Some?
    ensures Up(after, v, n) == Up(before, v, n)
    decreases n
  {
    if n > 0 { OldWalksRemain(before, after, w, x, Ancestor(before, v).value, n - 1); }
  }

  /** A walk of `after` that is no walk of `before` meets `w`. */
  lemma {:induction false} NewWalkMeets(before: Metadata, after: Metadata, w: Id, x: Id, v: Id, n: nat) returns (i: nat)
    requires AddsEdge(before, after, w, x) && Up(after, v, n) != Up(before, v, n)
    ensures i < n && Up(after, v, i) == Some(w)
    decreases n
  {
    if v == w {
      i := 0;
    } else {
      i := NewWalkMeets(before, after, w, x, Ancestor(before, v).value, n - 1);
      i := i + 1;
    }
  }

  /** What reaches `w` in `after` reached it in `before`. */
  lemma {:induction false} ReachedBefore(before: Metadata, after: Metadata, w: Id, x: Id, v: Id, n: nat)
    requires AddsEdge(before, after, w, x) && Up(after, v, n) == Some(w)
    ensures Reaches(before, v, w)
    decreases n
  {
    if v == w {
      assert Up(before, v, 0) == Some(w);
    } else {
      var a := Ancestor(before, v).value;
      ReachedBefore(before, after, w, x, a, n - 1);
      var k: nat :| Up(before, a, k) == Some(w);
      assert Up(before, v, k + 1) == Some(w);
    }
  }

  lemma EdgeClosesLoop(before: Metadata, after: Metadata, w: Id, x: Id)
    requires AddsEdge(before, after, w, x) && Acyclic(before)
    ensures Acyclic(after) <==> !Reaches(before, x, w)
  {
    if Reaches(before, x, w) {
      var n: nat :| Up(before, x, n) == Some(w);
      OldWalksRemain(before, after, w, x, x, n);
      assert Up(after, w, n + 1) == Some(w);
    }
    if !Acyclic(after) {
      var v, n: nat :| n > 0 && Up(after, v, n) == Some(v);
      var i := NewWalkMeets(before, after, w, x, v, n);
      UpAdds(after, v, n, i);
      UpAdds(after, v, i, n);
      assert Up(after, x, n - 1) == Some(w);
      ReachedBefore(before, after, w, x, x, n - 1);
    }
  }

  // ---- Steps ----

  lemma ActionEdges(p: Plane, action: GcAction, fault: Fault)
    ensures FewerEdges(p.meta, RunAction(p, action, fault).plane.meta)
  {
  }

  lemma {:induction false} ExecuteEdges(p: Plane, actions: seq<GcAction>, faults: seq<Fault>)
    ensures FewerEdges(p.meta, Execute(p, actions, faults).plane.meta)
    decreases |actions|
  {
    hide RunAction, Ancestor;
    if actions != [] {
      var f := if faults == [] then Works else faults[0];
      ActionEdges(p, actions[0], f);
      var first := RunAction(p, actions[0], f);
      if first.result.Ok? { ExecuteEdges(first.plane, actions[1..], if faults == [] then [] else faults[1..]); }
    }
  }

  ghost predicate Branches(p: Plane, e: Event) {
    e.command.Branch? && Step(p, e).result.Ok?
  }

  lemma OtherStepEdges(p: Plane, e: Event)
    requires Linked(p.meta, p.defaultPolicy) && !Branches(p, e)
    ensures FewerEdges(p.meta, Step(p, e).plane.meta)
  {
    hide Execute, PurgeWorkspace, PurgeSnapshot, WorkspacePath, SnapshotPath;
    match e.command
    case Purge(w) => ActionEdges(p, DeleteWorkspace(w), At(e.faults, 0));
    case PurgeSnap(s) => ActionEdges(p, DeleteSnapshot(s), At(e.faults, 0));
    case Collect(actions) => ExecuteEdges(p, actions, e.faults);
    case _ =>
  }

  lemma BranchEdges(p: Plane, e: Event)
    requires Branches(p, e)
    ensures e.command.s in p.meta.snapshots && e.command.w !in p.meta.workspaces
    ensures AddsEdge(p.meta, Step(p, e).plane.meta, e.command.w, p.meta.snapshots[e.command.s].source)
  {
  }

  /**
   * A step makes an acyclic lineage cyclic exactly when it branches into an id that the walk from the
   * snapshot's source already meets.
   */
  lemma StepAcyclic(p: Plane, e: Event)
    requires Inv(p) && Acyclic(p.meta)
    ensures Acyclic(Step(p, e).plane.meta) <==>
      !(Branches(p, e) && e.command.s in p.meta.snapshots && Reaches(p.meta, p.meta.snapshots[e.command.s].source, e.command.w))
  {
    hide Acyclic, Reaches, Step;
    if Branches(p, e) {
      BranchEdges(p, e);
      EdgeClosesLoop(p.meta, Step(p, e).plane.meta, e.command.w, p.meta.snapshots[e.command.s].source);
    } else {
      OtherStepEdges(p, e);
      FewerEdgesKeepAcyclic(p.meta, Step(p, e).plane.meta);
    }
  }

  // ---- Runs ----

  /** The ids that have ever named a workspace. */
  ghost function Born(p: Plane, events: seq<Event>, n: nat): set<Id>
    requires n <= |events|
  {
    After(p, events, n).meta.workspaces.Keys + if n == 0 then {} else Born(p, events, n - 1)
  }

  lemma ActionSources(p: Plane, action: GcAction, fault: Fault)
    ensures Sources(RunAction(p, action, fault).plane.meta) <= Sources(p.meta)
  {
  }

  lemma {:induction false} ExecuteSources(p: Plane, actions: seq<GcAction>, faults: seq<Fault>)
    ensures Sources(Execute(p, actions, faults).plane.meta) <= Sources(p.meta)
    decreases |actions|
  {
    hide RunAction, Sources;
    if actions != [] {
      var f := if faults == [] then Works else faults[0];
      ActionSources(p, actions[0], f);
      var first := RunAction(p, actions[0], f);
      if first.result.Ok? { ExecuteSources(first.plane, actions[1..], if faults == [] then [] else faults[1..]); }
    }
  }

  lemma StepSources(p: Plane, e: Event)
    requires WellKeyed(p.meta)
    ensures Sources(Step(p, e).plane.meta) <= Sources(p.meta) + p.meta.workspaces.Keys
  {
    if e.command.Collect? { ExecuteSources(p, e.command.actions, e.faults); }
  }

  lemma {:induction false} ReachedIsSource(m: Metadata, x: Id, n: nat, w: Id)
    requires Up(m, x, n) == Some(w) && x in Sources(m)
    ensures w in Sources(m)
    decreases n
  {
    if n > 0 { ReachedIsSource(m, Ancestor(m, x).value, n - 1, w); }
  }

  /** No branch is made into an id that named a workspace before. */
  ghost predicate NeverReuses(p: Plane, events: seq<Event>, n: nat)
    requires n <= |events|
  {
    forall i | 0 <= i < n && events[i].command.Branch? :: events[i].command.w !in Born(p, events, i)
  }

  lemma NewPlaneAcyclic(p: Plane)
    requires p.meta.workspaces == map[] && p.meta.snapshots == map[]
    ensures Acyclic(p.meta)
  {
    forall w, n: nat | n > 0 ensures Up(p.meta, w, n) != Some(w) {
      assert Ancestor(p.meta, w) == None;
    }
  }

  /**
   * Every run, with any faults, that never branches into a used workspace id keeps the lineage
   * acyclic. Snapshot ids, and ids of purged workspaces created afresh, may be reused.
   */
  lemma {:induction false} RunAcyclic(root: Path, profile: NixProfile, policy: NetworkPolicy, events: seq<Event>, n: nat)
    requires n <= |events| && NeverReuses(NewPlane(root, profile, policy), events, n)
    ensures var p0 := NewPlane(root, profile, policy);
      Acyclic(After(p0, events, n).meta) && Sources(After(p0, events, n).meta) <= Born(p0, events, n)
  {
    hide Acyclic, Step, Linked, Rooted, Recorded, Ancestor, Sources, NewPlane;
    var p0 := NewPlane(root, profile, policy);
    if n == 0 {
      StartsEmpty(root, profile, policy);
      NewPlaneAcyclic(p0);
    } else {
      RunAcyclic(root, profile, policy, events, n - 1);
      NewPlaneInv(root, profile, policy);
      RunKeepsInv(p0, events, n - 1);
      var p, e := After(p0, events, n - 1), events[n - 1];
      StepSources(p, e);
      StepAcyclic(p, e);
      if Branches(p, e) { BranchEdges(p, e); }
      if Branches(p, e) && Reaches(p.meta, p.meta.snapshots[e.command.s].source, e.command.w) {
        var k: nat :| Up(p.meta, p.meta.snapshots[e.command.s].source, k) == Some(e.command.w);
        SourceOf(p.meta, e.command.s);
        ReachedIsSource(p.meta, p.meta.snapshots[e.command.s].source, k, e.command.w);
      }
    }
  }

  lemma StartsEmpty(root: Path, profile: NixProfile, policy: NetworkPolicy)
    ensures var m := NewPlane(root, profile, policy).meta; m.workspaces == map[] && m.snapshots == map[] && Sources(m) == {}
  {
  }

  lemma SourceOf(m: Metadata, s: Id)
    requires s in m.snapshots
    ensures m.snapshots[s].source in Sources(m)
  {
  }

  // ---- Reuse does make a loop ----

  /** Snapshot `a`, branch `b` from it, snapshot `b`, purge `a` and branch it back from `b`'s snapshot. */
  function LoopingRun(now: Time): seq<Event> {
    [ Event(Create("a", "x"), now, []),
      Event(TakeSnapshot("a", "s"), now, []),
      Event(Branch("s", "b", "x"), now, []),
      Event(TakeSnapshot("b", "t"), now, []),
      Event(SoftDelete("a"), now, []),
      Event(Purge("a"), now, []),
      Event(Branch("t", "a", "x"), now, [])]
  }

  /** The first four commands: two ready workspaces, each with a snapshot, the second branched from the first. */
  lemma LoopingRunBuilds(root: Path, profile: NixProfile, policy: NetworkPolicy, now: Time)
    ensures var p := After(NewPlane(root, profile, policy), LoopingRun(now), 4);
      && p.meta.workspaces.Keys == p.storage.workspaces.Keys == {"a", "b"}
      && p.meta.snapshots.Keys == p.storage.snapshots.Keys == {"s", "t"}
      && p.meta.snapshots["s"].source == "a" && p.meta.snapshots["t"].source == "b"
      && p.meta.workspaces["b"].parent == Some("s")
  {
    hide WorkspacePath, SnapshotPath;
    var p0, r := NewPlane(root, profile, policy), LoopingRun(now);
    assert After(p0, r, 1) == CreateWorkspace(p0, "a", "x", now, Works, Works).plane;
    assert After(p0, r, 2) == SnapshotWorkspace(After(p0, r, 1), "a", "s", now, Works).plane;
    assert After(p0, r, 3) == BranchWorkspace(After(p0, r, 2), "s", "b", "x", now, Works, Works).plane;
    assert After(p0, r, 4) == SnapshotWorkspace(After(p0, r, 3), "b", "t", now, Works).plane;
  }

  /** Deleting and purging `a` and branching it back from `t` closes the loop. */
  lemma LoopCloses(p: Plane, now: Time)
    requires p.meta.workspaces.Keys == p.storage.workspaces.Keys == {"a", "b"}
    requires p.meta.snapshots.Keys == p.storage.snapshots.Keys == {"s", "t"}
    requires p.meta.snapshots["s"].source == "a" && p.meta.snapshots["t"].source == "b"
    requires p.meta.workspaces["b"].parent == Some("s")
    ensures var m := BranchWorkspace(PurgeWorkspace(MarkDeleted(p, "a").plane, "a", Works).plane, "t", "a", "x", now, Works, Works).plane.meta;
      Ancestor(m, "a") == Some("b") && Ancestor(m, "b") == Some("a")
  {
    hide WorkspacePath;
    var q := PurgeWorkspace(MarkDeleted(p, "a").plane, "a", Works).plane;
    assert q.meta.workspaces.Keys == q.storage.workspaces.Keys == {"b"} && q.meta.workspaces["b"] == p.meta.workspaces["b"];
  }

  /** With reuse of a purged id a run of seven successful commands makes `a` its own grandparent. */
  lemma ReuseMakesLoop(root: Path, profile: NixProfile, policy: NetworkPolicy, now: Time)
    ensures !Acyclic(After(NewPlane(root, profile, policy), LoopingRun(now), 7).meta)
  {
    hide NewPlane, MarkDeleted, PurgeWorkspace, BranchWorkspace, Ancestor;
    var p0, r := NewPlane(root, profile, policy), LoopingRun(now);
    LoopingRunBuilds(root, profile, policy, now);
    LoopCloses(After(p0, r, 4), now);
    assert After(p0, r, 5) == MarkDeleted(After(p0, r, 4), "a").plane;
    assert After(p0, r, 6) == PurgeWorkspace(After(p0, r, 5), "a", Works).plane;
    assert After(p0, r, 7) == BranchWorkspace(After(p0, r, 6), "t", "a", "x", now, Works, Works).plane;
    var m := After(p0, r, 7).meta;
    assert Up(m, "b", 1) == Some("a");
    assert Up(m, "a", 2) == Some("a");
  }
}
