/** What every run of the control plane keeps, with any pattern of backend and executor failures. */
module Runs {
  import opened Prelude
  import opened Ids
  import opened Model
  import opened Storage
  import opened Gc
  import opened Plane

  datatype Command =
    | Create(w: Id, agent: Id)
    | TakeSnapshot(w: Id, s: Id)
    | Branch(s: Id, w: Id, agent: Id)
    | SoftDelete(w: Id)
    | Purge(w: Id)
    | PurgeSnap(s: Id)
    | Collect(actions: seq<GcAction>)
    | Limit(w: Id, limits: ResourceLimits)
    | Police(w: Id, policy: NetworkPolicy)
    | Open(w: Id, session: Id, request: SessionRequest)

  /** A command, the clock it reads, and the faults its outside calls meet, in order. */
  datatype Event = Event(command: Command, now: Time, faults: seq<Fault>)

  function At(faults: seq<Fault>, i: nat): Fault {
    if i < |faults| then faults[i] else Works
  }

  function Done<T>(o: Outcome<T>): Outcome<()> {
    Outcome(o.plane, if o.result.Ok? then Ok(()) else Err(o.result.error))
  }

  function Step(p: Plane, e: Event): Outcome<()> {
    var f, g := At(e.faults, 0), At(e.faults, 1);
    match e.command
    case Create(w, agent) => Done(CreateWorkspace(p, w, agent, e.now, f, g))
    case TakeSnapshot(w, s) => Done(SnapshotWorkspace(p, w, s, e.now, f))
    case Branch(s, w, agent) => Done(BranchWorkspace(p, s, w, agent, e.now, f, g))
    case SoftDelete(w) => MarkDeleted(p, w)
    case Purge(w) => PurgeWorkspace(p, w, f)
    case PurgeSnap(s) => PurgeSnapshot(p, s, f)
    case Collect(actions) => Execute(p, actions, e.faults)
    case Limit(w, limits) => SetLimits(p, w, limits, f)
    case Police(w, policy) => SetNetworkPolicy(p, w, policy)
    case Open(w, session, request) => Done(OpenSession(p, w, session, request, e.now, f))
  }

  /** The plane after the first `n` events. */
  function After(p: Plane, events: seq<Event>, n: nat): Plane
    requires n <= |events|
  {
    if n == 0 then p else Step(After(p, events, n - 1), events[n - 1]).plane
  }

  // ---- The invariant ----

  ghost predicate Linked(m: Metadata, defaultPolicy: Id) {
    && (forall w | w in m.workspaces && m.workspaces[w].parent.Some? :: m.workspaces[w].parent.value in m.snapshots)
    && (forall w | w in m.workspaces :: m.workspaces[w].networkPolicy in m.policies)
    && defaultPolicy in m.policies
  }

  /** Every record's root is the path the backend holds for it, and that path is the canonical one. */
  ghost predicate Rooted(m: Metadata, st: Stored) {
    && m.workspaces.Keys <= st.workspaces.Keys
    && m.snapshots.Keys == st.snapshots.Keys
    && (forall w | w in m.workspaces :: m.workspaces[w].root == st.workspaces[w])
    && (forall s | s in m.snapshots :: m.snapshots[s].root == st.snapshots[s])
    && (forall w | w in st.workspaces :: st.workspaces[w] == WorkspacePath(st.root, w))
    && (forall s | s in st.snapshots :: st.snapshots[s] == SnapshotPath(st.root, s))
  }

  /** Every recorded request is for a ready workspace, under the policy that workspace names. */
  ghost predicate Recorded(p: Plane) {
    forall id | id in p.sessions ::
      var r := p.sessions[id];
      r.sessionId == id && r.workspace.state == Ready && r.policy.id == r.workspace.networkPolicy && r.profile == p.profile
  }

  ghost predicate Inv(p: Plane) {
    WellKeyed(p.meta) && Linked(p.meta, p.defaultPolicy) && Rooted(p.meta, p.storage) && Recorded(p)
  }

  lemma NewPlaneInv(root: Path, profile: NixProfile, policy: NetworkPolicy)
    ensures Inv(NewPlane(root, profile, policy))
  {
  }

  lemma RunActionKeepsInv(p: Plane, action: GcAction, fault: Fault)
    requires Inv(p)
    ensures Inv(RunAction(p, action, fault).plane)
  {
  }

  lemma {:induction false} ExecuteKeepsInv(p: Plane, actions: seq<GcAction>, faults: seq<Fault>)
    requires Inv(p)
    ensures Inv(Execute(p, actions, faults).plane)
    decreases |actions|
  {
    if actions != [] {
      var f := if faults == [] then Works else faults[0];
      RunActionKeepsInv(p, actions[0], f);
      var first := RunAction(p, actions[0], f);
      if first.result.Ok? {
        ExecuteKeepsInv(first.plane, actions[1..], if faults == [] then [] else faults[1..]);
      }
    }
  }

  lemma PutKeepsInv(p: Plane, w: Id, record: Workspace)
    requires Inv(p) && record.id == w && w in p.storage.workspaces && record.root == p.storage.workspaces[w]
    requires record.parent.Some? ==> record.parent.value in p.meta.snapshots
    requires record.networkPolicy in p.meta.policies
    ensures Inv(PutWorkspace(p, w, record))
  {
    hide WorkspacePath, SnapshotPath;
  }

  lemma FinishKeepsInv(p: Plane, w: Id, agent: Id, parent: Option<Id>, now: Time, quota: Fault)
    requires Inv(p) && w !in p.storage.workspaces && (parent.Some? ==> parent.value in p.meta.snapshots)
    ensures var (stored, root) := p.storage.CreateWorkspace(w, Works);
      Inv(FinishWorkspace(p, stored, root, w, agent, parent, now, quota).plane)
  {
    var (stored, root) := p.storage.CreateWorkspace(w, Works);
    var q := p.(storage := stored);
    assert Inv(q);
    PutKeepsInv(q, w, FreshWorkspace(p, w, agent, root.value, parent, now));
  }

  lemma SnapshotKeepsInv(p: Plane, w: Id, s: Id, now: Time, made: Fault)
    requires Inv(p)
    ensures Inv(SnapshotWorkspace(p, w, s, now, made).plane)
  {
    hide WorkspacePath, SnapshotPath;
  }

  lemma SetPolicyKeepsInv(p: Plane, w: Id, policy: NetworkPolicy)
    requires Inv(p)
    ensures Inv(SetNetworkPolicy(p, w, policy).plane)
  {
    if ReadyWorkspace(p.meta, w).Ok? {
      var q := p.(meta := p.meta.(policies := p.meta.policies[policy.id := policy]));
      assert Inv(q);
      PutKeepsInv(q, w, p.meta.workspaces[w].(networkPolicy := policy.id));
    }
  }

  lemma OpenKeepsInv(p: Plane, w: Id, session: Id, request: SessionRequest, now: Time, executor: Fault)
    requires Inv(p)
    ensures Inv(OpenSession(p, w, session, request, now, executor).plane)
  {
    if ReadyWorkspace(p.meta, w).Ok? {
      PutKeepsInv(p, w, p.meta.workspaces[w].(lastAccessed := now));
    }
  }

  lemma CreateKeepsInv(p: Plane, w: Id, agent: Id, now: Time, made: Fault, quota: Fault)
    requires Inv(p)
    ensures Inv(CreateWorkspace(p, w, agent, now, made, quota).plane)
  {
    if w !in p.storage.workspaces { FinishKeepsInv(p, w, agent, None, now, quota); }
  }

  lemma BranchKeepsInv(p: Plane, s: Id, w: Id, agent: Id, now: Time, made: Fault, quota: Fault)
    requires Inv(p)
    ensures Inv(BranchWorkspace(p, s, w, agent, now, made, quota).plane)
  {
    if w !in p.storage.workspaces && s in p.meta.snapshots { FinishKeepsInv(p, w, agent, Some(s), now, quota); }
  }

  lemma MarkKeepsInv(p: Plane, w: Id)
    requires Inv(p)
    ensures Inv(MarkDeleted(p, w).plane)
  {
    if w in p.meta.workspaces { PutKeepsInv(p, w, p.meta.workspaces[w].(state := Deleted)); }
  }

  lemma LimitKeepsInv(p: Plane, w: Id, limits: ResourceLimits, quota: Fault)
    requires Inv(p)
    ensures Inv(SetLimits(p, w, limits, quota).plane)
  {
    if w in p.meta.workspaces { PutKeepsInv(p, w, p.meta.workspaces[w].(limits := limits)); }
  }

  lemma StepKeepsInv(p: Plane, e: Event)
    requires Inv(p)
    ensures Inv(Step(p, e).plane)
  {
    hide Inv, CreateWorkspace, SnapshotWorkspace, BranchWorkspace, MarkDeleted, PurgeWorkspace, PurgeSnapshot, Execute,
      SetLimits, SetNetworkPolicy, OpenSession;
    var f, g := At(e.faults, 0), At(e.faults, 1);
    match e.command
    case Create(w, agent) => CreateKeepsInv(p, w, agent, e.now, f, g);
    case TakeSnapshot(w, s) => SnapshotKeepsInv(p, w, s, e.now, f);
    case Branch(s, w, agent) => BranchKeepsInv(p, s, w, agent, e.now, f, g);
    case SoftDelete(w) => MarkKeepsInv(p, w);
    case Purge(w) => RunActionKeepsInv(p, DeleteWorkspace(w), f);
    case PurgeSnap(s) => RunActionKeepsInv(p, DeleteSnapshot(s), f);
    case Collect(actions) => ExecuteKeepsInv(p, actions, e.faults);
    case Limit(w, limits) => LimitKeepsInv(p, w, limits, f);
    case Police(w, policy) => SetPolicyKeepsInv(p, w, policy);
    case Open(w, session, request) => OpenKeepsInv(p, w, session, request, e.now, f);
  }

  /** The invariant holds after every prefix of every run. */
  lemma {:induction false} RunKeepsInv(p: Plane, events: seq<Event>, n: nat)
    requires Inv(p) && n <= |events|
    ensures Inv(After(p, events, n))
  {
    hide Step, Inv;
    if n > 0 {
      RunKeepsInv(p, events, n - 1);
      StepKeepsInv(After(p, events, n - 1), events[n - 1]);
    }
  }

  // ---- What a step does to records ----

  /**
   * Whatever list of actions is executed, entries only disappear: a workspace that goes was
   * soft-deleted and is on the list, and every other part of the plane is as it was.
   */
  lemma {:induction false} ExecuteIsSafe(p: Plane, actions: seq<GcAction>, faults: seq<Fault>)
    ensures var q := Execute(p, actions, faults).plane;
      && (forall w | w in p.meta.workspaces :: if w in q.meta.workspaces then q.meta.workspaces[w] == p.meta.workspaces[w]
          else p.meta.workspaces[w].state == Deleted && DeleteWorkspace(w) in actions)
      && q.meta.workspaces.Keys <= p.meta.workspaces.Keys && q.meta.snapshots.Keys <= p.meta.snapshots.Keys
      && (forall s | s in q.meta.snapshots :: q.meta.snapshots[s] == p.meta.snapshots[s])
      && q == p.(meta := p.meta.(workspaces := q.meta.workspaces, snapshots := q.meta.snapshots), storage := q.storage)
    decreases |actions|
  {
    if actions != [] {
      var first := RunAction(p, actions[0], At(faults, 0));
      ActionIsSafe(p, actions[0], At(faults, 0));
      hide RunAction;
      if first.result.Ok? {
        ExecuteIsSafe(first.plane, actions[1..], if faults == [] then [] else faults[1..]);
      }
    }
  }

  lemma ActionIsSafe(p: Plane, a: GcAction, fault: Fault)
    ensures var q := RunAction(p, a, fault).plane;
      && (forall w | w in p.meta.workspaces :: if w in q.meta.workspaces then q.meta.workspaces[w] == p.meta.workspaces[w]
          else p.meta.workspaces[w].state == Deleted && a == DeleteWorkspace(w))
      && q.meta.workspaces.Keys <= p.meta.workspaces.Keys && q.meta.snapshots.Keys <= p.meta.snapshots.Keys
      && (forall s | s in q.meta.snapshots :: q.meta.snapshots[s] == p.meta.snapshots[s])
      && q == p.(meta := p.meta.(workspaces := q.meta.workspaces, snapshots := q.meta.snapshots), storage := q.storage)
  {
  }

  /** The workspace a create or branch is to make. */
  function Target(c: Command): Option<Id> {
    match c
    case Create(w, _) => Some(w)
    case Branch(_, w, _) => Some(w)
    case _ => None
  }

  /** What an event makes of a record it leaves in place; of a deleted workspace's, nothing. */
  ghost function Edited(w: Workspace, e: Event): Workspace {
    if w.state == Deleted then w
    else
      match e.command
      case SoftDelete(x) => if x == w.id then w.(state := Deleted) else w
      case Limit(x, limits) => if x == w.id && At(e.faults, 0).Works? then w.(limits := limits) else w
      case Police(x, policy) => if x == w.id then w.(networkPolicy := policy.id) else w
      case Open(x, _, _) => if x == w.id then w.(lastAccessed := e.now) else w
      case _ => w
  }

  /** A record that was not there: a ready workspace under the default policy, with the parent it was branched from. */
  ghost predicate MadeNow(p: Plane, e: Event, w: Workspace) {
    && Target(e.command) == Some(w.id)
    && w.parent == (if e.command.Branch? then Some(e.command.s) else None)
    && w.agent == (if e.command.Branch? || e.command.Create? then e.command.agent else "")
    && w.root == WorkspacePath(p.storage.root, w.id)
    && w.limits == ResourceLimits(100, 2 * 1024 * 1024 * 1024, 256, 10 * 1024 * 1024 * 1024)
    && w.networkPolicy == p.defaultPolicy && w.state == Ready
    && w.createdAt == w.lastAccessed == e.now
  }

  /** A workspace that stays is edited, a new one was made by this command, and one that goes was deleted. */
  ghost predicate WorkspaceFate(p: Plane, e: Event, w: Id) {
    var o := Step(p, e);
    var before, after := p.meta.workspaces, o.plane.meta.workspaces;
    && (w in before && w in after ==> after[w] == Edited(before[w], e))
    && (w !in before && w in after ==> o.result.Ok? && after[w].id == w && MadeNow(p, e, after[w]))
    && (w in before && w !in after ==> before[w].state == Deleted)
  }

  /** A snapshot that stays is as it was, and a new one was taken by this command, of its source. */
  ghost predicate SnapshotFate(p: Plane, e: Event, s: Id) {
    var o := Step(p, e);
    var before, after := p.meta.snapshots, o.plane.meta.snapshots;
    && (s in before && s in after ==> after[s] == before[s])
    && (s !in before && s in after ==>
          && o.result.Ok?
          && e.command == TakeSnapshot(after[s].source, s)
          && after[s] == Snapshot(s, after[s].source, SnapshotPath(p.storage.root, s), e.now))
  }

  lemma StepFates(p: Plane, e: Event, id: Id)
    requires Inv(p)
    ensures WorkspaceFate(p, e, id) && SnapshotFate(p, e, id)
  {
    hide Execute, PurgeWorkspace, PurgeSnapshot, Linked, Rooted, Recorded, SnapshotPath;
    match e.command
    case Collect(actions) => ExecuteIsSafe(p, actions, e.faults);
    case Purge(w) => ActionIsSafe(p, DeleteWorkspace(w), At(e.faults, 0));
    case PurgeSnap(s) => ActionIsSafe(p, DeleteSnapshot(s), At(e.faults, 0));
    case Create(_, _) => MakeFates(p, e, id);
    case Branch(_, _, _) => MakeFates(p, e, id);
    case TakeSnapshot(_, _) => TakeFates(p, e, id);
    case SoftDelete(w) => EditFates(p, e, w, id);
    case Police(w, _) => EditFates(p, e, w, id);
    case Limit(w, _) => EditFates(p, e, w, id);
    case Open(w, _, _) => EditFates(p, e, w, id);
  }

  lemma MakeFates(p: Plane, e: Event, id: Id)
    requires Inv(p) && Target(e.command).Some?
    ensures WorkspaceFate(p, e, id) && SnapshotFate(p, e, id)
  {
    hide WorkspacePath, SnapshotPath, Inv;
    InvAt(p, id);
  }

  lemma TakeFates(p: Plane, e: Event, id: Id)
    requires Inv(p) && e.command.TakeSnapshot?
    ensures WorkspaceFate(p, e, id) && SnapshotFate(p, e, id)
  {
    hide WorkspacePath, SnapshotPath, Linked, Rooted, Recorded;
  }

  lemma InvAt(p: Plane, w: Id)
    requires Inv(p)
    ensures w in p.meta.workspaces ==>
      p.meta.workspaces[w].id == w && w in p.storage.workspaces && p.meta.workspaces[w].networkPolicy in p.meta.policies
  {
  }

  lemma EditFates(p: Plane, e: Event, w: Id, id: Id)
    requires Inv(p) && (e.command.SoftDelete? || e.command.Limit? || e.command.Police? || e.command.Open?) && e.command.w == w
    ensures WorkspaceFate(p, e, id) && SnapshotFate(p, e, id)
  {
    hide Inv, MadeNow;
    InvAt(p, w);
    InvAt(p, id);
  }

  /**
   * While a workspace stays in the metadata its id, agent, root, parent and creation time never
   * change, and from its deletion on nothing of it does: no command revives it or resets its age.
   */
  lemma {:induction false} RecordsKeepIdentity(p: Plane, events: seq<Event>, n: nat, w: Id)
    requires Inv(p) && n <= |events| && forall i | 0 <= i <= n :: w in After(p, events, i).meta.workspaces
    ensures w in p.meta.workspaces && w in After(p, events, n).meta.workspaces
    ensures var a, b := p.meta.workspaces[w], After(p, events, n).meta.workspaces[w];
      && b == a.(limits := b.limits, networkPolicy := b.networkPolicy, state := b.state, lastAccessed := b.lastAccessed)
      && (a.state == Deleted ==> b == a)
  {
    hide Inv, Step;
    assert w in After(p, events, 0).meta.workspaces;
    if n > 0 {
      RecordsKeepIdentity(p, events, n - 1, w);
      RunKeepsInv(p, events, n - 1);
      StepFates(After(p, events, n - 1), events[n - 1], w);
    }
  }

  /** An id comes by a command that makes it and goes by a purge of it, policies come by being set, and a failing command does none of this. */
  ghost predicate DomainFate(p: Plane, e: Event, id: Id) {
    var o := Step(p, e);
    var c, m, m', ok := e.command, p.meta, o.plane.meta, o.result.Ok?;
    && (id in m'.workspaces <==> (id in m.workspaces && !(ok && c == Purge(id))) || (ok && Target(c) == Some(id)))
    && (id in m'.snapshots <==> (id in m.snapshots && !(ok && c == PurgeSnap(id))) || (ok && c.TakeSnapshot? && c.s == id))
    && m'.policies == if ok && c.Police? then m.policies[c.policy.id := c.policy] else m.policies
  }

  lemma StepDomains(p: Plane, e: Event, id: Id)
    requires !e.command.Collect?
    ensures DomainFate(p, e, id)
  {
    hide DomainFate;
    match e.command
    case Create(_, _) => MakeDomains(p, e, id);
    case Branch(_, _, _) => MakeDomains(p, e, id);
    case Limit(_, _) => EditDomains(p, e, id);
    case Open(_, _, _) => EditDomains(p, e, id);
    case Police(_, _) => EditDomains(p, e, id);
    case SoftDelete(_) => EditDomains(p, e, id);
    case _ => OtherDomains(p, e, id);
  }

  lemma MakeDomains(p: Plane, e: Event, id: Id)
    requires Target(e.command).Some?
    ensures DomainFate(p, e, id)
  {
    hide WorkspacePath;
  }

  lemma EditDomains(p: Plane, e: Event, id: Id)
    requires e.command.SoftDelete? || e.command.Limit? || e.command.Police? || e.command.Open?
    ensures DomainFate(p, e, id)
  {
  }

  lemma OtherDomains(p: Plane, e: Event, id: Id)
    requires e.command.TakeSnapshot? || e.command.Purge? || e.command.PurgeSnap?
    ensures DomainFate(p, e, id)
  {
    hide SnapshotPath, IsParent;
  }

  // ---- Roots ----

  lemma {:induction false} ExecuteKeepsRoot(p: Plane, actions: seq<GcAction>, faults: seq<Fault>)
    ensures Execute(p, actions, faults).plane.storage.root == p.storage.root
    decreases |actions|
  {
    if actions != [] {
      var first := RunAction(p, actions[0], if faults == [] then Works else faults[0]);
      if first.result.Ok? { ExecuteKeepsRoot(first.plane, actions[1..], if faults == [] then [] else faults[1..]); }
    }
  }

  lemma StepKeepsRoot(p: Plane, e: Event)
    ensures Step(p, e).plane.storage.root == p.storage.root
  {
    hide WorkspacePath, SnapshotPath, Execute;
    if e.command.Collect? { ExecuteKeepsRoot(p, e.command.actions, e.faults); }
  }

  lemma {:induction false} RunKeepsRoot(p: Plane, events: seq<Event>, n: nat)
    requires n <= |events|
    ensures After(p, events, n).storage.root == p.storage.root
  {
    hide Step;
    if n > 0 {
      RunKeepsRoot(p, events, n - 1);
      StepKeepsRoot(After(p, events, n - 1), events[n - 1]);
    }
  }

  /** All roots follow from the ids, and no two of them are the same. */
  ghost predicate RootsAreApart(m: Metadata, root: Path) {
    && (forall w | w in m.workspaces :: LiesAt(m.workspaces[w].root, root, "workspaces", w))
    && (forall s | s in m.snapshots :: LiesAt(m.snapshots[s].root, root, "snapshots", s))
    && (forall v, w | v in m.workspaces && w in m.workspaces && v != w :: m.workspaces[v].root != m.workspaces[w].root)
    && (forall s, t | s in m.snapshots && t in m.snapshots && s != t :: m.snapshots[s].root != m.snapshots[t].root)
    && (forall w, s | w in m.workspaces && s in m.snapshots :: m.workspaces[w].root != m.snapshots[s].root)
  }

  lemma InvRoots(p: Plane)
    requires Inv(p)
    ensures RootsAreApart(p.meta, p.storage.root)
  {
    hide WorkspacePath, SnapshotPath, LiesAt, Linked, Recorded;
    var m, root := p.meta, p.storage.root;
    forall id ensures LiesAt(WorkspacePath(root, id), root, "workspaces", id) && LiesAt(SnapshotPath(root, id), root, "snapshots", id) {
      PathMeaning(root, id);
    }
    forall a, b
      ensures WorkspacePath(root, a) != SnapshotPath(root, b)
      ensures a != b ==> WorkspacePath(root, a) != WorkspacePath(root, b) && SnapshotPath(root, a) != SnapshotPath(root, b)
    {
      PathsAreDistinct(root, a, b);
    }
  }

  /** In every reachable plane roots lie where their ids say, below the root given, and are pairwise different. */
  lemma RunRoots(root: Path, profile: NixProfile, policy: NetworkPolicy, events: seq<Event>, n: nat)
    requires n <= |events|
    ensures RootsAreApart(After(NewPlane(root, profile, policy), events, n).meta, root)
  {
    hide Inv, After, RootsAreApart;
    NewPlaneInv(root, profile, policy);
    RunKeepsInv(NewPlane(root, profile, policy), events, n);
    RunKeepsRoot(NewPlane(root, profile, policy), events, n);
    InvRoots(After(NewPlane(root, profile, policy), events, n));
  }

  // ---- When commands succeed ----

  predicate IsReady(m: Metadata, w: Id) {
    w in m.workspaces && m.workspaces[w].state == Ready
  }

  /** What a caller needs: the metadata allows the command, the calls it makes work, and an id to be made is free in the backend. */
  ghost predicate Admissible(p: Plane, e: Event) {
    var m, works := p.meta, At(e.faults, 0).Works?;
    match e.command
    case Create(w, _) => w !in p.storage.workspaces && works && At(e.faults, 1).Works?
    case TakeSnapshot(w, s) => IsReady(m, w) && s !in m.snapshots && works
    case Branch(s, w, _) => s in m.snapshots && w !in p.storage.workspaces && works && At(e.faults, 1).Works?
    case SoftDelete(w) => w in m.workspaces
    case Purge(w) => w in m.workspaces && m.workspaces[w].state == Deleted && works
    case PurgeSnap(s) => s in m.snapshots && !IsParent(m, s) && works
    case Collect(_) => false
    case Limit(w, _) => IsReady(m, w) && works
    case Police(w, _) => IsReady(m, w)
    case Open(w, _, _) => IsReady(m, w) && works
  }

  /**
   * In a reachable plane a command other than a collection succeeds exactly when it is admissible: a
   * working backend never refuses what the metadata allows, except an id it holds without a record.
   */
  lemma SucceedsExactly(p: Plane, e: Event)
    requires Inv(p) && !e.command.Collect?
    ensures Step(p, e).result.Ok? <==> Admissible(p, e)
  {
    hide WorkspacePath, SnapshotPath, Recorded;
    if Target(e.command).Some? { InvAt(p, Target(e.command).value); }
  }

  /** The first reason to refuse a command, in the order a caller meets them. */
  ghost function Refusal(p: Plane, e: Event): Option<Error> {
    var m, f, g := p.meta, At(e.faults, 0), At(e.faults, 1);
    match e.command
    case Create(w, _) =>
      if w in m.workspaces then Some(AlreadyExists) else RefusedMaking(p, w, f, g)
    case Branch(s, w, _) =>
      if w in m.workspaces then Some(AlreadyExists)
      else if s !in m.snapshots then Some(NotFound)
      else RefusedMaking(p, w, f, g)
    case TakeSnapshot(w, s) =>
      if !IsReady(m, w) then NotReady(m, w)
      else if s in m.snapshots then Some(AlreadyExists)
      else FaultOf(f)
    case SoftDelete(w) => if w !in m.workspaces then Some(NotFound) else None
    case Purge(w) =>
      if w !in m.workspaces then Some(NotFound)
      else if IsReady(m, w) then Some(PreconditionFailed)
      else FaultOf(f)
    case PurgeSnap(s) =>
      if IsParent(m, s) then Some(PreconditionFailed)
      else if s !in m.snapshots then Some(NotFound)
      else FaultOf(f)
    case Collect(_) => None
    case Limit(w, _) => if !IsReady(m, w) then NotReady(m, w) else FaultOf(f)
    case Police(w, _) => if !IsReady(m, w) then NotReady(m, w) else None
    case Open(w, _, _) => if !IsReady(m, w) then NotReady(m, w) else FaultOf(f)
  }

  ghost function NotReady(m: Metadata, w: Id): Option<Error> {
    Some(if w in m.workspaces then PreconditionFailed else NotFound)
  }

  ghost function FaultOf(f: Fault): Option<Error> {
    if f.Fails? then Some(f.error) else None
  }

  ghost function RefusedMaking(p: Plane, w: Id, made: Fault, quota: Fault): Option<Error> {
    if made.Fails? then Some(made.error)
    else if w in p.storage.workspaces then Some(AlreadyExists)
    else FaultOf(quota)
  }

  /** In a reachable plane a command gives exactly the error of its first refusal, and succeeds without one. */
  lemma RefusedExactly(p: Plane, e: Event)
    requires Inv(p) && !e.command.Collect?
    ensures Step(p, e).result == if Refusal(p, e).Some? then Err(Refusal(p, e).value) else Ok(())
  {
    hide WorkspacePath, SnapshotPath, Recorded;
    if Target(e.command).Some? { InvAt(p, Target(e.command).value); }
  }

  /** What creating, branching and taking a snapshot return is the record they file. */
  lemma RepliesAreFiled(p: Plane, w: Id, s: Id, agent: Id, now: Time, made: Fault, quota: Fault)
    ensures var o := CreateWorkspace(p, w, agent, now, made, quota);
      o.result.Ok? ==> w in o.plane.meta.workspaces && o.plane.meta.workspaces[w] == o.result.value
    ensures var o := BranchWorkspace(p, s, w, agent, now, made, quota);
      o.result.Ok? ==> w in o.plane.meta.workspaces && o.plane.meta.workspaces[w] == o.result.value
    ensures var o := SnapshotWorkspace(p, w, s, now, made);
      o.result.Ok? ==> s in o.plane.meta.snapshots && o.plane.meta.snapshots[s] == o.result.value
  {
  }

  // ---- What a failure leaves behind ----

  /** The backend makes the workspace and then refuses its quota. */
  ghost predicate Strands(p: Plane, e: Event) {
    && Target(e.command).Some?
    && Target(e.command).value !in p.meta.workspaces
    && Target(e.command).value !in p.storage.workspaces
    && (e.command.Branch? ==> e.command.s in p.meta.snapshots && e.command.s in p.storage.snapshots)
    && At(e.faults, 0).Works?
    && At(e.faults, 1).Fails?
  }

  /** The session is ready to run and the executor then refuses it. */
  ghost predicate Unexecuted(p: Plane, e: Event) {
    && e.command.Open?
    && ReadyWorkspace(p.meta, e.command.w).Ok?
    && p.meta.workspaces[e.command.w].networkPolicy in p.meta.policies
    && At(e.faults, 0).Fails?
  }

  /**
   * A failing command other than a collection changes something exactly in two cases: a workspace
   * whose quota was refused stays in the backend, and a session the executor refused still counts as
   * an access.
   */
  lemma FailureEffect(p: Plane, e: Event)
    requires !e.command.Collect? && Step(p, e).result.Err?
    ensures var q := Step(p, e).plane;
      if Strands(p, e) then
        var w := Target(e.command).value;
        q == p.(storage := p.storage.(workspaces := p.storage.workspaces[w := WorkspacePath(p.storage.root, w)])) && q != p
      else if Unexecuted(p, e) then
        var w := e.command.w;
        q == PutWorkspace(p, w, p.meta.workspaces[w].(lastAccessed := e.now))
      else q == p
  {
    match e.command
    case Create(w, agent) =>
    case Branch(s, w, agent) =>
    case _ =>
  }

  /** Over the in-memory backend and the recording executor a failing command changes nothing. */
  lemma FaultlessFailureIsNeutral(p: Plane, e: Event)
    requires e.faults == [] && !e.command.Collect? && Step(p, e).result.Err?
    ensures Step(p, e).plane == p
  {
    FailureEffect(p, e);
  }

  // ---- Agreement of metadata and backend under faults ----

  /** Workspaces the backend holds and the metadata does not know. */
  ghost function Orphans(p: Plane): set<Id> {
    p.storage.workspaces.Keys - p.meta.workspaces.Keys
  }

  ghost predicate Agrees(p: Plane) {
    p.meta.workspaces.Keys <= p.storage.workspaces.Keys && p.meta.snapshots.Keys == p.storage.snapshots.Keys
  }

  lemma ActionOrphans(p: Plane, action: GcAction, fault: Fault)
    requires Agrees(p)
    ensures var q := RunAction(p, action, fault).plane; Agrees(q) && Orphans(q) == Orphans(p)
  {
  }

  lemma {:induction false} ExecuteOrphans(p: Plane, actions: seq<GcAction>, faults: seq<Fault>)
    requires Agrees(p)
    ensures Orphans(Execute(p, actions, faults).plane) == Orphans(p)
    decreases |actions|
  {
    hide RunAction, Orphans, Agrees;
    if actions != [] {
      var f := if faults == [] then Works else faults[0];
      ActionOrphans(p, actions[0], f);
      var first := RunAction(p, actions[0], f);
      if first.result.Ok? {
        ExecuteOrphans(first.plane, actions[1..], if faults == [] then [] else faults[1..]);
      }
    }
  }

  lemma MakeOrphans(p: Plane, e: Event)
    requires Agrees(p) && Target(e.command).Some?
    ensures Orphans(Step(p, e).plane) == Orphans(p) + if Strands(p, e) then {Target(e.command).value} else {}
  {
  }

  lemma StepOrphans(p: Plane, e: Event)
    requires Agrees(p)
    ensures Orphans(Step(p, e).plane) == Orphans(p) + if Strands(p, e) then {Target(e.command).value} else {}
  {
    match e.command
    case Create(_, _) => MakeOrphans(p, e);
    case Branch(_, _, _) => MakeOrphans(p, e);
    case Purge(w) => ActionOrphans(p, DeleteWorkspace(w), At(e.faults, 0));
    case PurgeSnap(s) => ActionOrphans(p, DeleteSnapshot(s), At(e.faults, 0));
    case Collect(actions) => ExecuteOrphans(p, actions, e.faults);
    case _ =>
  }

  lemma InvAgrees(p: Plane)
    requires Inv(p)
    ensures Agrees(p)
  {
  }

  /** In this event the backend makes `w` and then refuses its quota. */
  ghost predicate StrandedAt(p: Plane, events: seq<Event>, i: nat, w: Id)
    requires i < |events|
  {
    Strands(After(p, events, i), events[i]) && Target(events[i].command) == Some(w)
  }

  lemma {:induction false} RunOrphans(p: Plane, events: seq<Event>, n: nat, w: Id)
    requires Inv(p) && Orphans(p) == {} && n <= |events|
    ensures w in Orphans(After(p, events, n)) <==> exists i | 0 <= i < n :: StrandedAt(p, events, i, w)
  {
    hide Inv, Agrees, Orphans, Step;
    if n > 0 {
      RunOrphans(p, events, n - 1, w);
      RunKeepsInv(p, events, n - 1);
      InvAgrees(After(p, events, n - 1));
      StepOrphans(After(p, events, n - 1), events[n - 1]);
      assert w in Orphans(After(p, events, n)) <==> w in Orphans(After(p, events, n - 1)) || StrandedAt(p, events, n - 1, w);
    }
  }

  /**
   * After any run from a new plane, the two snapshot maps have the same keys, and the stored
   * workspaces are those of the metadata together with, apart from them, exactly the ids whose
   * creation or branch failed at the quota.
   */
  lemma RunAgreement(root: Path, profile: NixProfile, policy: NetworkPolicy, events: seq<Event>, n: nat)
    requires n <= |events|
    ensures var p0 := NewPlane(root, profile, policy); var p := After(p0, events, n);
      && p.storage.snapshots.Keys == p.meta.snapshots.Keys
      && p.meta.workspaces.Keys <= p.storage.workspaces.Keys
      && (forall w :: w in p.storage.workspaces && w !in p.meta.workspaces <==> exists i | 0 <= i < n :: StrandedAt(p0, events, i, w))
  {
    hide Inv, Step, StrandedAt, After;
    var p0 := NewPlane(root, profile, policy);
    NewPlaneInv(root, profile, policy);
    RunKeepsInv(p0, events, n);
    var p := After(p0, events, n);
    InvAgrees(p);
    forall w ensures w in p.storage.workspaces && w !in p.meta.workspaces <==> exists i | 0 <= i < n :: StrandedAt(p0, events, i, w) {
      RunOrphans(p0, events, n, w);
    }
  }

  /** Over a backend that never fails, metadata and backend hold the same ids. */
  lemma FaultlessAgreement(root: Path, profile: NixProfile, policy: NetworkPolicy, events: seq<Event>, n: nat)
    requires n <= |events| && forall i | 0 <= i < n :: events[i].faults == []
    ensures var p := After(NewPlane(root, profile, policy), events, n); p.storage.workspaces.Keys == p.meta.workspaces.Keys
  {
    hide Step;
    RunAgreement(root, profile, policy, events, n);
  }

  /** A stranded id is lost for good: it stays in the backend, and no later create or branch of it succeeds. */
  lemma {:induction false} StrandedForever(p: Plane, events: seq<Event>, n: nat, w: Id)
    requires Inv(p) && w in Orphans(p) && n <= |events|
    ensures w in Orphans(After(p, events, n))
  {
    hide Inv, Agrees, Orphans, Step;
    if n > 0 {
      StrandedForever(p, events, n - 1, w);
      RunKeepsInv(p, events, n - 1);
      InvAgrees(After(p, events, n - 1));
      StepOrphans(After(p, events, n - 1), events[n - 1]);
    }
  }

  lemma OrphanCannotBeMade(p: Plane, e: Event, w: Id)
    requires w in Orphans(p) && Target(e.command) == Some(w)
    ensures Step(p, e).result.Err?
  {
  }

  // ---- Sessions and policies ----

  /** In a reachable plane a session opens exactly when its workspace is ready and the executor works. */
  lemma OpenSucceedsWhenReady(p: Plane, e: Event)
    requires Inv(p) && e.command.Open?
    ensures Step(p, e).result.Ok? <==> ReadyWorkspace(p.meta, e.command.w).Ok? && At(e.faults, 0).Works?
    ensures Step(p, e).result.Err? && At(e.faults, 0).Works? ==>
      Step(p, e).result.error == if e.command.w in p.meta.workspaces then PreconditionFailed else NotFound
  {
  }

  function EffectivePolicy(m: Metadata, w: Id): NetworkPolicy
    requires w in m.workspaces && m.workspaces[w].networkPolicy in m.policies
  {
    m.policies[m.workspaces[w].networkPolicy]
  }

  /**
   * Setting a policy gives it to its target and to every workspace already naming that policy id,
   * whatever they had before, and changes no other workspace's policy.
   */
  lemma SetPolicyReach(p: Plane, w: Id, policy: NetworkPolicy, other: Id)
    requires Inv(p) && SetNetworkPolicy(p, w, policy).result.Ok? && other in p.meta.workspaces
    ensures var q := SetNetworkPolicy(p, w, policy).plane; other in q.meta.workspaces && q.meta.workspaces[other].networkPolicy in q.meta.policies
    ensures var q := SetNetworkPolicy(p, w, policy).plane;
      EffectivePolicy(q.meta, other) ==
        if other == w || p.meta.workspaces[other].networkPolicy == policy.id then policy else EffectivePolicy(p.meta, other)
  {
  }

  ghost predicate OpenedAt(p: Plane, events: seq<Event>, i: nat, r: ExecRequest)
    requires i < |events|
  {
    var before := After(p, events, i);
    && events[i].command == Open(r.workspace.id, r.sessionId, r.session)
    && ReadyWorkspace(before.meta, r.workspace.id).Ok?
    && r.workspace == before.meta.workspaces[r.workspace.id].(lastAccessed := events[i].now)
    && r.workspace.networkPolicy in before.meta.policies
    && r.policy == before.meta.policies[r.workspace.networkPolicy]
  }

  lemma {:induction false} ExecuteKeepsSessions(p: Plane, actions: seq<GcAction>, faults: seq<Fault>)
    ensures Execute(p, actions, faults).plane.sessions == p.sessions
    decreases |actions|
  {
    if actions != [] {
      var first := RunAction(p, actions[0], if faults == [] then Works else faults[0]);
      if first.result.Ok? { ExecuteKeepsSessions(first.plane, actions[1..], if faults == [] then [] else faults[1..]); }
    }
  }

  lemma StepRecords(p: Plane, e: Event, id: Id)
    ensures var q := Step(p, e).plane;
      id in q.sessions && !(id in p.sessions && q.sessions[id] == p.sessions[id]) ==>
      Step(p, e).result.Ok? && e.command.Open? && e.command.session == id
  {
    if e.command.Collect? { ExecuteKeepsSessions(p, e.command.actions, e.faults); }
  }

  lemma OpenedNow(p: Plane, events: seq<Event>, i: nat, id: Id)
    requires i < |events| && WellKeyed(After(p, events, i).meta)
    requires events[i].command.Open? && events[i].command.session == id && Step(After(p, events, i), events[i]).result.Ok?
    ensures id in After(p, events, i + 1).sessions && OpenedAt(p, events, i, After(p, events, i + 1).sessions[id])
  {
  }

  /**
   * Every recorded request was made by an event of the run, from the workspace record and the policy
   * of that moment, when the workspace was ready.
   */
  lemma {:induction false} RecordedProvenance(p: Plane, events: seq<Event>, n: nat, id: Id)
    requires Inv(p) && p.sessions == map[] && n <= |events| && id in After(p, events, n).sessions
    ensures exists i | 0 <= i < n :: OpenedAt(p, events, i, After(p, events, n).sessions[id])
  {
    hide Step, Linked, Rooted, Recorded, OpenedAt;
    var before, e := After(p, events, n - 1), events[n - 1];
    StepRecords(before, e, id);
    var r := After(p, events, n).sessions[id];
    if id in before.sessions && before.sessions[id] == r {
      RecordedProvenance(p, events, n - 1, id);
    } else {
      RunKeepsInv(p, events, n - 1);
      OpenedNow(p, events, n - 1, id);
    }
  }
}
