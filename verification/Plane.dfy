/**
 * The control plane of src/control.rs as functions on a value. Every backend call and the executor's
 * call takes a `Fault`, so the same functions describe the plane over `InMemoryStorage` (all faults
 * `Works`) and over a backend that may fail at any call.
 */
module Plane {
  import opened Prelude
  import opened Ids
  import opened Model
  import opened Storage
  import opened Gc

  datatype Plane = Plane(
    meta: Metadata,
    storage: Stored,
    sessions: map<Id, ExecRequest>,
    profile: NixProfile,
    defaultPolicy: Id)

  datatype Outcome<+T> = Outcome(plane: Plane, result: Result<T>)

  /** A plane as `ControlPlane::new` leaves it over an empty in-memory backend and executor. */
  function NewPlane(root: Path, profile: NixProfile, policy: NetworkPolicy): Plane {
    Plane(EMPTY_METADATA.(policies := map[policy.id := policy]), Stored(root, map[], map[]), map[], profile, policy.id)
  }

  function ReadyWorkspace(m: Metadata, w: Id): Result<Workspace> {
    if w !in m.workspaces then Err(NotFound)
    else if m.workspaces[w].state != Ready then Err(PreconditionFailed)
    else Ok(m.workspaces[w])
  }

  function PutWorkspace(p: Plane, w: Id, record: Workspace): Plane {
    p.(meta := p.meta.(workspaces := p.meta.workspaces[w := record]))
  }

  function FreshWorkspace(p: Plane, w: Id, agent: Id, root: Path, parent: Option<Id>, now: Time): Workspace {
    Workspace(w, agent, root, parent, DEFAULT_LIMITS, p.defaultPolicy, Ready, now, now)
  }

  function CreateWorkspace(p: Plane, w: Id, agent: Id, now: Time, made: Fault, quota: Fault): Outcome<Workspace> {
    if w in p.meta.workspaces then Outcome(p, Err(AlreadyExists))
    else
      var (stored, root) := p.storage.CreateWorkspace(w, made);
      FinishWorkspace(p, stored, root, w, agent, None, now, quota)
  }

  /** What creating and branching share once the backend has answered. */
  function FinishWorkspace(p: Plane, stored: Stored, root: Result<Path>, w: Id, agent: Id, parent: Option<Id>, now: Time,
                           quota: Fault): Outcome<Workspace>
  {
    var q := p.(storage := stored);
    if root.Err? then Outcome(q, Err(root.error))
    else
      var record := FreshWorkspace(p, w, agent, root.value, parent, now);
      var limited := stored.SetQuota(w, record.limits, quota);
      if limited.Err? then Outcome(q, Err(limited.error))
      else Outcome(PutWorkspace(q, w, record), Ok(record))
  }

  function SnapshotWorkspace(p: Plane, w: Id, s: Id, now: Time, made: Fault): Outcome<Snapshot> {
    var source := ReadyWorkspace(p.meta, w);
    if source.Err? then Outcome(p, Err(source.error))
    else if s in p.meta.snapshots then Outcome(p, Err(AlreadyExists))
    else
      var (stored, root) := p.storage.SnapshotWorkspace(w, s, made);
      if root.Err? then Outcome(p.(storage := stored), Err(root.error))
      else
        var record := Snapshot(s, source.value.id, root.value, now);
        Outcome(p.(storage := stored, meta := p.meta.(snapshots := p.meta.snapshots[s := record])), Ok(record))
  }

  function BranchWorkspace(p: Plane, s: Id, w: Id, agent: Id, now: Time, made: Fault, quota: Fault): Outcome<Workspace> {
    if w in p.meta.workspaces then Outcome(p, Err(AlreadyExists))
    else if s !in p.meta.snapshots then Outcome(p, Err(NotFound))
    else
      var (stored, root) := p.storage.CloneWorkspace(s, w, made);
      FinishWorkspace(p, stored, root, w, agent, Some(s), now, quota)
  }

  function MarkDeleted(p: Plane, w: Id): Outcome<()> {
    if w !in p.meta.workspaces then Outcome(p, Err(NotFound))
    else Outcome(PutWorkspace(p, w, p.meta.workspaces[w].(state := Deleted)), Ok(()))
  }

  function PurgeWorkspace(p: Plane, w: Id, fault: Fault): Outcome<()> {
    if w !in p.meta.workspaces then Outcome(p, Err(NotFound))
    else if p.meta.workspaces[w].state != Deleted then Outcome(p, Err(PreconditionFailed))
    else
      var (stored, gone) := p.storage.DeleteWorkspace(w, fault);
      if gone.Err? then Outcome(p.(storage := stored), gone)
      else Outcome(p.(storage := stored, meta := p.meta.(workspaces := p.meta.workspaces - {w})), Ok(()))
  }

  function PurgeSnapshot(p: Plane, s: Id, fault: Fault): Outcome<()> {
    if IsParent(p.meta, s) then Outcome(p, Err(PreconditionFailed))
    else if s !in p.meta.snapshots then Outcome(p, Err(NotFound))
    else
      var (stored, gone) := p.storage.DeleteSnapshot(s, fault);
      if gone.Err? then Outcome(p.(storage := stored), gone)
      else Outcome(p.(storage := stored, meta := p.meta.(snapshots := p.meta.snapshots - {s})), Ok(()))
  }

  function SetLimits(p: Plane, w: Id, limits: ResourceLimits, quota: Fault): Outcome<()> {
    var ready := ReadyWorkspace(p.meta, w);
    if ready.Err? then Outcome(p, Err(ready.error))
    else
      var limited := p.storage.SetQuota(w, limits, quota);
      if limited.Err? then Outcome(p, limited)
      else Outcome(PutWorkspace(p, w, ready.value.(limits := limits)), Ok(()))
  }

  function SetNetworkPolicy(p: Plane, w: Id, policy: NetworkPolicy): Outcome<()> {
    var ready := ReadyWorkspace(p.meta, w);
    if ready.Err? then Outcome(p, Err(ready.error))
    else
      var q := p.(meta := p.meta.(policies := p.meta.policies[policy.id := policy]));
      Outcome(PutWorkspace(q, w, ready.value.(networkPolicy := policy.id)), Ok(()))
  }

  /** The access time is written before the executor is called; its failure does not undo that. */
  function OpenSession(p: Plane, w: Id, session: Id, request: SessionRequest, now: Time, executor: Fault): Outcome<int> {
    var ready := ReadyWorkspace(p.meta, w);
    if ready.Err? then Outcome(p, Err(ready.error))
    else if ready.value.networkPolicy !in p.meta.policies then Outcome(p, Err(PreconditionFailed))
    else
      var record := ready.value.(lastAccessed := now);
      var q := PutWorkspace(p, w, record);
      if executor.Fails? then Outcome(q, Err(executor.error))
      else
        var exec := ExecRequest(session, record, request, p.profile, p.meta.policies[record.networkPolicy]);
        Outcome(q.(sessions := q.sessions[session := exec]), Ok(0))
  }

  // ---- Garbage-collection actions ----

  function RunAction(p: Plane, action: GcAction, fault: Fault): Outcome<()> {
    match action
    case DeleteWorkspace(w) => PurgeWorkspace(p, w, fault)
    case DeleteSnapshot(s) => PurgeSnapshot(p, s, fault)
  }

  /** Runs the actions in order and stops at the first error. Calls past the end of `faults` work. */
  function Execute(p: Plane, actions: seq<GcAction>, faults: seq<Fault>): Outcome<()>
    decreases |actions|
  {
    if actions == [] then Outcome(p, Ok(()))
    else
      var first := RunAction(p, actions[0], if faults == [] then Works else faults[0]);
      if first.result.Err? then first
      else Execute(first.plane, actions[1..], if faults == [] then [] else faults[1..])
  }
}
