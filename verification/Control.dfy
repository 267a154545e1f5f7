/** `ControlPlane` of src/control.rs over `InMemoryStorage` and `RecordingExecutor`. */
module Control {
  import opened Prelude
  import opened Ids
  import opened Model
  import opened Storage
  import opened Gc
  import Plane

  class RecordingExecutor {
    var sessions: map<Id, ExecRequest>

    constructor ()
      ensures sessions == map[]
    {
      sessions := map[];
    }

    method OpenSession(request: ExecRequest) returns (r: Result<int>)
      modifies this
      ensures sessions == old(sessions)[request.sessionId := request]
      ensures r == Ok(0)
    {
      sessions := sessions[request.sessionId := request];
      return Ok(0);
    }
  }

  predicate IsAbsolute(path: Path) {
    path != "" && path[0] == '/'
  }

  class ControlPlane {
    var metadata: Metadata
    const storage: InMemoryStorage
    const executor: RecordingExecutor
    const profile: NixProfile
    const defaultPolicy: Id

    ghost function View(): Plane.Plane
      reads this, storage, executor
    {
      Plane.Plane(metadata, storage.View(), executor.sessions, profile, defaultPolicy)
    }

    /** The part of `new` that cannot fail. */
    constructor (storage: InMemoryStorage, executor: RecordingExecutor, profile: NixProfile, policy: NetworkPolicy)
      ensures this.storage == storage && this.executor == executor
      ensures metadata == EMPTY_METADATA.(policies := map[policy.id := policy])
      ensures this.profile == profile && defaultPolicy == policy.id
    {
      this.storage := storage;
      this.executor := executor;
      this.profile := profile;
      defaultPolicy := policy.id;
      metadata := EMPTY_METADATA.(policies := map[policy.id := policy]);
    }

    /** `new`, with an in-memory backend and a recording executor of its own. */
    static method New(root: Path, profile: NixProfile, policy: NetworkPolicy) returns (r: Result<ControlPlane>)
      ensures r.Ok? <==> "/" <= profile.storePath && "/" <= profile.profilePath
      ensures r.Err? ==> r.error == InvalidInput
      ensures r.Ok? ==> fresh(r.value) && r.value.View() == Plane.NewPlane(root, profile, policy)
    {
      if !IsAbsolute(profile.storePath) || !IsAbsolute(profile.profilePath) {
        return Err(InvalidInput);
      }
      var storage := new InMemoryStorage(root);
      var executor := new RecordingExecutor();
      var plane := new ControlPlane(storage, executor, profile, policy);
      return Ok(plane);
    }

    method ReadyWorkspace(w: Id) returns (r: Result<Workspace>)
      ensures r == Plane.ReadyWorkspace(metadata, w)
    {
      if w !in metadata.workspaces {
        return Err(NotFound);
      }
      if metadata.workspaces[w].state != Ready {
        return Err(PreconditionFailed);
      }
      return Ok(metadata.workspaces[w]);
    }

    method PutWorkspace(w: Id, record: Workspace)
      modifies this
      ensures View() == Plane.PutWorkspace(old(View()), w, record)
    {
      metadata := metadata.(workspaces := metadata.workspaces[w := record]);
    }

    method CreateWorkspace(w: Id, agent: Id, now: Time) returns (r: Result<Workspace>)
      modifies this, storage, executor
      ensures Plane.Outcome(View(), r) == Plane.CreateWorkspace(old(View()), w, agent, now, Works, Works)
    {
      if w in metadata.workspaces {
        return Err(AlreadyExists);
      }
      var root :- storage.CreateWorkspace(w);
      var record := Workspace(w, agent, root, None, DEFAULT_LIMITS, defaultPolicy, Ready, now, now);
      var _ :- storage.SetQuota(w, record.limits);
      PutWorkspace(w, record);
      return Ok(record);
    }

    method SnapshotWorkspace(w: Id, s: Id, now: Time) returns (r: Result<Snapshot>)
      modifies this, storage, executor
      ensures Plane.Outcome(View(), r) == Plane.SnapshotWorkspace(old(View()), w, s, now, Works)
    {
      var source :- ReadyWorkspace(w);
      if s in metadata.snapshots {
        return Err(AlreadyExists);
      }
      var root :- storage.SnapshotWorkspace(w, s);
      var record := Snapshot(s, source.id, root, now);
      metadata := metadata.(snapshots := metadata.snapshots[s := record]);
      return Ok(record);
    }

    method BranchWorkspace(s: Id, w: Id, agent: Id, now: Time) returns (r: Result<Workspace>)
      modifies this, storage, executor
      ensures Plane.Outcome(View(), r) == Plane.BranchWorkspace(old(View()), s, w, agent, now, Works, Works)
    {
      if w in metadata.workspaces {
        return Err(AlreadyExists);
      }
      if s !in metadata.snapshots {
        return Err(NotFound);
      }
      var root :- storage.CloneWorkspace(s, w);
      var record := Workspace(w, agent, root, Some(s), DEFAULT_LIMITS, defaultPolicy, Ready, now, now);
      var _ :- storage.SetQuota(w, record.limits);
      PutWorkspace(w, record);
      return Ok(record);
    }

    method DeleteWorkspace(w: Id) returns (r: Result<()>)
      modifies this
      ensures Plane.Outcome(View(), r) == Plane.MarkDeleted(old(View()), w)
    {
      if w !in metadata.workspaces {
        return Err(NotFound);
      }
      var record := metadata.workspaces[w];
      if record.state == Deleted {
        assert metadata.workspaces[w := record.(state := Deleted)] == metadata.workspaces;
        return Ok(());
      }
      PutWorkspace(w, record.(state := Deleted));
      return Ok(());
    }

    method PurgeWorkspace(w: Id) returns (r: Result<()>)
      modifies this, storage
      ensures Plane.Outcome(View(), r) == Plane.PurgeWorkspace(old(View()), w, Works)
    {
      if w !in metadata.workspaces {
        return Err(NotFound);
      }
      if metadata.workspaces[w].state != Deleted {
        return Err(PreconditionFailed);
      }
      var _ :- storage.DeleteWorkspace(w);
      metadata := metadata.(workspaces := metadata.workspaces - {w});
      return Ok(());
    }

    method PurgeSnapshot(s: Id) returns (r: Result<()>)
      modifies this, storage
      ensures Plane.Outcome(View(), r) == Plane.PurgeSnapshot(old(View()), s, Works)
    {
      if exists w | w in metadata.workspaces :: metadata.workspaces[w].parent == Some(s) {
        return Err(PreconditionFailed);
      }
      if s !in metadata.snapshots {
        return Err(NotFound);
      }
      var _ :- storage.DeleteSnapshot(s);
      metadata := metadata.(snapshots := metadata.snapshots - {s});
      return Ok(());
    }

    method ExecuteGcActions(actions: seq<GcAction>) returns (r: Result<()>)
      modifies this, storage
      ensures Plane.Outcome(View(), r) == Plane.Execute(old(View()), actions, [])
    {
      for i := 0 to |actions|
        invariant Plane.Execute(View(), actions[i..], []) == Plane.Execute(old(View()), actions, [])
      {
        assert actions[i..][1..] == actions[i + 1..];
        match actions[i] {
          case DeleteWorkspace(w) =>
            var _ :- PurgeWorkspace(w);
          case DeleteSnapshot(s) =>
            var _ :- PurgeSnapshot(s);
        }
      }
      return Ok(());
    }

    method SetLimits(w: Id, limits: ResourceLimits) returns (r: Result<()>)
      modifies this
      ensures Plane.Outcome(View(), r) == Plane.SetLimits(old(View()), w, limits, Works)
    {
      var record :- ReadyWorkspace(w);
      var _ :- storage.SetQuota(w, limits);
      PutWorkspace(w, record.(limits := limits));
      return Ok(());
    }

    method SetNetworkPolicy(w: Id, policy: NetworkPolicy) returns (r: Result<()>)
      modifies this
      ensures Plane.Outcome(View(), r) == Plane.SetNetworkPolicy(old(View()), w, policy)
    {
      var record :- ReadyWorkspace(w);
      metadata := metadata.(policies := metadata.policies[policy.id := policy]);
      PutWorkspace(w, record.(networkPolicy := policy.id));
      return Ok(());
    }

    method OpenSession(w: Id, session: Id, request: SessionRequest, now: Time) returns (r: Result<int>)
      modifies this, executor
      ensures Plane.Outcome(View(), r) == Plane.OpenSession(old(View()), w, session, request, now, Works)
    {
      var record :- ReadyWorkspace(w);
      if record.networkPolicy !in metadata.policies {
        return Err(PreconditionFailed);
      }
      var policy := metadata.policies[record.networkPolicy];
      record := record.(lastAccessed := now);
      PutWorkspace(w, record);
      r := executor.OpenSession(ExecRequest(session, record, request, profile, policy));
    }
  }
}
