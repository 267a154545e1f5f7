/**
 * The storage backend of src/storage.rs: its calls as functions on a value, with injected faults for
 * a backend that may fail, and `InMemoryStorage` as the class that carries them out without faults.
 */
module Storage {
  import opened Prelude
  import opened Ids
  import opened Model

  /** Whether a backend call goes through; a call that fails changes nothing. */
  datatype Fault = Works | Fails(error: Error)

  /** `Path::join` for a relative component. */
  function JoinPath(base: Path, part: string): Path {
    if base == "" || base[|base| - 1] == '/' then base + part else base + "/" + part
  }

  function WorkspacePath(root: Path, w: Id): Path {
    JoinPath(JoinPath(root, "workspaces"), w)
  }

  function SnapshotPath(root: Path, s: Id): Path {
    JoinPath(JoinPath(root, "snapshots"), s)
  }

  /** The path, in characters: the id, in a directory below the root. */
  ghost predicate LiesAt(path: Path, root: Path, directory: string, id: Id) {
    path == (if root != "" && root[|root| - 1] != '/' then root + "/" else root) + directory + "/" + id
  }

  /** Workspaces lie in `workspaces` and snapshots in `snapshots`, whatever the root. */
  lemma PathMeaning(root: Path, id: Id)
    ensures LiesAt(WorkspacePath(root, id), root, "workspaces", id)
    ensures LiesAt(SnapshotPath(root, id), root, "snapshots", id)
  {
    var ws, ss := JoinPath(root, "workspaces"), JoinPath(root, "snapshots");
    assert ws[|ws| - 1] == 's' && ss[|ss| - 1] == 's';
  }

  /** Different ids have different paths, and no workspace shares its path with a snapshot. */
  lemma PathsAreDistinct(root: Path, a: Id, b: Id)
    ensures WorkspacePath(root, a) != SnapshotPath(root, b)
    ensures a != b ==> WorkspacePath(root, a) != WorkspacePath(root, b) && SnapshotPath(root, a) != SnapshotPath(root, b)
  {
    hide WorkspacePath, SnapshotPath;
    PathMeaning(root, a);
    PathMeaning(root, b);
    var base := if root != "" && root[|root| - 1] != '/' then root + "/" else root;
    var ws, ss := base + "workspaces" + "/", base + "snapshots" + "/";
    assert (ws + a)[|base|] == 'w' && (ss + b)[|base|] == 's';
    assert (ws + a)[|ws|..] == a && (ws + b)[|ws|..] == b && (ss + a)[|ss|..] == a && (ss + b)[|ss|..] == b;
  }

  datatype Stored = Stored(root: Path, workspaces: map<Id, Path>, snapshots: map<Id, Path>) {

    function CreateWorkspace(w: Id, fault: Fault): (Stored, Result<Path>) {
      if fault.Fails? then (this, Err(fault.error))
      else if w in workspaces then (this, Err(AlreadyExists))
      else (this.(workspaces := workspaces[w := WorkspacePath(root, w)]), Ok(WorkspacePath(root, w)))
    }

    function CloneWorkspace(s: Id, w: Id, fault: Fault): (Stored, Result<Path>) {
      if fault.Fails? then (this, Err(fault.error))
      else if s !in snapshots then (this, Err(NotFound))
      else CreateWorkspace(w, Works)
    }

    function SnapshotWorkspace(w: Id, s: Id, fault: Fault): (Stored, Result<Path>) {
      if fault.Fails? then (this, Err(fault.error))
      else if w !in workspaces then (this, Err(NotFound))
      else if s in snapshots then (this, Err(AlreadyExists))
      else (this.(snapshots := snapshots[s := SnapshotPath(root, s)]), Ok(SnapshotPath(root, s)))
    }

    function DeleteWorkspace(w: Id, fault: Fault): (Stored, Result<()>) {
      if fault.Fails? then (this, Err(fault.error))
      else if w !in workspaces then (this, Err(NotFound))
      else (this.(workspaces := workspaces - {w}), Ok(()))
    }

    function DeleteSnapshot(s: Id, fault: Fault): (Stored, Result<()>) {
      if fault.Fails? then (this, Err(fault.error))
      else if s !in snapshots then (this, Err(NotFound))
      else (this.(snapshots := snapshots - {s}), Ok(()))
    }

    function SetQuota(w: Id, limits: ResourceLimits, fault: Fault): Result<()> {
      if fault.Fails? then Err(fault.error)
      else if w !in workspaces then Err(NotFound)
      else Ok(())
    }
  }

  class InMemoryStorage {
    const root: Path
    var workspaces: map<Id, Path>
    var snapshots: map<Id, Path>

    ghost function View(): Stored
      reads this
    {
      Stored(root, workspaces, snapshots)
    }

    constructor (root: Path)
      ensures View() == Stored(root, map[], map[])
    {
      this.root := root;
      workspaces := map[];
      snapshots := map[];
    }

    method CreateWorkspace(w: Id) returns (r: Result<Path>)
      modifies this
      ensures (View(), r) == old(View()).CreateWorkspace(w, Works)
    {
      if w in workspaces {
        return Err(AlreadyExists);
      }
      var path := WorkspacePath(root, w);
      workspaces := workspaces[w := path];
      return Ok(path);
    }

    method CloneWorkspace(s: Id, w: Id) returns (r: Result<Path>)
      modifies this
      ensures (View(), r) == old(View()).CloneWorkspace(s, w, Works)
    {
      if s !in snapshots {
        return Err(NotFound);
      }
      r := CreateWorkspace(w);
    }

    method SnapshotWorkspace(w: Id, s: Id) returns (r: Result<Path>)
      modifies this
      ensures (View(), r) == old(View()).SnapshotWorkspace(w, s, Works)
    {
      if w !in workspaces {
        return Err(NotFound);
      }
      if s in snapshots {
        return Err(AlreadyExists);
      }
      var path := SnapshotPath(root, s);
      snapshots := snapshots[s := path];
      return Ok(path);
    }

    method DeleteWorkspace(w: Id) returns (r: Result<()>)
      modifies this
      ensures (View(), r) == old(View()).DeleteWorkspace(w, Works)
    {
      if w !in workspaces {
        return Err(NotFound);
      }
      workspaces := workspaces - {w};
      return Ok(());
    }

    method DeleteSnapshot(s: Id) returns (r: Result<()>)
      modifies this
      ensures (View(), r) == old(View()).DeleteSnapshot(s, Works)
    {
      if s !in snapshots {
        return Err(NotFound);
      }
      snapshots := snapshots - {s};
      return Ok(());
    }

    method SetQuota(w: Id, limits: ResourceLimits) returns (r: Result<()>)
      ensures r == View().SetQuota(w, limits, Works)
    {
      if w !in workspaces {
        return Err(NotFound);
      }
      return Ok(());
    }
  }
}
