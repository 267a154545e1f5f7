/** The records of src/model.rs, src/network.rs, src/nix_profile.rs and src/executor.rs. */
module Model {
  import opened Prelude
  import opened Ids

  /** A UTF-8 path. */
  type Path = string

  type U16 = n: nat | n < 0x1_0000
  type U32 = n: nat | n < 0x1_0000_0000
  type U64 = n: nat | n < WRAP

  /** Where 64-bit arithmetic wraps. */
  const WRAP := 0x1_0000_0000_0000_0000

  lemma ModuloAdds(a: nat, b: nat)
    ensures (a % WRAP + b) % WRAP == (a + b) % WRAP
  {
  }

  /** Nanoseconds in a second. */
  const SECOND := 1_000_000_000

  /** A `SystemTime`, in nanoseconds since the epoch; its seconds fit a signed 64-bit count. */
  type Time = t: int
    | -9_223_372_036_854_775_808_000_000_000 <= t < 9_223_372_036_854_775_808_000_000_000
    witness 0

  datatype WorkspaceState = Ready | Deleted

  datatype ResourceLimits = ResourceLimits(cpuWeight: U16, memoryMax: U64, pidsMax: U32, diskMax: U64)

  const DEFAULT_LIMITS := ResourceLimits(100, 2_147_483_648, 256, 10_737_418_240)

  datatype Workspace = Workspace(
    id: Id,
    agent: Id,
    root: Path,
    parent: Option<Id>,
    limits: ResourceLimits,
    networkPolicy: Id,
    state: WorkspaceState,
    createdAt: Time,
    lastAccessed: Time)

  datatype Snapshot = Snapshot(id: Id, source: Id, root: Path, createdAt: Time)

  datatype NetworkPolicy = DenyAll(id: Id) | AllowEgress(id: Id, cidrs: seq<string>)

  datatype SessionRequest = SessionRequest(command: Option<seq<string>>, tty: bool)

  datatype NixProfile = NixProfile(storePath: Path, profilePath: Path)

  datatype ExecRequest = ExecRequest(
    sessionId: Id,
    workspace: Workspace,
    session: SessionRequest,
    profile: NixProfile,
    policy: NetworkPolicy)

  /** The three maps of `InMemoryMetadata`. */
  datatype Metadata = Metadata(
    workspaces: map<Id, Workspace>,
    snapshots: map<Id, Snapshot>,
    policies: map<Id, NetworkPolicy>)

  const EMPTY_METADATA := Metadata(map[], map[], map[])

  /** Every map files a record under the record's own id. */
  ghost predicate WellKeyed(m: Metadata) {
    && (forall w | w in m.workspaces :: m.workspaces[w].id == w)
    && (forall s | s in m.snapshots :: m.snapshots[s].id == s)
    && (forall p | p in m.policies :: m.policies[p].id == p)
  }

  /** Some workspace was branched from this snapshot. */
  predicate IsParent(m: Metadata, s: Id) {
    exists w | w in m.workspaces :: m.workspaces[w].parent == Some(s)
  }
}
