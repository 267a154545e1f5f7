/** The metadata file of src/metadata.rs: what `save` writes and what `load` makes of a text. */
module Codec {
  import opened Prelude
  import opened Ids
  import opened Model
  import opened Text

  const HEADER := "flarenv-metadata-v1"

  // ---- Encoding ----

  function EncodeTime(t: Time): nat {
    if t < 0 then 0 else t / SECOND
  }

  function EncodeState(s: WorkspaceState): string {
    match s case Ready => "ready" case Deleted => "deleted"
  }

  function PolicyFields(p: NetworkPolicy): seq<string> {
    match p
    case DenyAll(id) => ["policy", id, "deny"]
    case AllowEgress(id, cidrs) => ["policy", id, "allow", Join(cidrs, ',')]
  }

  function WorkspaceFields(w: Workspace): seq<string> {
    [ "workspace",
      w.id,
      w.agent,
      w.root,
      if w.parent.Some? then w.parent.value else "-",
      Decimal(w.limits.cpuWeight),
      Decimal(w.limits.memoryMax),
      Decimal(w.limits.pidsMax),
      Decimal(w.limits.diskMax),
      w.networkPolicy,
      EncodeState(w.state),
      Decimal(EncodeTime(w.createdAt)),
      Decimal(EncodeTime(w.lastAccessed))]
  }

  function SnapshotFields(s: Snapshot): seq<string> {
    ["snapshot", s.id, s.source, s.root, Decimal(EncodeTime(s.createdAt))]
  }

  function EncodePolicy(p: NetworkPolicy): string {
    Join(PolicyFields(p), '\t')
  }

  function EncodeWorkspace(w: Workspace): string {
    Join(WorkspaceFields(w), '\t')
  }

  function EncodeSnapshot(s: Snapshot): string {
    Join(SnapshotFields(s), '\t')
  }

  function PolicyLines(records: map<Id, NetworkPolicy>, keys: seq<Id>, n: nat): seq<string>
    requires n <= |keys| && forall i | 0 <= i < n :: keys[i] in records
  {
    if n == 0 then [] else PolicyLines(records, keys, n - 1) + [EncodePolicy(records[keys[n - 1]])]
  }

  function WorkspaceLines(records: map<Id, Workspace>, keys: seq<Id>, n: nat): seq<string>
    requires n <= |keys| && forall i | 0 <= i < n :: keys[i] in records
  {
    if n == 0 then [] else WorkspaceLines(records, keys, n - 1) + [EncodeWorkspace(records[keys[n - 1]])]
  }

  function SnapshotLines(records: map<Id, Snapshot>, keys: seq<Id>, n: nat): seq<string>
    requires n <= |keys| && forall i | 0 <= i < n :: keys[i] in records
  {
    if n == 0 then [] else SnapshotLines(records, keys, n - 1) + [EncodeSnapshot(records[keys[n - 1]])]
  }

  function PoliciesBlock(m: Metadata): seq<string> {
    var keys := SortedKeys(m.policies.Keys);
    PolicyLines(m.policies, keys, |keys|)
  }

  function WorkspacesBlock(m: Metadata): seq<string> {
    var keys := SortedKeys(m.workspaces.Keys);
    WorkspaceLines(m.workspaces, keys, |keys|)
  }

  function SnapshotsBlock(m: Metadata): seq<string> {
    var keys := SortedKeys(m.snapshots.Keys);
    SnapshotLines(m.snapshots, keys, |keys|)
  }

  /** The record lines of a saved file: policies, workspaces, snapshots, each in key order. */
  function RecordLines(m: Metadata): seq<string> {
    PoliciesBlock(m) + WorkspacesBlock(m) + SnapshotsBlock(m)
  }

  function Encode(m: Metadata): string {
    Join([HEADER] + RecordLines(m), '\n') + "\n"
  }

  method SavePolicies(m: Metadata) returns (lines: seq<string>)
    ensures lines == PoliciesBlock(m)
  {
    hide EncodePolicy;
    lines := [];
    var keys := SortedKeys(m.policies.Keys);
    for i := 0 to |keys|
      invariant lines == PolicyLines(m.policies, keys, i)
    {
      lines := lines + [EncodePolicy(m.policies[keys[i]])];
    }
  }

  method SaveWorkspaces(m: Metadata) returns (lines: seq<string>)
    ensures lines == WorkspacesBlock(m)
  {
    hide EncodeWorkspace;
    lines := [];
    var keys := SortedKeys(m.workspaces.Keys);
    for i := 0 to |keys|
      invariant lines == WorkspaceLines(m.workspaces, keys, i)
    {
      lines := lines + [EncodeWorkspace(m.workspaces[keys[i]])];
    }
  }

  method SaveSnapshots(m: Metadata) returns (lines: seq<string>)
    ensures lines == SnapshotsBlock(m)
  {
    hide EncodeSnapshot;
    lines := [];
    var keys := SortedKeys(m.snapshots.Keys);
    for i := 0 to |keys|
      invariant lines == SnapshotLines(m.snapshots, keys, i)
    {
      lines := lines + [EncodeSnapshot(m.snapshots[keys[i]])];
    }
  }

  method Save(m: Metadata) returns (text: string)
    ensures text == Encode(m)
  {
    hide PoliciesBlock, WorkspacesBlock, SnapshotsBlock, Join;
    var policies := SavePolicies(m);
    var workspaces := SaveWorkspaces(m);
    var snapshots := SaveSnapshots(m);
    text := Join([HEADER] + (policies + workspaces + snapshots), '\n') + "\n";
  }

  // ---- Decoding ----

  datatype Record =
    | Blank
    | PolicyRecord(policy: NetworkPolicy)
    | WorkspaceRecord(workspace: Workspace)
    | SnapshotRecord(snapshot: Snapshot)

  function ParseField(s: string, limit: nat): (r: Result<nat>)
    ensures r.Ok? ==> r.value < limit
    ensures r.Err? ==> r.error == InvalidInput
  {
    var n := ParseUnsigned(s, limit);
    if n.Some? then Ok(n.value) else Err(InvalidInput)
  }

  /** The addition overflows, which is a panic, for seconds that do not fit a signed 64-bit count. */
  function DecodeTime(s: string): Result<Time> {
    var secs :- ParseField(s, 0x1_0000_0000_0000_0000);
    if secs < 0x8000_0000_0000_0000 then Ok(secs * SECOND) else Err(Panic)
  }

  function DecodeState(s: string): Result<WorkspaceState> {
    if s == "ready" then Ok(Ready) else if s == "deleted" then Ok(Deleted) else Err(InvalidInput)
  }

  function NonEmpty(fields: seq<string>): (kept: seq<string>)
    ensures forall f | f in kept :: f != "" && f in fields
  {
    if fields == [] then [] else (if fields[0] == "" then [] else [fields[0]]) + NonEmpty(fields[1..])
  }

  function DecodePolicy(fields: seq<string>): Result<NetworkPolicy> {
    if |fields| < 3 then Err(InvalidInput)
    else
      var id :- NewId(fields[1]);
      if fields[2] == "deny" then Ok(DenyAll(id))
      else if fields[2] == "allow" then Ok(AllowEgress(id, NonEmpty(Split(if |fields| > 3 then fields[3] else "", ','))))
      else Err(InvalidInput)
  }

  function DecodeWorkspace(fields: seq<string>): Result<Workspace> {
    if |fields| < 13 then Err(InvalidInput)
    else
      var parent :- if fields[4] == "-" then Ok(None) else (var p :- NewId(fields[4]); Ok(Some(p)));
      var id :- NewId(fields[1]);
      var agent :- NewId(fields[2]);
      var cpu :- ParseField(fields[5], 0x1_0000);
      var memory :- ParseField(fields[6], 0x1_0000_0000_0000_0000);
      var pids :- ParseField(fields[7], 0x1_0000_0000);
      var disk :- ParseField(fields[8], 0x1_0000_0000_0000_0000);
      var policy :- NewId(fields[9]);
      var state :- DecodeState(fields[10]);
      var created :- DecodeTime(fields[11]);
      var accessed :- DecodeTime(fields[12]);
      Ok(Workspace(id, agent, fields[3], parent, ResourceLimits(cpu, memory, pids, disk), policy, state, created, accessed))
  }

  function DecodeSnapshot(fields: seq<string>): Result<Snapshot> {
    if |fields| < 5 then Err(InvalidInput)
    else
      var id :- NewId(fields[1]);
      var source :- NewId(fields[2]);
      var created :- DecodeTime(fields[4]);
      Ok(Snapshot(id, source, fields[3], created))
  }

  function DecodeFields(fields: seq<string>): Result<Record>
    requires fields != []
  {
    if fields[0] == "policy" then var p :- DecodePolicy(fields); Ok(PolicyRecord(p))
    else if fields[0] == "workspace" then var w :- DecodeWorkspace(fields); Ok(WorkspaceRecord(w))
    else if fields[0] == "snapshot" then var s :- DecodeSnapshot(fields); Ok(SnapshotRecord(s))
    else Err(InvalidInput)
  }

  function DecodeLine(line: string): Result<Record> {
    if IsBlank(line) then Ok(Blank) else DecodeFields(Split(line, '\t'))
  }

  function Insert(m: Metadata, r: Record): Metadata {
    match r
    case Blank => m
    case PolicyRecord(p) => m.(policies := m.policies[p.id := p])
    case WorkspaceRecord(w) => m.(workspaces := m.workspaces[w.id := w])
    case SnapshotRecord(s) => m.(snapshots := m.snapshots[s.id := s])
  }

  /** What the first `n` record lines amount to; the first bad line decides the error. */
  function DecodeRecords(lines: seq<string>, n: nat): Result<Metadata>
    requires n <= |lines|
  {
    if n == 0 then Ok(EMPTY_METADATA)
    else
      var m :- DecodeRecords(lines, n - 1);
      var r :- DecodeLine(lines[n - 1]);
      Ok(Insert(m, r))
  }

  function Decode(text: string): Result<Metadata> {
    var lines := Lines(text);
    if lines == [] || lines[0] != HEADER then Err(InvalidInput)
    else DecodeRecords(lines[1..], |lines| - 1)
  }

  lemma {:induction false} ErrorsStay(lines: seq<string>, i: nat, n: nat)
    requires i <= n <= |lines| && DecodeRecords(lines, i).Err?
    ensures DecodeRecords(lines, n) == DecodeRecords(lines, i)
  {
    if i < n { ErrorsStay(lines, i, n - 1); }
  }

  method Load(text: string) returns (r: Result<Metadata>)
    ensures r == Decode(text)
  {
    hide Lines, Split, IsBlank, DecodePolicy, DecodeWorkspace, DecodeSnapshot;
    var all := Lines(text);
    if all == [] || all[0] != HEADER {
      return Err(InvalidInput);
    }
    var lines := all[1..];
    var m := EMPTY_METADATA;
    for i := 0 to |lines|
      invariant DecodeRecords(lines, i) == Ok(m)
    {
      if IsBlank(lines[i]) {
        continue;
      }
      var fields := Split(lines[i], '\t');
      var error := None;
      if fields[0] == "policy" {
        var p := DecodePolicy(fields);
        if p.Ok? { m := m.(policies := m.policies[p.value.id := p.value]); } else { error := Some(p.error); }
      } else if fields[0] == "workspace" {
        var w := DecodeWorkspace(fields);
        if w.Ok? { m := m.(workspaces := m.workspaces[w.value.id := w.value]); } else { error := Some(w.error); }
      } else if fields[0] == "snapshot" {
        var s := DecodeSnapshot(fields);
        if s.Ok? { m := m.(snapshots := m.snapshots[s.value.id := s.value]); } else { error := Some(s.error); }
      } else {
        error := Some(InvalidInput);
      }
      if error.Some? {
        ErrorsStay(lines, i + 1, |lines|);
        return Err(error.value);
      }
    }
    return Ok(m);
  }
}
