/** Saving and loading: exactly which metadata comes back, and what a load always yields. */
module CodecRoundTrip {
  import opened Prelude
  import opened Ids
  import opened Model
  import opened Text
  import opened Codec
  import opened CodecOrder

  // ---- What survives, and what becomes of the rest ----

  /** A time cut to whole seconds, and to the epoch if before it. */
  function Truncate(t: Time): Time {
    if t < 0 then 0 else t / SECOND * SECOND
  }

  function TruncateWorkspace(w: Workspace): Workspace {
    w.(createdAt := Truncate(w.createdAt), lastAccessed := Truncate(w.lastAccessed))
  }

  function TruncateSnapshot(s: Snapshot): Snapshot {
    s.(createdAt := Truncate(s.createdAt))
  }

  function TruncateTimes(m: Metadata): Metadata {
    m.(workspaces := map w | w in m.workspaces :: TruncateWorkspace(m.workspaces[w]),
       snapshots := map s | s in m.snapshots :: TruncateSnapshot(m.snapshots[s]))
  }

  predicate CleanPath(p: Path) {
    '\t' !in p && '\n' !in p
  }

  predicate CleanCidr(c: string) {
    c != "" && ',' !in c && '\t' !in c && '\n' !in c
  }

  predicate CleanPolicy(p: NetworkPolicy) {
    ValidId(p.id) && (p.AllowEgress? ==> forall c | c in p.cidrs :: CleanCidr(c))
  }

  predicate CleanWorkspace(w: Workspace) {
    && ValidId(w.id) && ValidId(w.agent) && ValidId(w.networkPolicy) && CleanPath(w.root)
    && (w.parent.Some? ==> ValidId(w.parent.value) && w.parent.value != "-")
  }

  predicate CleanSnapshot(s: Snapshot) {
    ValidId(s.id) && ValidId(s.source) && CleanPath(s.root)
  }

  ghost predicate CleanRecord(r: Record) {
    match r
    case Blank => true
    case PolicyRecord(p) => CleanPolicy(p)
    case WorkspaceRecord(w) => CleanWorkspace(w)
    case SnapshotRecord(s) => CleanSnapshot(s)
  }

  /** Every record is filed under its id and holds nothing the file format would split or misread. */
  ghost predicate Clean(m: Metadata) {
    && WellKeyed(m)
    && (forall p | p in m.policies :: CleanPolicy(m.policies[p]))
    && (forall w | w in m.workspaces :: CleanWorkspace(m.workspaces[w]))
    && (forall s | s in m.snapshots :: CleanSnapshot(m.snapshots[s]))
  }

  /** The last field of the line has a carriage return for `lines` to take. */
  predicate EndsInCr(p: NetworkPolicy) {
    && p.AllowEgress? && p.cidrs != []
    && var last := p.cidrs[|p.cidrs| - 1]; last != "" && last[|last| - 1] == '\r'
  }

  ghost predicate NoTrailingCr(m: Metadata) {
    forall p | p in m.policies :: !EndsInCr(m.policies[p])
  }

  /** A policy as it is read back: the last range loses a trailing carriage return, and goes if that was all of it. */
  function ReadPolicy(p: NetworkPolicy): NetworkPolicy {
    if p.AllowEgress? && p.cidrs != [] then
      var n := |p.cidrs| - 1;
      p.(cidrs := NonEmpty(p.cidrs[..n] + [StripCr(p.cidrs[n])]))
    else p
  }

  function ReadBack(m: Metadata): Metadata {
    TruncateTimes(m).(policies := map p | p in m.policies :: ReadPolicy(m.policies[p]))
  }

  // ---- Fields and lines ----

  lemma ValidIdIsClean(id: Id)
    requires ValidId(id)
    ensures '\t' !in id && '\n' !in id && '\r' !in id
  {
  }

  lemma DecimalIsClean(n: nat)
    ensures '\t' !in Decimal(n) && '\n' !in Decimal(n) && StripCr(Decimal(n)) == Decimal(n)
  {
    var s := Decimal(n);
    assert IsDigit(s[|s| - 1]);
  }

  /** A carriage return at the end of a joined line is one at the end of its last field. */
  lemma {:induction false} StripJoined(fields: seq<string>, c: char)
    requires fields != [] && c != '\r'
    ensures StripCr(Join(fields, c)) == Join(fields[..|fields| - 1] + [StripCr(fields[|fields| - 1])], c)
  {
    hide StripCr;
    var n := |fields| - 1;
    if n == 0 {
      assert fields[..0] + [StripCr(fields[0])] == [StripCr(fields[0])];
    } else {
      StripJoined(fields[1..], c);
      assert fields[1..][..n - 1] == fields[1..n];
      var stripped := fields[..n] + [StripCr(fields[n])];
      assert stripped[1..] == fields[1..n] + [StripCr(fields[n])];
      StripSuffix(fields[0], c, Join(fields[1..], c));
    }
  }

  lemma StripSuffix(s: string, c: char, rest: string)
    requires c != '\r'
    ensures StripCr(s + [c] + rest) == s + [c] + StripCr(rest)
  {
    if rest == "" {
      assert s + [c] + rest == s + [c];
    }
  }

  /** Splitting the line a reader sees gives the fields, the last of them stripped. */
  lemma ReadFields(fields: seq<string>)
    requires fields != [] && forall f | f in fields :: '\t' !in f
    ensures Split(StripCr(Join(fields, '\t')), '\t') == fields[..|fields| - 1] + [StripCr(fields[|fields| - 1])]
  {
    hide Split, Join;
    StripJoined(fields, '\t');
    var n := |fields| - 1;
    var read := fields[..n] + [StripCr(fields[n])];
    forall f | f in read ensures '\t' !in f {
      if f == read[n] { assert fields[n] in fields; } else { assert f in fields; }
    }
    SplitJoin(read, '\t');
  }

  lemma KindIsNotBlank(fields: seq<string>)
    requires |fields| > 1 && fields[0] != "" && !IsWhitespace(fields[0][0])
    ensures !IsBlank(StripCr(Join(fields, '\t')))
  {
    assert Join(fields, '\t')[0] == fields[0][0];
    assert |Join(fields, '\t')| > 1;
  }

  // ---- Each record ----

  lemma ReadTime(t: Time)
    ensures DecodeTime(Decimal(EncodeTime(t))) == Ok(Truncate(t))
  {
    ParseDecimal(EncodeTime(t), 0x1_0000_0000_0000_0000);
  }

  lemma {:induction false} NonEmptyKeepsAll(fields: seq<string>)
    requires forall f | f in fields :: f != ""
    ensures NonEmpty(fields) == fields
  {
    if fields != [] {
      assert fields == [fields[0]] + fields[1..];
      assert fields[0] in fields && forall f | f in fields[1..] :: f in fields;
      NonEmptyKeepsAll(fields[1..]);
    }
  }

  lemma ReadCidrs(cidrs: seq<string>)
    requires cidrs != [] && forall c | c in cidrs :: CleanCidr(c)
    ensures Split(StripCr(Join(cidrs, ',')), ',') == cidrs[..|cidrs| - 1] + [StripCr(cidrs[|cidrs| - 1])]
  {
    hide Split, Join;
    StripJoined(cidrs, ',');
    var n := |cidrs| - 1;
    var read := cidrs[..n] + [StripCr(cidrs[n])];
    forall f | f in read ensures ',' !in f {
      if f == read[n] { assert cidrs[n] in cidrs; } else { assert f in cidrs; }
    }
    SplitJoin(read, ',');
  }

  lemma PolicyFieldsAreClean(p: NetworkPolicy)
    requires CleanPolicy(p)
    ensures forall f | f in PolicyFields(p) :: '\t' !in f && '\n' !in f
  {
    ValidIdIsClean(p.id);
    if p.AllowEgress? {
      var joined := Join(p.cidrs, ',');
      if '\t' in joined { JoinMembers(p.cidrs, ',', '\t'); }
      if '\n' in joined { JoinMembers(p.cidrs, ',', '\n'); }
    }
  }

  lemma ReadPolicyLine(p: NetworkPolicy)
    requires CleanPolicy(p)
    ensures DecodeLine(StripCr(EncodePolicy(p))) == Ok(PolicyRecord(ReadPolicy(p)))
  {
    hide Split, Join, IsBlank, ValidId;
    var fields := PolicyFields(p);
    PolicyFieldsAreClean(p);
    ReadFields(fields);
    KindIsNotBlank(fields);
    if p.AllowEgress? {
      assert fields[..3] + [StripCr(fields[3])] == ["policy", p.id, "allow", StripCr(Join(p.cidrs, ','))];
      if p.cidrs == [] { NoCidrs(); } else { ReadCidrs(p.cidrs); }
    } else {
      assert fields[..2] + [StripCr(fields[2])] == ["policy", p.id, "deny"];
    }
  }

  lemma NoCidrs()
    ensures StripCr(Join([], ',')) == "" && NonEmpty(Split("", ',')) == []
  {
  }

  lemma WorkspaceFieldsAreClean(w: Workspace)
    requires CleanWorkspace(w)
    ensures forall f | f in WorkspaceFields(w) :: '\t' !in f && '\n' !in f
  {
    hide ValidId, Decimal;
    ValidIdIsClean(w.id);
    ValidIdIsClean(w.agent);
    ValidIdIsClean(w.networkPolicy);
    if w.parent.Some? { ValidIdIsClean(w.parent.value); }
    DecimalIsClean(w.limits.cpuWeight);
    DecimalIsClean(w.limits.memoryMax);
    DecimalIsClean(w.limits.pidsMax);
    DecimalIsClean(w.limits.diskMax);
    DecimalIsClean(EncodeTime(w.createdAt));
    DecimalIsClean(EncodeTime(w.lastAccessed));
  }

  lemma ReadLimits(l: ResourceLimits)
    ensures ParseField(Decimal(l.cpuWeight), 0x1_0000) == Ok(l.cpuWeight)
    ensures ParseField(Decimal(l.memoryMax), 0x1_0000_0000_0000_0000) == Ok(l.memoryMax)
    ensures ParseField(Decimal(l.pidsMax), 0x1_0000_0000) == Ok(l.pidsMax)
    ensures ParseField(Decimal(l.diskMax), 0x1_0000_0000_0000_0000) == Ok(l.diskMax)
  {
    ParseDecimal(l.cpuWeight, 0x1_0000);
    ParseDecimal(l.memoryMax, 0x1_0000_0000_0000_0000);
    ParseDecimal(l.pidsMax, 0x1_0000_0000);
    ParseDecimal(l.diskMax, 0x1_0000_0000_0000_0000);
  }

  lemma ReadWorkspaceFields(w: Workspace)
    requires CleanWorkspace(w)
    ensures DecodeWorkspace(WorkspaceFields(w)) == Ok(TruncateWorkspace(w))
  {
    hide ValidId, Decimal, ParseField, DecodeTime, EncodeTime, Truncate;
    ReadLimits(w.limits);
    ReadTime(w.createdAt);
    ReadTime(w.lastAccessed);
  }

  lemma ReadWorkspaceLine(w: Workspace)
    requires CleanWorkspace(w)
    ensures DecodeLine(StripCr(EncodeWorkspace(w))) == Ok(WorkspaceRecord(TruncateWorkspace(w)))
  {
    hide Split, Join, IsBlank, CleanWorkspace, DecodeWorkspace, StripCr;
    var fields := WorkspaceFields(w);
    WorkspaceFieldsAreClean(w);
    ReadFields(fields);
    DecimalIsClean(EncodeTime(w.lastAccessed));
    assert fields[..12] + [StripCr(fields[12])] == fields;
    KindIsNotBlank(fields);
    ReadWorkspaceFields(w);
  }

  lemma SnapshotFieldsAreClean(s: Snapshot)
    requires CleanSnapshot(s)
    ensures forall f | f in SnapshotFields(s) :: '\t' !in f && '\n' !in f
  {
    ValidIdIsClean(s.id);
    ValidIdIsClean(s.source);
    DecimalIsClean(EncodeTime(s.createdAt));
  }

  lemma ReadSnapshotLine(s: Snapshot)
    requires CleanSnapshot(s)
    ensures DecodeLine(StripCr(EncodeSnapshot(s))) == Ok(SnapshotRecord(TruncateSnapshot(s)))
  {
    hide Split, Join, IsBlank, ValidId, DecodeTime, StripCr, Decimal;
    var fields := SnapshotFields(s);
    SnapshotFieldsAreClean(s);
    ReadFields(fields);
    DecimalIsClean(EncodeTime(s.createdAt));
    assert fields[..4] + [StripCr(fields[4])] == fields;
    KindIsNotBlank(fields);
    ReadTime(s.createdAt);
  }

  /** A written line splits into these fields and no others, with plain numerals and times in whole seconds from the epoch. */
  lemma WrittenFields(w: Workspace, s: Snapshot, p: NetworkPolicy)
    ensures CleanWorkspace(w) ==>
      Split(EncodeWorkspace(w), '\t') ==
        [ "workspace", w.id, w.agent, w.root, if w.parent == None then "-" else w.parent.value,
          Decimal(w.limits.cpuWeight), Decimal(w.limits.memoryMax), Decimal(w.limits.pidsMax), Decimal(w.limits.diskMax),
          w.networkPolicy, if w.state == Deleted then "deleted" else "ready",
          Decimal(Truncate(w.createdAt) / SECOND), Decimal(Truncate(w.lastAccessed) / SECOND)]
    ensures CleanSnapshot(s) ==>
      Split(EncodeSnapshot(s), '\t') == ["snapshot", s.id, s.source, s.root, Decimal(Truncate(s.createdAt) / SECOND)]
    ensures CleanPolicy(p) ==>
      Split(EncodePolicy(p), '\t') == if p.DenyAll? then ["policy", p.id, "deny"] else ["policy", p.id, "allow", Join(p.cidrs, ',')]
  {
    hide Split, Join, Decimal, CleanWorkspace, CleanSnapshot, CleanPolicy, Truncate, EncodeTime;
    if CleanWorkspace(w) {
      WorkspaceFieldsAreClean(w);
      SplitJoin(WorkspaceFields(w), '\t');
      WrittenSeconds(w.createdAt);
      WrittenSeconds(w.lastAccessed);
    }
    if CleanSnapshot(s) {
      SnapshotFieldsAreClean(s);
      SplitJoin(SnapshotFields(s), '\t');
      WrittenSeconds(s.createdAt);
    }
    if CleanPolicy(p) {
      PolicyFieldsAreClean(p);
      SplitJoin(PolicyFields(p), '\t');
    }
  }

  lemma WrittenSeconds(t: Time)
    ensures EncodeTime(t) == Truncate(t) / SECOND
  {
  }

  // ---- The whole file ----

  lemma {:induction false} PolicyLinesMembers(records: map<Id, NetworkPolicy>, keys: seq<Id>, n: nat, l: string)
    requires n <= |keys| && forall i | 0 <= i < n :: keys[i] in records
    ensures l in PolicyLines(records, keys, n) <==> exists i | 0 <= i < n :: l == EncodePolicy(records[keys[i]])
  {
    hide EncodePolicy;
    if n > 0 { PolicyLinesMembers(records, keys, n - 1, l); }
  }

  lemma {:induction false} WorkspaceLinesMembers(records: map<Id, Workspace>, keys: seq<Id>, n: nat, l: string)
    requires n <= |keys| && forall i | 0 <= i < n :: keys[i] in records
    ensures l in WorkspaceLines(records, keys, n) <==> exists i | 0 <= i < n :: l == EncodeWorkspace(records[keys[i]])
  {
    hide EncodeWorkspace;
    if n > 0 { WorkspaceLinesMembers(records, keys, n - 1, l); }
  }

  lemma {:induction false} SnapshotLinesMembers(records: map<Id, Snapshot>, keys: seq<Id>, n: nat, l: string)
    requires n <= |keys| && forall i | 0 <= i < n :: keys[i] in records
    ensures l in SnapshotLines(records, keys, n) <==> exists i | 0 <= i < n :: l == EncodeSnapshot(records[keys[i]])
  {
    hide EncodeSnapshot;
    if n > 0 { SnapshotLinesMembers(records, keys, n - 1, l); }
  }

  function EncodeRecord(r: Record): string {
    match r
    case Blank => ""
    case PolicyRecord(p) => EncodePolicy(p)
    case WorkspaceRecord(w) => EncodeWorkspace(w)
    case SnapshotRecord(s) => EncodeSnapshot(s)
  }

  lemma PoliciesBlockMembers(m: Metadata, l: string)
    ensures l in PoliciesBlock(m) <==> exists id | id in m.policies :: l == EncodePolicy(m.policies[id])
  {
    hide EncodePolicy, PolicyLines, Ascending;
    var keys := SortedKeys(m.policies.Keys);
    PolicyLinesMembers(m.policies, keys, |keys|, l);
    if id :| id in m.policies && l == EncodePolicy(m.policies[id]) {
      assert id in keys;
      var i :| 0 <= i < |keys| && keys[i] == id;
    }
  }

  lemma WorkspacesBlockMembers(m: Metadata, l: string)
    ensures l in WorkspacesBlock(m) <==> exists id | id in m.workspaces :: l == EncodeWorkspace(m.workspaces[id])
  {
    hide EncodeWorkspace, WorkspaceLines, Ascending;
    var keys := SortedKeys(m.workspaces.Keys);
    WorkspaceLinesMembers(m.workspaces, keys, |keys|, l);
    if id :| id in m.workspaces && l == EncodeWorkspace(m.workspaces[id]) {
      assert id in keys;
      var i :| 0 <= i < |keys| && keys[i] == id;
    }
  }

  lemma SnapshotsBlockMembers(m: Metadata, l: string)
    ensures l in SnapshotsBlock(m) <==> exists id | id in m.snapshots :: l == EncodeSnapshot(m.snapshots[id])
  {
    hide EncodeSnapshot, SnapshotLines, Ascending;
    var keys := SortedKeys(m.snapshots.Keys);
    SnapshotLinesMembers(m.snapshots, keys, |keys|, l);
    if id :| id in m.snapshots && l == EncodeSnapshot(m.snapshots[id]) {
      assert id in keys;
      var i :| 0 <= i < |keys| && keys[i] == id;
    }
  }

  /** The lines written are those of the records filed. */
  lemma RecordLinesMembers(m: Metadata, l: string)
    ensures l in RecordLines(m) <==> exists k :: Get(m, k).Some? && l == EncodeRecord(Get(m, k).value)
  {
    hide EncodePolicy, EncodeWorkspace, EncodeSnapshot, PoliciesBlock, WorkspacesBlock, SnapshotsBlock;
    PoliciesBlockMembers(m, l);
    WorkspacesBlockMembers(m, l);
    SnapshotsBlockMembers(m, l);
    if id :| id in m.policies && l == EncodePolicy(m.policies[id]) { assert Get(m, PolicyKey(id)).Some?; }
    if id :| id in m.workspaces && l == EncodeWorkspace(m.workspaces[id]) { assert Get(m, WorkspaceKey(id)).Some?; }
    if id :| id in m.snapshots && l == EncodeSnapshot(m.snapshots[id]) { assert Get(m, SnapshotKey(id)).Some?; }
  }

  function ReadRecord(r: Record): Record {
    match r
    case Blank => Blank
    case PolicyRecord(p) => PolicyRecord(ReadPolicy(p))
    case WorkspaceRecord(w) => WorkspaceRecord(TruncateWorkspace(w))
    case SnapshotRecord(s) => SnapshotRecord(TruncateSnapshot(s))
  }

  /** A record of clean metadata: clean, named by its key, written on one line, and read back. */
  lemma FiledRecord(m: Metadata, k: Key)
    requires Clean(m) && Get(m, k).Some?
    ensures var r := Get(m, k).value; '\n' !in EncodeRecord(r) && Gives(StripCr(EncodeRecord(r)), k, ReadRecord(r))
    ensures Get(ReadBack(m), k) == Some(ReadRecord(Get(m, k).value))
  {
    hide DecodeLine, StripCr, ValidId, PolicyFields, WorkspaceFields, SnapshotFields, Join;
    match k {
      case PolicyKey(id) =>
        var p := m.policies[id];
        ReadPolicyLine(p);
        PolicyFieldsAreClean(p);
        if '\n' in EncodePolicy(p) { JoinMembers(PolicyFields(p), '\t', '\n'); }
      case WorkspaceKey(id) =>
        var w := m.workspaces[id];
        ReadWorkspaceLine(w);
        WorkspaceFieldsAreClean(w);
        if '\n' in EncodeWorkspace(w) { JoinMembers(WorkspaceFields(w), '\t', '\n'); }
      case SnapshotKey(id) =>
        var s := m.snapshots[id];
        ReadSnapshotLine(s);
        SnapshotFieldsAreClean(s);
        if '\n' in EncodeSnapshot(s) { JoinMembers(SnapshotFields(s), '\t', '\n'); }
    }
  }

  lemma ReadBackGets(m: Metadata, k: Key)
    requires Clean(m)
    ensures Get(ReadBack(m), k) == if Get(m, k).Some? then Some(ReadRecord(Get(m, k).value)) else None
  {
    hide ReadPolicy, TruncateWorkspace, TruncateSnapshot;
    match k
    case _ =>
  }

  lemma GivesIsFunctional(l: string, k: Key, k': Key, r: Record, r': Record)
    requires Gives(l, k, r) && Gives(l, k', r')
    ensures k == k' && r == r'
  {
  }

  /** The lines of a saved file, as a reader sees them, give each key what is to be read back. */
  lemma WrittenLinesGive(m: Metadata, k: Key, r: Record)
    requires Clean(m)
    ensures (exists l | l in StripAll(RecordLines(m)) :: Gives(l, k, r)) <==> Get(ReadBack(m), k) == Some(r)
  {
    hide Clean, RecordLines, Gives, Get, ReadBack, EncodeRecord, ReadRecord, StripCr;
    var lines := RecordLines(m);
    ReadBackGets(m, k);
    if l :| l in StripAll(lines) && Gives(l, k, r) {
      var i :| 0 <= i < |lines| && StripAll(lines)[i] == l;
      RecordLinesMembers(m, lines[i]);
      var k' :| Get(m, k').Some? && lines[i] == EncodeRecord(Get(m, k').value);
      FiledRecord(m, k');
      GivesIsFunctional(l, k, k', r, ReadRecord(Get(m, k').value));
    }
    if Get(ReadBack(m), k) == Some(r) {
      FiledRecord(m, k);
      var l := EncodeRecord(Get(m, k).value);
      RecordLinesMembers(m, l);
      var i :| 0 <= i < |lines| && lines[i] == l;
      assert StripAll(lines)[i] == StripCr(l);
      assert StripCr(l) in StripAll(lines);
    }
  }

  lemma WrittenLinesDecode(m: Metadata, i: nat)
    requires Clean(m) && i < |RecordLines(m)|
    ensures '\n' !in RecordLines(m)[i] && DecodeLine(StripAll(RecordLines(m))[i]).Ok?
  {
    hide Clean, RecordLines, Get, ReadBack, EncodeRecord, ReadRecord, StripCr, DecodeLine;
    var lines := RecordLines(m);
    RecordLinesMembers(m, lines[i]);
    var k :| Get(m, k).Some? && lines[i] == EncodeRecord(Get(m, k).value);
    FiledRecord(m, k);
  }

  lemma WrittenLinesLoad(m: Metadata)
    requires Clean(m)
    ensures var lines := StripAll(RecordLines(m)); DecodeRecords(lines, |lines|) == Ok(ReadBack(m))
  {
    hide Clean, RecordLines, Gives, Get, ReadBack, DecodeRecords, DecodeLine, LastGiven, StripCr;
    var lines := StripAll(RecordLines(m));
    forall i | 0 <= i < |lines| ensures DecodeLine(lines[i]).Ok? { WrittenLinesDecode(m, i); }
    AcceptsEachLine(lines, |lines|);
    forall l, l', k, r, r' | l in lines && l' in lines && Gives(l, k, r) && Gives(l', k, r') ensures r == r' {
      WrittenLinesGive(m, k, r);
      WrittenLinesGive(m, k, r');
    }
    assert Consistent(lines);
    var read := DecodeRecords(lines, |lines|).value;
    forall k ensures Get(read, k) == Get(ReadBack(m), k) {
      LastWins(lines, |lines|, k);
      if Get(read, k).Some? { ConsistentLookup(lines, k, Get(read, k).value); WrittenLinesGive(m, k, Get(read, k).value); }
      if Get(ReadBack(m), k).Some? {
        ConsistentLookup(lines, k, Get(ReadBack(m), k).value);
        WrittenLinesGive(m, k, Get(ReadBack(m), k).value);
      }
    }
    SameGetsSameMetadata(read, ReadBack(m));
  }

  /** Loading a saved file of clean metadata: times truncated, a carriage return that ends a policy line lost. */
  lemma LoadOfSaved(m: Metadata)
    requires Clean(m)
    ensures Decode(Encode(m)) == Ok(ReadBack(m))
  {
    hide Clean, RecordLines, ReadBack, DecodeRecords, Lines, Join;
    var records := RecordLines(m);
    var lines := [HEADER] + records;
    forall l | l in lines ensures '\n' !in l {
      if l != HEADER {
        var i :| 0 <= i < |records| && records[i] == l;
        WrittenLinesDecode(m, i);
      }
    }
    LinesOfJoined(lines);
    assert lines[1..] == records;
    assert StripAll(lines) == [HEADER] + StripAll(records);
    assert StripAll(lines)[1..] == StripAll(records);
    WrittenLinesLoad(m);
  }

  // ---- What a load yields ----

  /** No range holds a carriage return. */
  ghost predicate CrFree(r: Record) {
    r.PolicyRecord? && r.policy.AllowEgress? ==> forall c | c in r.policy.cidrs :: '\r' !in c
  }

  /** Every field a line is split into is free of tabs and of whatever the line is free of. */
  lemma FieldsAreClean(line: string, x: char)
    requires x !in line
    ensures forall f | f in Split(line, '\t') :: '\t' !in f && x !in f
  {
    forall f | f in Split(line, '\t') ensures '\t' !in f && x !in f { SplitMembers(line, '\t', f); }
  }

  lemma CidrsAreClean(field: string, x: char)
    requires x !in field && '\t' !in field
    ensures forall c | c in NonEmpty(Split(field, ',')) :: c != "" && ',' !in c && '\t' !in c && x !in c
  {
    hide Split;
    forall c | c in NonEmpty(Split(field, ',')) ensures c != "" && ',' !in c && '\t' !in c && x !in c {
      SplitMembers(field, ',', c);
    }
  }

  lemma DecodedTime(s: string)
    ensures DecodeTime(s).Ok? ==> Truncate(DecodeTime(s).value) == DecodeTime(s).value
  {
  }

  lemma DecodedPolicy(fields: seq<string>, x: char)
    requires DecodePolicy(fields).Ok? && x in {'\n', '\r'} && forall f | f in fields :: '\t' !in f && x !in f
    ensures var p := DecodePolicy(fields).value;
      && (x == '\n' ==> CleanPolicy(p))
      && (x == '\r' ==> CrFree(PolicyRecord(p)))
  {
    hide Split, ValidId;
    if |fields| > 3 { assert fields[3] in fields; CidrsAreClean(fields[3], x); } else { CidrsAreClean("", x); }
  }

  lemma DecodedWorkspace(fields: seq<string>)
    requires DecodeWorkspace(fields).Ok? && forall f | f in fields :: '\t' !in f && '\n' !in f
    ensures var w := DecodeWorkspace(fields).value; CleanWorkspace(w) && TruncateWorkspace(w) == w
  {
    hide ValidId, DecodeTime, ParseField, Truncate;
    assert fields[3] in fields;
    DecodedTime(fields[11]);
    DecodedTime(fields[12]);
  }

  lemma DecodedSnapshot(fields: seq<string>)
    requires DecodeSnapshot(fields).Ok? && forall f | f in fields :: '\t' !in f && '\n' !in f
    ensures var s := DecodeSnapshot(fields).value; CleanSnapshot(s) && TruncateSnapshot(s) == s
  {
    hide ValidId, DecodeTime, Truncate;
    assert fields[3] in fields;
    DecodedTime(fields[4]);
  }

  ghost predicate WholeSeconds(r: Record) {
    && (r.WorkspaceRecord? ==> TruncateWorkspace(r.workspace) == r.workspace)
    && (r.SnapshotRecord? ==> TruncateSnapshot(r.snapshot) == r.snapshot)
  }

  lemma DecodedLine(line: string)
    requires '\n' !in line && DecodeLine(line).Ok?
    ensures CleanRecord(DecodeLine(line).value) && WholeSeconds(DecodeLine(line).value)
    ensures '\r' !in line ==> CrFree(DecodeLine(line).value)
  {
    hide Split, IsBlank, DecodePolicy, DecodeWorkspace, DecodeSnapshot, CleanPolicy, CleanWorkspace, CleanSnapshot,
      TruncateWorkspace, TruncateSnapshot;
    if !IsBlank(line) {
      var fields := Split(line, '\t');
      FieldsAreClean(line, '\n');
      if '\r' !in line { FieldsAreClean(line, '\r'); }
      match DecodeLine(line).value {
        case PolicyRecord(_) =>
          DecodedPolicy(fields, '\n');
          if '\r' !in line { DecodedPolicy(fields, '\r'); }
        case WorkspaceRecord(_) => DecodedWorkspace(fields);
        case SnapshotRecord(_) => DecodedSnapshot(fields);
        case Blank =>
      }
    }
  }

  /** What holds of metadata exactly when it holds of every record filed under its own key. */
  ghost predicate Loaded(m: Metadata) {
    forall k | Get(m, k).Some? :: Names(Get(m, k).value, k) && CleanRecord(Get(m, k).value) && WholeSeconds(Get(m, k).value)
  }

  lemma LoadedIsClean(m: Metadata)
    requires Loaded(m)
    ensures Clean(m) && TruncateTimes(m) == m
  {
    hide CleanPolicy, CleanWorkspace, CleanSnapshot, TruncateWorkspace, TruncateSnapshot;
    forall id | id in m.policies ensures m.policies[id].id == id && CleanPolicy(m.policies[id]) {
      assert Get(m, PolicyKey(id)).Some?;
    }
    forall id | id in m.workspaces
      ensures m.workspaces[id].id == id && CleanWorkspace(m.workspaces[id]) && TruncateWorkspace(m.workspaces[id]) == m.workspaces[id]
    {
      assert Get(m, WorkspaceKey(id)).Some?;
    }
    forall id | id in m.snapshots
      ensures m.snapshots[id].id == id && CleanSnapshot(m.snapshots[id]) && TruncateSnapshot(m.snapshots[id]) == m.snapshots[id]
    {
      assert Get(m, SnapshotKey(id)).Some?;
    }
    assert TruncateTimes(m).workspaces == m.workspaces;
    assert TruncateTimes(m).snapshots == m.snapshots;
  }

  /** A record the loaded metadata holds was decoded from one of the lines. */
  lemma RecordComesFromLine(lines: seq<string>, k: Key)
    requires DecodeRecords(lines, |lines|).Ok? && Get(DecodeRecords(lines, |lines|).value, k).Some?
    ensures exists i | 0 <= i < |lines| :: Gives(lines[i], k, Get(DecodeRecords(lines, |lines|).value, k).value)
  {
    hide DecodeRecords, Get, Gives;
    LastWins(lines, |lines|, k);
    LastGivenIsGiven(lines, |lines|, k);
  }

  /** Whatever loads is clean, in whole seconds, and free of carriage returns if the text was. */
  lemma LoadYieldsClean(text: string)
    requires Decode(text).Ok?
    ensures var m := Decode(text).value; Clean(m) && TruncateTimes(m) == m && ('\r' !in text ==> NoTrailingCr(m))
  {
    hide DecodeRecords, Get, DecodeLine, Clean, TruncateTimes, Lines, CleanRecord, WholeSeconds, Names;
    var all := Lines(text);
    var lines := all[1..];
    var m := Decode(text).value;
    forall k | Get(m, k).Some?
      ensures Names(Get(m, k).value, k) && CleanRecord(Get(m, k).value) && WholeSeconds(Get(m, k).value)
      ensures '\r' !in text ==> CrFree(Get(m, k).value)
    {
      RecordComesFromLine(lines, k);
      var i :| 0 <= i < |lines| && Gives(lines[i], k, Get(m, k).value);
      assert lines[i] == all[i + 1];
      LineMembers(text, lines[i]);
      DecodedLine(lines[i]);
    }
    assert Loaded(m);
    LoadedIsClean(m);
    if '\r' !in text { CrFreeHasNoTrailingCr(m); }
  }

  lemma CrFreeHasNoTrailingCr(m: Metadata)
    requires forall k | Get(m, k).Some? :: CrFree(Get(m, k).value)
    ensures NoTrailingCr(m)
  {
    forall id | id in m.policies ensures !EndsInCr(m.policies[id]) {
      assert Get(m, PolicyKey(id)) == Some(PolicyRecord(m.policies[id]));
      var p := m.policies[id];
      if p.AllowEgress? && p.cidrs != [] {
        assert p.cidrs[|p.cidrs| - 1] in p.cidrs;
      }
    }
  }

  // ---- The main results ----

  lemma {:induction false} NonEmptyDropsLast(fields: seq<string>)
    requires forall f | f in fields :: f != ""
    ensures NonEmpty(fields + [""]) == fields
  {
    if fields == [] {
      assert fields + [""] == [""];
    } else {
      assert fields == [fields[0]] + fields[1..];
      assert fields[0] in fields && forall f | f in fields[1..] :: f in fields;
      assert (fields + [""])[1..] == fields[1..] + [""];
      NonEmptyDropsLast(fields[1..]);
    }
  }

  lemma StripChanges(s: string)
    ensures StripCr(s) != s <==> s != "" && s[|s| - 1] == '\r'
  {
  }

  lemma ReadPolicyChanges(p: NetworkPolicy)
    requires CleanPolicy(p)
    ensures ReadPolicy(p) == p <==> !EndsInCr(p)
  {
    hide ValidId, StripCr, NonEmpty;
    if p.AllowEgress? && p.cidrs != [] {
      var n := |p.cidrs| - 1;
      var last := StripCr(p.cidrs[n]);
      forall f | f in p.cidrs[..n] ensures f != "" { assert f in p.cidrs; }
      assert p.cidrs[..n] + [p.cidrs[n]] == p.cidrs;
      StripChanges(p.cidrs[n]);
      if last == "" {
        NonEmptyDropsLast(p.cidrs[..n]);
        assert p.cidrs[n] in p.cidrs;
      } else {
        NonEmptyKeepsAll(p.cidrs[..n] + [last]);
        assert (p.cidrs[..n] + [last])[n] == last;
      }
    }
  }

  lemma ReadBackChanges(m: Metadata)
    requires Clean(m)
    ensures ReadBack(m) == TruncateTimes(m) <==> NoTrailingCr(m)
  {
    hide CleanPolicy, CleanWorkspace, CleanSnapshot, EndsInCr, ReadPolicy, TruncateTimes;
    assert TruncateTimes(m).policies == m.policies by { TruncateKeepsPolicies(m); }
    forall id | id in m.policies ensures ReadPolicy(m.policies[id]) == m.policies[id] <==> !EndsInCr(m.policies[id]) {
      ReadPolicyChanges(m.policies[id]);
    }
    if NoTrailingCr(m) {
      assert ReadBack(m).policies == m.policies;
    } else {
      var id :| id in m.policies && EndsInCr(m.policies[id]);
      assert ReadBack(m).policies[id] != m.policies[id];
    }
  }

  lemma TruncateKeepsPolicies(m: Metadata)
    ensures TruncateTimes(m).policies == m.policies
  {
  }

  lemma CleanTimesDoNotMatter(m: Metadata)
    ensures Clean(TruncateTimes(m)) ==> Clean(m)
  {
    hide CleanPolicy, ValidId, CleanPath, Truncate;
    var t := TruncateTimes(m);
    if Clean(t) {
      forall w | w in m.workspaces ensures m.workspaces[w].id == w && CleanWorkspace(m.workspaces[w]) {
        assert w in t.workspaces && t.workspaces[w] == TruncateWorkspace(m.workspaces[w]);
      }
      forall s | s in m.snapshots ensures m.snapshots[s].id == s && CleanSnapshot(m.snapshots[s]) {
        assert s in t.snapshots && t.snapshots[s] == TruncateSnapshot(m.snapshots[s]);
      }
    }
  }

  /**
   * Saving and loading gives back the metadata, times in whole seconds and not before the epoch,
   * exactly when the metadata is clean and no policy line ends in a carriage return.
   */
  lemma RoundTrip(m: Metadata)
    ensures Decode(Encode(m)) == Ok(TruncateTimes(m)) <==> Clean(m) && NoTrailingCr(m)
  {
    hide Decode, Encode, Clean, NoTrailingCr, TruncateTimes, ReadBack;
    if Decode(Encode(m)) == Ok(TruncateTimes(m)) {
      LoadYieldsClean(Encode(m));
      CleanTimesDoNotMatter(m);
    }
    if Clean(m) {
      LoadOfSaved(m);
      ReadBackChanges(m);
    }
  }

  /**
   * What any text loads to is saved and loaded back unchanged, exactly when no policy of it ends in a
   * carriage return; a text without carriage returns always qualifies.
   */
  lemma NormalForm(text: string)
    requires Decode(text).Ok?
    ensures Decode(Encode(Decode(text).value)) == Decode(text) <==> NoTrailingCr(Decode(text).value)
    ensures '\r' !in text ==> Decode(Encode(Decode(text).value)) == Decode(text)
  {
    hide Decode, Encode, Clean, NoTrailingCr, TruncateTimes;
    LoadYieldsClean(text);
    RoundTrip(Decode(text).value);
  }
}
