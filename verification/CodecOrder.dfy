/** Loading as last-wins lookup: when the order of record lines matters. */
module CodecOrder {
  import opened Prelude
  import opened Ids
  import opened Model
  import opened Text
  import opened Codec

  datatype Key = PolicyKey(id: Id) | WorkspaceKey(id: Id) | SnapshotKey(id: Id)

  predicate Names(r: Record, k: Key) {
    match r
    case Blank => false
    case PolicyRecord(p) => k == PolicyKey(p.id)
    case WorkspaceRecord(w) => k == WorkspaceKey(w.id)
    case SnapshotRecord(s) => k == SnapshotKey(s.id)
  }

  /** The record filed under a key. */
  function Get(m: Metadata, k: Key): Option<Record> {
    match k
    case PolicyKey(id) => if id in m.policies then Some(PolicyRecord(m.policies[id])) else None
    case WorkspaceKey(id) => if id in m.workspaces then Some(WorkspaceRecord(m.workspaces[id])) else None
    case SnapshotKey(id) => if id in m.snapshots then Some(SnapshotRecord(m.snapshots[id])) else None
  }

  lemma SameGetsSameMetadata(a: Metadata, b: Metadata)
    requires forall k :: Get(a, k) == Get(b, k)
    ensures a == b
  {
    forall id ensures id in a.policies <==> id in b.policies { assert Get(a, PolicyKey(id)) == Get(b, PolicyKey(id)); }
    forall id ensures id in a.workspaces <==> id in b.workspaces { assert Get(a, WorkspaceKey(id)) == Get(b, WorkspaceKey(id)); }
    forall id ensures id in a.snapshots <==> id in b.snapshots { assert Get(a, SnapshotKey(id)) == Get(b, SnapshotKey(id)); }
    forall id | id in a.policies ensures a.policies[id] == b.policies[id] { assert Get(a, PolicyKey(id)) == Get(b, PolicyKey(id)); }
    forall id | id in a.workspaces ensures a.workspaces[id] == b.workspaces[id] { assert Get(a, WorkspaceKey(id)) == Get(b, WorkspaceKey(id)); }
    forall id | id in a.snapshots ensures a.snapshots[id] == b.snapshots[id] { assert Get(a, SnapshotKey(id)) == Get(b, SnapshotKey(id)); }
    assert a.policies == b.policies && a.workspaces == b.workspaces && a.snapshots == b.snapshots;
  }

  /** The line is a good record for the key. */
  ghost predicate Gives(line: string, k: Key, r: Record) {
    DecodeLine(line) == Ok(r) && Names(r, k)
  }

  /** Loading accepts the lines exactly when it accepts each of them, whatever their order. */
  lemma {:induction false} AcceptsEachLine(lines: seq<string>, n: nat)
    requires n <= |lines|
    ensures DecodeRecords(lines, n).Ok? <==> forall i | 0 <= i < n :: DecodeLine(lines[i]).Ok?
  {
    hide DecodeLine;
    if n > 0 { AcceptsEachLine(lines, n - 1); }
  }

  /** The record for the key on the last of the first `n` lines that has one. */
  ghost function LastGiven(lines: seq<string>, n: nat, k: Key): Option<Record>
    requires n <= |lines|
  {
    if n == 0 then None
    else
      var r := DecodeLine(lines[n - 1]);
      if r.Ok? && Names(r.value, k) then Some(r.value) else LastGiven(lines, n - 1, k)
  }

  lemma InsertGets(m: Metadata, r: Record, k: Key)
    ensures Get(Insert(m, r), k) == if Names(r, k) then Some(r) else Get(m, k)
  {
  }

  /** For every key the last record wins. */
  lemma {:induction false} LastWins(lines: seq<string>, n: nat, k: Key)
    requires n <= |lines| && DecodeRecords(lines, n).Ok?
    ensures Get(DecodeRecords(lines, n).value, k) == LastGiven(lines, n, k)
  {
    hide DecodeLine, Get, Insert, Names;
    if n > 0 {
      LastWins(lines, n - 1, k);
      InsertGets(DecodeRecords(lines, n - 1).value, DecodeLine(lines[n - 1]).value, k);
    } else {
      NothingInEmpty(k);
    }
  }

  lemma NothingInEmpty(k: Key)
    ensures Get(EMPTY_METADATA, k) == None
  {
  }

  /** No two lines give different records for one key. */
  ghost predicate Consistent(lines: seq<string>) {
    forall l, l', k, r, r' | l in lines && l' in lines && Gives(l, k, r) && Gives(l', k, r') :: r == r'
  }

  lemma {:induction false} LastGivenIsGiven(lines: seq<string>, n: nat, k: Key)
    requires n <= |lines|
    ensures LastGiven(lines, n, k).Some? ==> exists i | 0 <= i < n :: Gives(lines[i], k, LastGiven(lines, n, k).value)
    ensures forall i, r | 0 <= i < n && Gives(lines[i], k, r) :: LastGiven(lines, n, k).Some?
  {
    hide DecodeLine, Names;
    if n > 0 {
      LastGivenIsGiven(lines, n - 1, k);
      var r := DecodeLine(lines[n - 1]);
      if r.Ok? && Names(r.value, k) { assert Gives(lines[n - 1], k, r.value); }
    }
  }

  /** Without conflicts a key's value is the record some line gives it, wherever the line stands. */
  lemma ConsistentLookup(lines: seq<string>, k: Key, r: Record)
    requires Consistent(lines)
    ensures LastGiven(lines, |lines|, k) == Some(r) <==> exists l | l in lines :: Gives(l, k, r)
  {
    hide DecodeLine, Names, LastGiven, Gives;
    LastGivenIsGiven(lines, |lines|, k);
    if l :| l in lines && Gives(l, k, r) {
      var i :| 0 <= i < |lines| && lines[i] == l;
      var j :| 0 <= j < |lines| && Gives(lines[j], k, LastGiven(lines, |lines|, k).value);
      assert lines[j] in lines;
    }
  }

  /** Accepted lines without conflicts load to the same metadata as any lines with the same members. */
  lemma OrderAndRepetitionDoNotMatter(a: seq<string>, b: seq<string>)
    requires Consistent(a) && (forall l :: l in a <==> l in b)
    ensures DecodeRecords(a, |a|).Ok? <==> DecodeRecords(b, |b|).Ok?
    ensures DecodeRecords(a, |a|).Ok? ==> DecodeRecords(a, |a|) == DecodeRecords(b, |b|)
  {
    hide DecodeLine, Names, LastGiven, Get, DecodeRecords, Gives;
    AcceptsEachLine(a, |a|);
    AcceptsEachLine(b, |b|);
    assert (forall i | 0 <= i < |a| :: DecodeLine(a[i]).Ok?) <==> forall l | l in a :: DecodeLine(l).Ok?;
    assert (forall i | 0 <= i < |b| :: DecodeLine(b[i]).Ok?) <==> forall l | l in b :: DecodeLine(l).Ok?;
    if DecodeRecords(a, |a|).Ok? {
      assert Consistent(b);
      forall k ensures Get(DecodeRecords(a, |a|).value, k) == Get(DecodeRecords(b, |b|).value, k) {
        LastWins(a, |a|, k);
        LastWins(b, |b|, k);
        var x, y := LastGiven(a, |a|, k), LastGiven(b, |b|, k);
        if x.Some? { ConsistentLookup(a, k, x.value); ConsistentLookup(b, k, x.value); }
        if y.Some? { ConsistentLookup(a, k, y.value); ConsistentLookup(b, k, y.value); }
      }
      SameGetsSameMetadata(DecodeRecords(a, |a|).value, DecodeRecords(b, |b|).value);
    }
  }

  /** `s` with its element at `i` moved to the end. */
  function MoveLast(s: seq<string>, i: nat): seq<string>
    requires i < |s|
  {
    s[..i] + s[i + 1..] + [s[i]]
  }

  lemma MoveLastPermutes(s: seq<string>, i: nat)
    requires i < |s|
    ensures multiset(MoveLast(s, i)) == multiset(s)
  {
    assert s == s[..i] + [s[i]] + s[i + 1..];
  }

  lemma SameMultisetSameMembers(a: seq<string>, b: seq<string>)
    requires multiset(a) == multiset(b)
    ensures forall l :: l in a <==> l in b
  {
    forall l ensures l in a <==> l in b {
      assert l in a <==> l in multiset(a);
      assert l in b <==> l in multiset(b);
    }
  }

  ghost predicate OrderFree(lines: seq<string>) {
    forall other | multiset(other) == multiset(lines) :: DecodeRecords(other, |other|) == DecodeRecords(lines, |lines|)
  }

  /** Accepted lines load the same in every order exactly when no two of them conflict. */
  lemma OrderMattersOnlyForConflicts(lines: seq<string>)
    requires DecodeRecords(lines, |lines|).Ok?
    ensures OrderFree(lines) <==> Consistent(lines)
  {
    hide DecodeLine, Names, Get, DecodeRecords, Gives;
    if Consistent(lines) {
      forall other | multiset(other) == multiset(lines) ensures DecodeRecords(other, |other|) == DecodeRecords(lines, |lines|) {
        SameMultisetSameMembers(lines, other);
        OrderAndRepetitionDoNotMatter(lines, other);
      }
    }
    if OrderFree(lines) {
      forall l, l', k, r, r' | l in lines && l' in lines && Gives(l, k, r) && Gives(l', k, r') ensures r == r' {
        LastLineDecides(lines, l, k, r);
        LastLineDecides(lines, l', k, r');
      }
    }
  }

  lemma LastLineDecides(lines: seq<string>, l: string, k: Key, r: Record)
    requires DecodeRecords(lines, |lines|).Ok? && OrderFree(lines) && l in lines && Gives(l, k, r)
    ensures Get(DecodeRecords(lines, |lines|).value, k) == Some(r)
  {
    hide DecodeLine, Names, Get, DecodeRecords;
    var i :| 0 <= i < |lines| && lines[i] == l;
    MoveLastPermutes(lines, i);
    var other := MoveLast(lines, i);
    LastWins(other, |other|, k);
  }
}
