/** Which lines are read, and as which records: the grammar of the file, field by field. */
module CodecMeaning {
  import opened Prelude
  import opened Ids
  import opened Model
  import opened Text
  import opened Codec

  // ---- Fields ----

  lemma ParseFieldMeaning(s: string, limit: nat, n: nat)
    ensures ParseField(s, limit) == Ok(n) <==> n < limit && Spells(s, n)
  {
    hide Spells, ParseUnsigned;
    ParseMeaning(s, limit, n);
  }

  /** A time is spelled by its whole seconds since the epoch. */
  ghost predicate SpellsTime(s: string, t: Time) {
    exists secs: nat :: t == secs * SECOND && Spells(s, secs)
  }

  /** A number of seconds a field can hold and a time cannot. */
  ghost predicate SpellsLateTime(s: string) {
    exists secs: nat :: 0x8000_0000_0000_0000 <= secs < 0x1_0000_0000_0000_0000 && Spells(s, secs)
  }

  lemma DecodeTimeMeaning(s: string, t: Time)
    ensures DecodeTime(s) == Ok(t) <==> SpellsTime(s, t)
    ensures DecodeTime(s) == Err(Panic) <==> SpellsLateTime(s)
    ensures DecodeTime(s).Err? ==> DecodeTime(s).error in {Panic, InvalidInput}
  {
    hide Spells, ParseField;
    var secs := ParseField(s, 0x1_0000_0000_0000_0000);
    if secs.Ok? { ParseFieldMeaning(s, 0x1_0000_0000_0000_0000, secs.value); }
    if n: nat :| t == n * SECOND && Spells(s, n) { ParseFieldMeaning(s, 0x1_0000_0000_0000_0000, n); }
    if n: nat :| 0x8000_0000_0000_0000 <= n < 0x1_0000_0000_0000_0000 && Spells(s, n) {
      ParseFieldMeaning(s, 0x1_0000_0000_0000_0000, n);
    }
  }

  /** Keeping the nonempty fields goes field by field. */
  lemma {:induction false} NonEmptyMeaning(a: seq<string>, f: string)
    ensures NonEmpty(a + [f]) == NonEmpty(a) + if f == "" then [] else [f]
  {
    if a == [] {
      assert a + [f] == [f];
    } else {
      NonEmptyMeaning(a[1..], f);
      assert (a + [f])[1..] == a[1..] + [f];
    }
  }

  // ---- Records ----

  ghost predicate SpellsPolicy(fields: seq<string>, p: NetworkPolicy) {
    && |fields| >= 3
    && fields[0] == "policy" && fields[1] == p.id && ValidId(p.id)
    && match p
       case DenyAll(_) => fields[2] == "deny"
       case AllowEgress(_, cidrs) =>
         fields[2] == "allow" && cidrs == if |fields| == 3 then [] else NonEmpty(Split(fields[3], ','))
  }

  ghost predicate SpellsWorkspace(fields: seq<string>, w: Workspace) {
    && |fields| >= 13
    && fields[0] == "workspace" && fields[1] == w.id && fields[2] == w.agent && fields[3] == w.root
    && (w.parent.None? ==> fields[4] == "-")
    && (w.parent.Some? ==> fields[4] == w.parent.value && ValidId(fields[4]) && fields[4] != "-")
    && Spells(fields[5], w.limits.cpuWeight)
    && Spells(fields[6], w.limits.memoryMax)
    && Spells(fields[7], w.limits.pidsMax)
    && Spells(fields[8], w.limits.diskMax)
    && fields[9] == w.networkPolicy
    && fields[10] == (if w.state == Deleted then "deleted" else "ready")
    && SpellsTime(fields[11], w.createdAt)
    && SpellsTime(fields[12], w.lastAccessed)
    && ValidId(w.id) && ValidId(w.agent) && ValidId(w.networkPolicy)
  }

  ghost predicate SpellsSnapshot(fields: seq<string>, s: Snapshot) {
    && |fields| >= 5
    && fields[0] == "snapshot" && fields[1] == s.id && fields[2] == s.source && fields[3] == s.root
    && SpellsTime(fields[4], s.createdAt)
    && ValidId(s.id) && ValidId(s.source)
  }

  lemma DecodePolicyMeaning(fields: seq<string>, p: NetworkPolicy)
    requires fields != [] && fields[0] == "policy"
    ensures DecodePolicy(fields) == Ok(p) <==> SpellsPolicy(fields, p)
  {
    hide ValidId, Split, NonEmpty;
    NothingToKeep();
  }

  lemma NothingToKeep()
    ensures NonEmpty(Split("", ',')) == []
  {
  }

  lemma DecodeWorkspaceMeaning(fields: seq<string>, w: Workspace)
    requires fields != [] && fields[0] == "workspace"
    ensures DecodeWorkspace(fields) == Ok(w) <==> SpellsWorkspace(fields, w)
  {
    hide ValidId, Spells, SpellsTime, ParseField, DecodeTime;
    if |fields| >= 13 {
      ParseFieldMeaning(fields[5], 0x1_0000, w.limits.cpuWeight);
      ParseFieldMeaning(fields[6], 0x1_0000_0000_0000_0000, w.limits.memoryMax);
      ParseFieldMeaning(fields[7], 0x1_0000_0000, w.limits.pidsMax);
      ParseFieldMeaning(fields[8], 0x1_0000_0000_0000_0000, w.limits.diskMax);
      DecodeTimeMeaning(fields[11], w.createdAt);
      DecodeTimeMeaning(fields[12], w.lastAccessed);
    }
  }

  lemma DecodeSnapshotMeaning(fields: seq<string>, s: Snapshot)
    requires fields != [] && fields[0] == "snapshot"
    ensures DecodeSnapshot(fields) == Ok(s) <==> SpellsSnapshot(fields, s)
  {
    hide ValidId, SpellsTime, DecodeTime;
    if |fields| >= 5 { DecodeTimeMeaning(fields[4], s.createdAt); }
  }

  ghost predicate WhiteOnly(line: string) {
    forall i | 0 <= i < |line| :: line[i] as int in WHITE_SPACE
  }

  ghost predicate SpellsRecord(line: string, r: Record) {
    if WhiteOnly(line) then r.Blank?
    else
      var fields := Split(line, '\t');
      match r
      case Blank => false
      case PolicyRecord(p) => SpellsPolicy(fields, p)
      case WorkspaceRecord(w) => SpellsWorkspace(fields, w)
      case SnapshotRecord(s) => SpellsSnapshot(fields, s)
  }

  /**
   * A line is read as a record exactly when it spells that record: by its fields, extra ones ignored,
   * with numbers in any spelling. A line of an unknown kind, or with a field that spells nothing, is
   * read as no record.
   */
  lemma LineMeaning(line: string, r: Record)
    ensures DecodeLine(line) == Ok(r) <==> SpellsRecord(line, r)
  {
    hide Split, IsBlank, DecodePolicy, DecodeWorkspace, DecodeSnapshot, SpellsPolicy, SpellsWorkspace, SpellsSnapshot;
    BlankMeaning(line);
    var fields := Split(line, '\t');
    match r
    case PolicyRecord(p) =>
      if fields[0] == "policy" { DecodePolicyMeaning(fields, p); } else { KindDecides(fields, r); }
    case WorkspaceRecord(w) =>
      if fields[0] == "workspace" { DecodeWorkspaceMeaning(fields, w); } else { KindDecides(fields, r); }
    case SnapshotRecord(s) =>
      if fields[0] == "snapshot" { DecodeSnapshotMeaning(fields, s); } else { KindDecides(fields, r); }
    case Blank =>
  }

  lemma KindDecides(fields: seq<string>, r: Record)
    requires fields != []
    ensures r.PolicyRecord? && SpellsPolicy(fields, r.policy) ==> fields[0] == "policy"
    ensures r.WorkspaceRecord? && SpellsWorkspace(fields, r.workspace) ==> fields[0] == "workspace"
    ensures r.SnapshotRecord? && SpellsSnapshot(fields, r.snapshot) ==> fields[0] == "snapshot"
  {
  }

  /** Every refusal is an invalid input, unless it is the panic over a time a field can hold and a time cannot. */
  lemma LineErrors(line: string)
    ensures DecodeLine(line).Err? ==>
      DecodeLine(line).error == InvalidInput || (DecodeLine(line).error == Panic && exists f | f in Split(line, '\t') :: SpellsLateTime(f))
  {
    hide Split, IsBlank, ValidId, ParseField, DecodeTime, SpellsLateTime;
    var fields := Split(line, '\t');
    forall f | f in fields
      ensures DecodeTime(f).Err? ==> DecodeTime(f).error == InvalidInput || (DecodeTime(f).error == Panic && SpellsLateTime(f))
    {
      DecodeTimeMeaning(f, 0);
    }
    if |fields| >= 13 { assert fields[11] in fields && fields[12] in fields; }
    if |fields| >= 5 { assert fields[4] in fields; }
  }

  // ---- The file ----

  /** The first of the record lines that is refused. */
  ghost predicate FirstBad(lines: seq<string>, i: nat) {
    i < |lines| && DecodeLine(lines[i]).Err? && forall j | 0 <= j < i :: DecodeLine(lines[j]).Ok?
  }

  lemma {:induction false} RecordsMeaning(lines: seq<string>, n: nat)
    requires n <= |lines|
    ensures DecodeRecords(lines, n).Err? <==> exists i | 0 <= i < n :: FirstBad(lines, i)
    ensures forall i | 0 <= i < n && FirstBad(lines, i) :: DecodeRecords(lines, n) == Err(DecodeLine(lines[i]).error)
    ensures DecodeRecords(lines, n).Ok? <==> forall i | 0 <= i < n :: DecodeLine(lines[i]).Ok?
  {
    hide DecodeLine;
    if n > 0 {
      RecordsMeaning(lines, n - 1);
      if DecodeRecords(lines, n - 1).Ok? && DecodeLine(lines[n - 1]).Err? { assert FirstBad(lines, n - 1); }
    }
  }

  /**
   * A file is refused as invalid without its exact first line, and otherwise with the error of its
   * first bad record line, if it has one.
   */
  lemma FileMeaning(text: string)
    ensures var lines := Lines(text);
      if lines == [] || lines[0] != "flarenv-metadata-v1" then Decode(text) == Err(InvalidInput)
      else
        && (Decode(text).Err? <==> exists i: nat :: FirstBad(lines[1..], i))
        && (forall i: nat | FirstBad(lines[1..], i) :: Decode(text) == Err(DecodeLine(lines[1..][i]).error))
  {
    hide DecodeLine, Lines;
    var lines := Lines(text);
    if lines != [] { RecordsMeaning(lines[1..], |lines| - 1); }
  }

  /** A final newline is optional: with it or without, a file loads the same. */
  lemma FinalNewlineDoesNotMatter(text: string)
    requires text != "" && text[|text| - 1] != '\n' && text[|text| - 1] != '\r'
    ensures Decode(text + "\n") == Decode(text)
  {
    FinalNewlineIsOptional(text);
  }

  /** A line of white space can be put in or taken out anywhere below the first line. */
  lemma {:induction false} BlankLinesDoNotMatter(a: seq<string>, blank: string, b: seq<string>)
    requires WhiteOnly(blank)
    ensures DecodeRecords(a + [blank] + b, |a| + 1 + |b|) == DecodeRecords(a + b, |a| + |b|)
    decreases |b|
  {
    hide DecodeLine, WhiteOnly, IsBlank;
    var with, without := a + [blank] + b, a + b;
    if b == [] {
      SamePrefix(with, without, |a|);
      LineMeaning(blank, Blank);
      BlankIsRead(blank);
      assert with[|a|] == blank;
    } else {
      var n := |b| - 1;
      BlankLinesDoNotMatter(a, blank, b[..n]);
      SamePrefix(with, a + [blank] + b[..n], |a| + 1 + n);
      SamePrefix(without, a + b[..n], |a| + n);
    }
  }

  lemma BlankIsRead(blank: string)
    requires WhiteOnly(blank)
    ensures DecodeLine(blank) == Ok(Blank)
  {
    BlankMeaning(blank);
  }

  lemma {:induction false} SamePrefix(a: seq<string>, b: seq<string>, n: nat)
    requires n <= |a| && n <= |b| && forall i | 0 <= i < n :: a[i] == b[i]
    ensures DecodeRecords(a, n) == DecodeRecords(b, n)
  {
    hide DecodeLine;
    if n > 0 { SamePrefix(a, b, n - 1); }
  }
}
