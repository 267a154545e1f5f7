/** The capacity report of src/usage.rs, and what a collection does to it. */
module Usage {
  import opened Prelude
  import opened Ids
  import opened Model
  import opened Gc
  import opened GcRank
  import opened Plane
  import opened Runs
  import opened GcRuns

  datatype WorkspaceUsage = WorkspaceUsage(
    id: Id,
    state: WorkspaceState,
    logical: U64,
    retained: Option<U64>,
    quota: U64,
    memory: U64,
    pids: U32)

  datatype CapacityReport = CapacityReport(
    workspaces: seq<WorkspaceUsage>,
    ready: nat,
    deleted: nat,
    logical: U64,
    retained: Option<U64>,
    quota: U64,
    memory: U64,
    pids: U64)

  /** What a probe says of a path: `Ok(None)` is the missing path, which counts as empty. */
  datatype Probe = Probe(logical: Path -> Result<Option<U64>>, retained: Path -> Result<Option<U64>>)

  // ---- Sums of u64 values ----

  function Sum(values: seq<U64>, n: nat): nat
    requires n <= |values|
  {
    if n == 0 then 0 else Sum(values, n - 1) + values[n - 1]
  }

  /** One addition: it panics on overflow if the build checks for it, and wraps otherwise. */
  function Add(a: U64, b: U64, checked: bool): Result<U64> {
    if a + b < WRAP then Ok(a + b) else if checked then Err(Panic) else Ok((a + b) % WRAP)
  }

  /** What 64 bits make of a mathematical sum: the sum, if it fits; otherwise a panic, or the sum modulo 2^64. */
  function Fit(sum: nat, checked: bool): Result<U64> {
    if sum < WRAP then Ok(sum) else if checked then Err(Panic) else Ok(sum % WRAP)
  }

  function Total(values: seq<U64>, checked: bool): Result<U64> {
    Fit(Sum(values, |values|), checked)
  }

  lemma AddFits(a: nat, b: nat, checked: bool)
    requires Fit(a, checked).Ok? && Fit(b, checked).Ok?
    ensures Add(Fit(a, checked).value, Fit(b, checked).value, checked) == Fit(a + b, checked)
  {
    ModuloAdds(a, Fit(b, checked).value);
    ModuloAdds(b, a);
  }

  /** `Iterator::sum`. */
  method SumValues(values: seq<U64>, checked: bool) returns (r: Result<U64>)
    ensures r == Total(values, checked)
  {
    var total: U64 := 0;
    for i := 0 to |values|
      invariant Fit(Sum(values, i), checked) == Ok(total)
    {
      AddFits(Sum(values, i), values[i], checked);
      var next := Add(total, values[i], checked);
      if next.Err? {
        SumGrows(values, i + 1, |values|);
        return next;
      }
      total := next.value;
    }
    return Ok(total);
  }

  lemma {:induction false} SumGrows(values: seq<U64>, i: nat, n: nat)
    requires i <= n <= |values|
    ensures Sum(values, i) <= Sum(values, n)
  {
    if i < n { SumGrows(values, i, n - 1); }
  }

  /** The total is the mathematical sum exactly when that fits. */
  lemma TotalIsSum(values: seq<U64>, checked: bool)
    ensures Total(values, checked) == Ok(Sum(values, |values|)) <==> Sum(values, |values|) < WRAP
  {
  }

  // ---- The size of a directory ----

  /**
   * What is found at a path: something that is not a directory, which may be a link and is not
   * followed; a directory; or an error in looking at either.
   */
  datatype Node =
    | Unreadable(error: Error)
    | Leaf(len: U64)
    | Directory(len: U64, entries: seq<Node>)

  /** The mathematical size: the lengths of the node and of everything below it. */
  function Size(node: Node): nat
    decreases node, 1, 0
  {
    match node
    case Unreadable(_) => 0
    case Leaf(len) => len
    case Directory(_, entries) => SizeWith(node, |entries|)
  }

  function SizeWith(dir: Node, n: nat): nat
    requires dir.Directory? && n <= |dir.entries|
    decreases dir, 0, n
  {
    if n == 0 then dir.len else SizeWith(dir, n - 1) + Size(dir.entries[n - 1])
  }

  /** The first error of a walk that visits a directory's entries in order. */
  function FirstError(node: Node): Option<Error>
    decreases node, 1, 0
  {
    match node
    case Unreadable(error) => Some(error)
    case Leaf(_) => None
    case Directory(_, entries) => FirstErrorWith(node, |entries|)
  }

  function FirstErrorWith(dir: Node, n: nat): Option<Error>
    requires dir.Directory? && n <= |dir.entries|
    decreases dir, 0, n
  {
    if n == 0 then None
    else if FirstErrorWith(dir, n - 1).Some? then FirstErrorWith(dir, n - 1)
    else FirstError(dir.entries[n - 1])
  }

  lemma {:induction false} MoreEntries(dir: Node, i: nat, n: nat)
    requires dir.Directory? && i <= n <= |dir.entries|
    ensures SizeWith(dir, i) <= SizeWith(dir, n)
    ensures FirstErrorWith(dir, i).Some? ==> FirstErrorWith(dir, n) == FirstErrorWith(dir, i)
  {
    if i < n { MoreEntries(dir, i, n - 1); }
  }

  /** The size, as far as 64 bits hold it; or the first error, if no overflow panics before it. */
  method DirectorySize(node: Node, checked: bool) returns (r: Result<U64>)
    ensures FirstError(node).None? ==> r == Fit(Size(node), checked)
    ensures FirstError(node).Some? ==> r == Err(FirstError(node).value) || (checked && r == Err(Panic))
    decreases node
  {
    match node
    case Unreadable(error) => return Err(error);
    case Leaf(len) => return Ok(len);
    case Directory(len, entries) =>
      var bytes := len;
      for i := 0 to |entries|
        invariant FirstErrorWith(node, i).None? && Fit(SizeWith(node, i), checked) == Ok(bytes)
      {
        MoreEntries(node, i + 1, |entries|);
        var entry :- DirectorySize(entries[i], checked);
        AddFits(SizeWith(node, i), Size(entries[i]), checked);
        bytes :- Add(bytes, entry, checked);
      }
      return Ok(bytes);
  }

  // ---- The report ----

  function Present(values: seq<Option<U64>>, n: nat): seq<U64>
    requires n <= |values|
  {
    if n == 0 then []
    else if values[n - 1].Some? then Present(values, n - 1) + [values[n - 1].value]
    else Present(values, n - 1)
  }

  /** The sum of the values there are; nothing if there are none. */
  method SumOptional(values: seq<Option<U64>>, checked: bool) returns (r: Result<Option<U64>>)
    ensures r == OptionalTotal(values, checked)
  {
    var sawValue, total: U64 := false, 0;
    for i := 0 to |values|
      invariant sawValue <==> Present(values, i) != []
      invariant Total(Present(values, i), checked) == Ok(total)
    {
      if values[i].Some? {
        PresentGrows(values, i + 1, |values|);
        AddFits(Sum(Present(values, i), |Present(values, i)|), values[i].value, checked);
        SumOfAppended(Present(values, i), values[i].value);
        var next := Add(total, values[i].value, checked);
        if next.Err? {
          return Err(next.error);
        }
        sawValue, total := true, next.value;
      }
    }
    return Ok(if sawValue then Some(total) else None);
  }

  lemma {:induction false} SumOfPrefix(a: seq<U64>, b: seq<U64>, n: nat)
    requires n <= |a| <= |b| && a == b[..|a|]
    ensures Sum(a, n) == Sum(b, n)
  {
    if n > 0 { SumOfPrefix(a, b, n - 1); }
  }

  lemma SumOfAppended(values: seq<U64>, x: U64)
    ensures var all := values + [x]; Sum(all, |all|) == Sum(values, |values|) + x
  {
    SumOfPrefix(values, values + [x], |values|);
  }

  lemma {:induction false} PresentGrows(values: seq<Option<U64>>, i: nat, n: nat)
    requires i <= n <= |values|
    ensures |Present(values, i)| <= |Present(values, n)|
    ensures Sum(Present(values, i), |Present(values, i)|) <= Sum(Present(values, n), |Present(values, n)|)
  {
    if i < n {
      PresentGrows(values, i, n - 1);
      if values[n - 1].Some? {
        SumOfAppended(Present(values, n - 1), values[n - 1].value);
      }
    }
  }

  function OptionalTotal(values: seq<Option<U64>>, checked: bool): Result<Option<U64>> {
    var present := Present(values, |values|);
    if present == [] then Ok(None)
    else
      var total :- Total(present, checked);
      Ok(Some(total))
  }

  /** There is no total exactly when there is no part. */
  lemma {:induction false} NoneMeansAllNone(values: seq<Option<U64>>, n: nat)
    requires n <= |values|
    ensures Present(values, n) == [] <==> forall i | 0 <= i < n :: values[i].None?
  {
    if n > 0 { NoneMeansAllNone(values, n - 1); }
  }

  function UsageOf(w: Workspace, probe: Probe): Result<WorkspaceUsage> {
    var logical :- probe.logical(w.root);
    var retained :- probe.retained(w.root);
    Ok(WorkspaceUsage(w.id, w.state, if logical.Some? then logical.value else 0, retained, w.limits.diskMax, w.limits.memoryMax,
      w.limits.pidsMax))
  }

  /** The usages of the first `n` workspaces, or the first probe's error. */
  function Measured(m: Metadata, keys: seq<Id>, n: nat, probe: Probe): (r: Result<seq<WorkspaceUsage>>)
    requires n <= |keys| && forall i | 0 <= i < n :: keys[i] in m.workspaces
    ensures r.Ok? ==> |r.value| == n
    ensures r.Ok? ==> forall i | 0 <= i < n :: UsageOf(m.workspaces[keys[i]], probe) == Ok(r.value[i])
  {
    if n == 0 then Ok([])
    else
      var before :- Measured(m, keys, n - 1, probe);
      var next :- UsageOf(m.workspaces[keys[n - 1]], probe);
      Ok(before + [next])
  }

  lemma {:induction false} ErrorsStay(m: Metadata, keys: seq<Id>, i: nat, n: nat, probe: Probe)
    requires i <= n <= |keys| && (forall i | 0 <= i < n :: keys[i] in m.workspaces) && Measured(m, keys, i, probe).Err?
    ensures Measured(m, keys, n, probe) == Measured(m, keys, i, probe)
  {
    if i < n { ErrorsStay(m, keys, i, n - 1, probe); }
  }

  method MeasureWorkspaces(m: Metadata, probe: Probe) returns (r: Result<seq<WorkspaceUsage>>)
    ensures var keys := WorkspaceKeys(m); r == Measured(m, keys, |keys|, probe)
  {
    hide UsageOf, SortedKeys, Ascending;
    var keys := WorkspaceKeys(m);
    var usages := [];
    for i := 0 to |keys|
      invariant Measured(m, keys, i, probe) == Ok(usages)
    {
      var next := UsageOf(m.workspaces[keys[i]], probe);
      if next.Err? {
        ErrorsStay(m, keys, i + 1, |keys|, probe);
        return Err(next.error);
      }
      usages := usages + [next.value];
    }
    return Ok(usages);
  }

  function CountState(usages: seq<WorkspaceUsage>, n: nat, state: WorkspaceState): nat
    requires n <= |usages|
  {
    if n == 0 then 0 else CountState(usages, n - 1, state) + if usages[n - 1].state == state then 1 else 0
  }

  function Logicals(u: seq<WorkspaceUsage>): seq<U64> { seq(|u|, i requires 0 <= i < |u| => u[i].logical) }
  function Retaineds(u: seq<WorkspaceUsage>): seq<Option<U64>> { seq(|u|, i requires 0 <= i < |u| => u[i].retained) }
  function Quotas(u: seq<WorkspaceUsage>): seq<U64> { seq(|u|, i requires 0 <= i < |u| => u[i].quota) }
  function Memories(u: seq<WorkspaceUsage>): seq<U64> { seq(|u|, i requires 0 <= i < |u| => u[i].memory) }
  function Pids(u: seq<WorkspaceUsage>): seq<U64> { seq(|u|, i requires 0 <= i < |u| => u[i].pids) }

  /** The report says of the usages what it should. */
  ghost predicate Reports(r: CapacityReport, checked: bool) {
    var u := r.workspaces;
    && r.ready == CountState(u, |u|, Ready) && r.deleted == CountState(u, |u|, Deleted)
    && Ok(r.logical) == Total(Logicals(u), checked)
    && Ok(r.retained) == OptionalTotal(Retaineds(u), checked)
    && Ok(r.quota) == Total(Quotas(u), checked)
    && Ok(r.memory) == Total(Memories(u), checked)
    && Ok(r.pids) == Total(Pids(u), checked)
  }

  /** Every total has a value: always, unless overflow is checked for and some column overflows. */
  ghost predicate TotalsFit(u: seq<WorkspaceUsage>, checked: bool) {
    && Total(Logicals(u), checked).Ok? && OptionalTotal(Retaineds(u), checked).Ok? && Total(Quotas(u), checked).Ok?
    && Total(Memories(u), checked).Ok? && Total(Pids(u), checked).Ok?
  }

  /** A report, the first probe error, or the panic of a sum that overflows in a build that checks for it. */
  method MeasureUsage(m: Metadata, probe: Probe, checked: bool) returns (r: Result<CapacityReport>)
    ensures var keys := WorkspaceKeys(m); var measured := Measured(m, keys, |keys|, probe);
      && (measured.Err? ==> r == Err(measured.error))
      && (r.Ok? ==> measured == Ok(r.value.workspaces) && Reports(r.value, checked))
      && (measured.Ok? ==> (r.Ok? <==> TotalsFit(measured.value, checked)) && (r.Err? ==> checked && r.error == Panic))
  {
    hide Measured, WorkspaceKeys, UsageOf;
    var usages :- MeasureWorkspaces(m, probe);
    var logical :- SumValues(Logicals(usages), checked);
    var retained :- SumOptional(Retaineds(usages), checked);
    var quota :- SumValues(Quotas(usages), checked);
    var memory :- SumValues(Memories(usages), checked);
    var pids :- SumValues(Pids(usages), checked);
    var n := |usages|;
    return Ok(CapacityReport(usages, CountState(usages, n, Ready), CountState(usages, n, Deleted), logical, retained, quota, memory, pids));
  }

  // ---- What the report means ----

  lemma {:induction false} StatesPartition(u: seq<WorkspaceUsage>, n: nat)
    requires n <= |u|
    ensures CountState(u, n, Ready) + CountState(u, n, Deleted) == n
  {
    if n > 0 { StatesPartition(u, n - 1); }
  }

  lemma {:induction false} PidsAreBounded(u: seq<WorkspaceUsage>, n: nat)
    requires n <= |u|
    ensures Sum(Pids(u), n) <= n * 0xFFFF_FFFF
  {
    if n > 0 { PidsAreBounded(u, n - 1); }
  }

  /** The `i`-th row of a report, and its place in every column, is the `i`-th workspace's: what it was probed and configured for. */
  lemma RowMeaning(m: Metadata, probe: Probe, u: seq<WorkspaceUsage>, i: nat)
    requires i < |u| && |u| == |WorkspaceKeys(m)| && Measured(m, WorkspaceKeys(m), |u|, probe) == Ok(u)
    ensures var w := m.workspaces[WorkspaceKeys(m)[i]];
      && u[i].id == w.id && u[i].state == w.state
      && (probe.logical(w.root) == Ok(Some(Logicals(u)[i])) || (probe.logical(w.root) == Ok(None) && Logicals(u)[i] == 0))
      && probe.retained(w.root) == Ok(Retaineds(u)[i])
      && Quotas(u)[i] == u[i].quota == w.limits.diskMax
      && Memories(u)[i] == u[i].memory == w.limits.memoryMax
      && Pids(u)[i] == u[i].pids == w.limits.pidsMax
      && Logicals(u)[i] == u[i].logical && Retaineds(u)[i] == u[i].retained
  {
    hide SortedKeys, Ascending, Measured;
  }

  ghost function WorkspacesIn(m: Metadata, state: WorkspaceState): set<Id> {
    set w | w in m.workspaces && m.workspaces[w].state == state
  }

  /** The workspaces among some ids that are in a state. */
  ghost function InState(m: Metadata, ids: set<Id>, state: WorkspaceState): set<Id> {
    set w | w in ids && w in m.workspaces && m.workspaces[w].state == state
  }

  ghost function IdsOf(keys: seq<Id>, n: nat): set<Id>
    requires n <= |keys|
  {
    set i | 0 <= i < n :: keys[i]
  }

  lemma OneMoreId(keys: seq<Id>, n: nat)
    requires n < |keys| && Ascending(keys)
    ensures keys[n] !in IdsOf(keys, n) && IdsOf(keys, n + 1) == IdsOf(keys, n) + {keys[n]}
  {
    if keys[n] in IdsOf(keys, n) {
      var i :| 0 <= i < n && keys[i] == keys[n];
      AscendingIsDistinct(keys, i, n);
    }
  }

  lemma InStateGrows(m: Metadata, ids: set<Id>, k: Id, state: WorkspaceState)
    requires k !in ids && k in m.workspaces
    ensures |InState(m, ids + {k}, state)| == |InState(m, ids, state)| + if m.workspaces[k].state == state then 1 else 0
  {
    assert InState(m, ids + {k}, state) == InState(m, ids, state) + if m.workspaces[k].state == state then {k} else {};
  }

  lemma {:induction false} CountMeaning(m: Metadata, keys: seq<Id>, n: nat, u: seq<WorkspaceUsage>, state: WorkspaceState)
    requires n <= |keys| && n <= |u| && Ascending(keys)
    requires forall i | 0 <= i < n :: keys[i] in m.workspaces && u[i].state == m.workspaces[keys[i]].state
    ensures CountState(u, n, state) == |InState(m, IdsOf(keys, n), state)|
  {
    hide Ascending, InState, IdsOf;
    if n > 0 {
      CountMeaning(m, keys, n - 1, u, state);
      OneMoreId(keys, n - 1);
      InStateGrows(m, IdsOf(keys, n - 1), keys[n - 1], state);
    } else {
      NoneInState(m, keys, state);
    }
  }

  lemma NoneInState(m: Metadata, keys: seq<Id>, state: WorkspaceState)
    ensures InState(m, IdsOf(keys, 0), state) == {}
  {
  }

  lemma CountsMeaning(m: Metadata, probe: Probe, u: seq<WorkspaceUsage>, state: WorkspaceState)
    requires Measured(m, WorkspaceKeys(m), |WorkspaceKeys(m)|, probe) == Ok(u)
    ensures CountState(u, |u|, state) == |WorkspacesIn(m, state)|
  {
    hide SortedKeys, Measured, UsageOf, Before, CountState;
    var keys := WorkspaceKeys(m);
    forall i | 0 <= i < |u| ensures keys[i] in m.workspaces && u[i].state == m.workspaces[keys[i]].state {
      RowMeaning(m, probe, u, i);
    }
    CountMeaning(m, keys, |u|, u, state);
    assert IdsOf(keys, |u|) == m.workspaces.Keys;
    assert InState(m, m.workspaces.Keys, state) == WorkspacesIn(m, state);
  }

  /**
   * A report counts the ready and the deleted workspaces, which are all of them; each total that fits
   * is the sum of its column, the process-limit total fits whenever there are at most 2^32 + 1
   * workspaces, and there is no retained total exactly when no workspace has a retained size.
   */
  lemma ReportMeaning(m: Metadata, probe: Probe, checked: bool, r: CapacityReport)
    requires Reports(r, checked) && Measured(m, WorkspaceKeys(m), |WorkspaceKeys(m)|, probe) == Ok(r.workspaces)
    ensures |r.workspaces| == |m.workspaces| && r.ready + r.deleted == |m.workspaces|
    ensures r.ready == |WorkspacesIn(m, Ready)| && r.deleted == |WorkspacesIn(m, Deleted)|
    ensures r.logical == Sum(Logicals(r.workspaces), |r.workspaces|) <==> Sum(Logicals(r.workspaces), |r.workspaces|) < WRAP
    ensures r.quota == Sum(Quotas(r.workspaces), |r.workspaces|) <==> Sum(Quotas(r.workspaces), |r.workspaces|) < WRAP
    ensures r.memory == Sum(Memories(r.workspaces), |r.workspaces|) <==> Sum(Memories(r.workspaces), |r.workspaces|) < WRAP
    ensures |m.workspaces| <= 0x1_0000_0001 ==> r.pids == Sum(Pids(r.workspaces), |r.workspaces|)
    ensures r.retained.None? <==> forall i | 0 <= i < |r.workspaces| :: r.workspaces[i].retained.None?
  {
    hide SortedKeys, Ascending, UsageOf, Sum, Measured, WorkspacesIn, CountState;
    var u := r.workspaces;
    CountsMeaning(m, probe, u, Ready);
    CountsMeaning(m, probe, u, Deleted);
    StatesPartition(u, |u|);
    TotalIsSum(Logicals(u), checked);
    TotalIsSum(Quotas(u), checked);
    TotalIsSum(Memories(u), checked);
    PidsAreBounded(u, |u|);
    NoneMeansAllNone(Retaineds(u), |u|);
    assert forall i | 0 <= i < |u| :: Retaineds(u)[i] == u[i].retained;
  }

  // ---- Quotas and collection ----

  /** The sum of the disk quotas of some workspaces. */
  ghost function QuotaOf(m: Metadata, keys: seq<Id>, n: nat): nat
    requires n <= |keys| && forall i | 0 <= i < n :: keys[i] in m.workspaces
  {
    if n == 0 then 0 else QuotaOf(m, keys, n - 1) + m.workspaces[keys[n - 1]].limits.diskMax
  }

  lemma {:induction false} ReportedQuota(m: Metadata, keys: seq<Id>, n: nat, probe: Probe, u: seq<WorkspaceUsage>)
    requires n <= |keys| && (forall i | 0 <= i < n :: keys[i] in m.workspaces) && Measured(m, keys, n, probe).Ok?
    requires n <= |u| && u[..n] == Measured(m, keys, n, probe).value
    ensures Sum(Quotas(u), n) == QuotaOf(m, keys, n)
  {
    if n > 0 {
      assert u[..n][..n - 1] == u[..n - 1];
      ReportedQuota(m, keys, n - 1, probe, u);
    }
  }

  lemma {:induction false} QuotaOfHead(m: Metadata, k: Id, keys: seq<Id>, n: nat)
    requires n <= |keys| && k in m.workspaces && forall i | 0 <= i < n :: keys[i] in m.workspaces
    ensures QuotaOf(m, [k] + keys, n + 1) == m.workspaces[k].limits.diskMax + QuotaOf(m, keys, n)
  {
    if n > 0 { QuotaOfHead(m, k, keys, n - 1); }
  }

  ghost function QuotaTotal(m: Metadata, ids: set<Id>): nat
    requires ids <= m.workspaces.Keys
  {
    var keys := SortedKeys(ids);
    QuotaOf(m, keys, |keys|)
  }

  lemma QuotaTotalHead(m: Metadata, ids: set<Id>)
    requires ids <= m.workspaces.Keys && ids != {}
    ensures var least := Least(ids); QuotaTotal(m, ids) == m.workspaces[least].limits.diskMax + QuotaTotal(m, ids - {least})
  {
    var least := Least(ids);
    var rest := SortedKeys(ids - {least});
    assert SortedKeys(ids) == [least] + rest;
    QuotaOfHead(m, least, rest, |rest|);
  }

  lemma {:induction false} QuotaTotalSplits(m: Metadata, a: set<Id>, b: set<Id>)
    requires a <= m.workspaces.Keys && b <= m.workspaces.Keys && a !! b
    ensures QuotaTotal(m, a + b) == QuotaTotal(m, a) + QuotaTotal(m, b)
    decreases |a| + |b|
  {
    hide QuotaTotal, Before;
    if a == {} {
      assert a + b == b;
      EmptyQuota(m);
    } else if b == {} {
      assert a + b == a;
      EmptyQuota(m);
    } else {
      var least := Least(a + b);
      QuotaTotalHead(m, a + b);
      if least in a {
        LeastOfPart(a, a + b);
        QuotaTotalHead(m, a);
        assert a + b - {least} == (a - {least}) + b;
        QuotaTotalSplits(m, a - {least}, b);
      } else {
        LeastOfPart(b, a + b);
        QuotaTotalHead(m, b);
        assert a + b - {least} == a + (b - {least});
        QuotaTotalSplits(m, a, b - {least});
      }
    }
  }

  lemma EmptyQuota(m: Metadata)
    ensures QuotaTotal(m, {}) == 0
  {
  }

  lemma LeastOfPart(part: set<Id>, whole: set<Id>)
    requires part <= whole && part != {} && Least(whole) in part
    ensures Least(part) == Least(whole)
  {
    LeastIsUnique(part);
    assert IsLeast(Least(whole), part);
  }

  lemma {:induction false} QuotaOfSameRecords(m: Metadata, m': Metadata, keys: seq<Id>, n: nat)
    requires n <= |keys| && forall i | 0 <= i < n :: keys[i] in m.workspaces && keys[i] in m'.workspaces && m.workspaces[keys[i]] == m'.workspaces[keys[i]]
    ensures QuotaOf(m, keys, n) == QuotaOf(m', keys, n)
  {
    if n > 0 { QuotaOfSameRecords(m, m', keys, n - 1); }
  }

  /** A collection lowers the committed quota by exactly the quotas of the workspaces it purges. */
  lemma CollectionFreesQuota(p: Plane, now: Time, policy: GcPolicy)
    requires Inv(p)
    ensures var q := Round(p, now, policy);
      QuotaTotal(p.meta, p.meta.workspaces.Keys) ==
        QuotaTotal(q.meta, q.meta.workspaces.Keys) + QuotaTotal(p.meta, ExpiredIds(p.meta, now, policy))
  {
    hide Inv, Round, Expired, SortedKeys, QuotaOf;
    var q := Round(p, now, policy);
    RoundCollects(p, now, policy);
    var gone := ExpiredIds(p.meta, now, policy);
    var left := q.meta.workspaces.Keys;
    assert p.meta.workspaces.Keys == left + gone;
    QuotaTotalSplits(p.meta, left, gone);
    var keys := SortedKeys(left);
    QuotaOfSameRecords(p.meta, q.meta, keys, |keys|);
  }

  /** So the reports before and after it differ by that much, if the first total fits. */
  lemma ReportsBeforeAndAfterCollection(p: Plane, now: Time, policy: GcPolicy, probe: Probe, checked: bool, r: CapacityReport, r': CapacityReport)
    requires Inv(p) && Reports(r, checked) && Reports(r', checked)
    requires var keys := WorkspaceKeys(p.meta); Measured(p.meta, keys, |keys|, probe) == Ok(r.workspaces)
    requires var q := Round(p, now, policy); var keys := WorkspaceKeys(q.meta); Measured(q.meta, keys, |keys|, probe) == Ok(r'.workspaces)
    requires Sum(Quotas(r.workspaces), |r.workspaces|) < WRAP
    ensures r.quota == r'.quota + QuotaTotal(p.meta, ExpiredIds(p.meta, now, policy))
  {
    hide Inv, Round, Expired, SortedKeys, Measured, QuotaOf, Sum;
    var q := Round(p, now, policy);
    CollectionFreesQuota(p, now, policy);
    ReportIsQuotaTotal(p.meta, probe, r);
    ReportIsQuotaTotal(q.meta, probe, r');
    TotalIsSum(Quotas(r.workspaces), checked);
    TotalIsSum(Quotas(r'.workspaces), checked);
  }

  lemma ReportIsQuotaTotal(m: Metadata, probe: Probe, r: CapacityReport)
    requires var keys := WorkspaceKeys(m); Measured(m, keys, |keys|, probe) == Ok(r.workspaces)
    ensures Sum(Quotas(r.workspaces), |r.workspaces|) == QuotaTotal(m, m.workspaces.Keys)
  {
    hide SortedKeys, UsageOf;
    var keys := WorkspaceKeys(m);
    assert r.workspaces[..|keys|] == r.workspaces;
    ReportedQuota(m, keys, |keys|, probe, r.workspaces);
  }
}
