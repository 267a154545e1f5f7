# Flarenv control plane: a verified model

Flarenv manages workspaces for agents: it creates writable roots, snapshots them, branches new
workspaces from snapshots, opens sessions in them, collects what is no longer wanted, and keeps its
records in a text file. This project models that control plane in Dafny and proves what it keeps, what
it undoes, and where it falls short.

| file | what it holds |
|---|---|
| `Prelude.dfy`, `Ids.dfy`, `Model.dfy` | errors and results; identifiers and map order; the records |
| `Storage.dfy`, `Plane.dfy`, `Control.dfy` | the backend and the control plane, as functions on values that take injected faults, and as the classes the source has, each method proved to compute its function without faults |
| `Runs.dfy`, `Lineage.dfy` | runs of commands with any pattern of faults: the invariant, the fate of every record, orphans, sessions, and the walk from a workspace to its ancestors |
| `Gc.dfy`, `GcRank.dfy`, `GcRuns.dfy` | the collector's loops, the plan in terms of ranks, and what executing plans leads to |
| `Text.dfy`, `Codec.dfy`, `CodecMeaning.dfy`, `CodecOrder.dfy`, `CodecRoundTrip.dfy` | split, join, lines and decimals; the metadata file; the grammar it accepts; its lookup meaning; its round trips |
| `Reload.dfy` | runs, file and planner together: what a restart keeps |
| `Ssh.dfy` | the handlers that share a counter and a lock, interleaved step by step |
| `Runtime.dfy`, `Usage.dfy` | the event loop and the capacity report |

A `Fault` says whether a backend or executor call goes through; one that fails changes nothing. An
`Event` is a command with the clock it reads and the faults its calls meet. `Runs.After` is the plane
after a number of events, so every statement about `After` is about every reachable state. Times are
nanoseconds and arbitrary: no clock is assumed to move forward. Ids are plain strings; whatever needs
them valid says so. `Panic` is the outcome of an aborted thread.

## What turned out otherwise than one may expect

Each of these is a fact about the code, stated as a lemma that gives the input or the exact condition.

- One collection need not leave an empty plan: purging a branch can free its parent snapshot. A second
  round always suffices, and is needed exactly when some parent outside the retained ranks has only
  expired branches (`GcRuns.SecondRoundNeeded`, `GcRuns.OneRoundCanFallShort`).
- The setting `delete_deleted_workspaces_after` (src/gc.rs:10) counts from the last session, not from the
  deletion, because deleting leaves the access time alone. A long unused workspace is due the moment it
  is deleted (`GcRuns.DeletionGivesNoGrace`).
- `-` is a valid id and also the file's mark for "no parent". A run of three successful commands makes
  a branch whose parent is lost on reload, and a plan made from the file then deletes that parent
  (`Reload.DashParentIsLost`). The other losses are a carriage return at the end of a policy line and
  whatever the separators split; `CodecRoundTrip.RoundTrip` is the exact condition.
- A workspace whose quota is refused stays in the backend without a record, and its id can never be
  created again (`Runs.FailureEffect`, `Runs.StrandedForever`, `Runs.OrphanCannotBeMade`).
- Branching into the id of a purged workspace can make a workspace its own ancestor
  (`Lineage.ReuseMakesLoop`); `Lineage.StepAcyclic` says exactly which branches do.
- Setting a policy that has the id of an existing one changes it for every workspace that names that id
  (`Runs.SetPolicyReach`).
- A session the executor refuses still counts as an access (`Runs.FailureEffect`).

## Model

| member | source | states |
|---|---|---|
| Ids.NewId | src/ids.rs:10-14 | An id is accepted exactly when it is valid, unchanged; otherwise the error is invalid input |
| Ids.NewIdMeaning | src/ids.rs:35-52 | In ASCII codes: the accepted strings are the nonempty ones of digits, letters, `-` and `_`; so no id holds a separator, a dot, a tab or a space |
| Ids.BeforeMeaning | src/ids.rs:6-7 | The derived order of ids: one is before another exactly when it ends, or has the smaller character, where they first differ |
| Ids.SortedKeys | src/control.rs:36-46 | Iterating a `BTreeMap` yields every key once, in strictly ascending string order |
| Storage.InMemoryStorage.CreateWorkspace | src/storage.rs:46-56 | Refuses a known id; otherwise files and returns the path of the workspace, which `Storage.PathMeaning` spells out; nothing else changes |
| Storage.InMemoryStorage.CloneWorkspace | src/storage.rs:58-67 | Needs the snapshot, then acts as creation |
| Storage.InMemoryStorage.SnapshotWorkspace | src/storage.rs:69-86 | Needs the workspace and a new snapshot id; files and returns the path of the snapshot |
| Storage.InMemoryStorage.DeleteWorkspace | src/storage.rs:88-93 | Removes exactly that workspace, or reports it missing and changes nothing |
| Storage.InMemoryStorage.DeleteSnapshot | src/storage.rs:95-100 | Removes exactly that snapshot, or reports it missing and changes nothing |
| Storage.InMemoryStorage.SetQuota | src/storage.rs:102-107 | Fails exactly for an unknown workspace |
| Storage.PathMeaning | src/storage.rs:53-83 | In characters, for every root: the root, a slash unless the root is empty or ends in one, `workspaces` or `snapshots`, a slash, and the id |
| Storage.PathsAreDistinct | src/storage.rs:53-83 | Different ids have different paths, and no workspace shares one with a snapshot |
| Control.RecordingExecutor.OpenSession | src/executor.rs:35-38 | Files the request under its session id, over any earlier one, and succeeds |
| Control.ControlPlane.New | src/control.rs:71-89 | Succeeds exactly when both profile paths start with a slash; the plane starts with the default policy and nothing else |
| Control.ControlPlane.ReadyWorkspace | src/control.rs:318-330 | The record, or missing, or not ready |
| Control.ControlPlane.CreateWorkspace | src/control.rs:99-128 | Result and new state are those of the fault-free creation step |
| Control.ControlPlane.SnapshotWorkspace | src/control.rs:130-155 | Result and new state are those of the fault-free snapshot step |
| Control.ControlPlane.BranchWorkspace | src/control.rs:157-190 | Result and new state are those of the fault-free branch step |
| Control.ControlPlane.DeleteWorkspace | src/control.rs:192-205 | Marks the workspace deleted and touches no time; deleting twice is no error and no change |
| Control.ControlPlane.PurgeWorkspace | src/control.rs:207-222 | Only a deleted workspace goes, from backend and metadata; its snapshots stay |
| Control.ControlPlane.PurgeSnapshot | src/control.rs:224-242 | A parent is refused before the id is looked up; otherwise the snapshot goes from backend and metadata |
| Control.ControlPlane.ExecuteGcActions | src/control.rs:244-256 | The loop computes the recursive execution that stops at the first error |
| Control.ControlPlane.SetLimits | src/control.rs:258-267 | Result and new state are those of the limit step |
| Control.ControlPlane.SetNetworkPolicy | src/control.rs:269-283 | Files the policy under its own id and points the ready workspace at it |
| Control.ControlPlane.OpenSession | src/control.rs:285-316 | Writes the access time, then hands the executor the updated record and the policy it names |
| Runs.NewPlaneInv | src/control.rs:71-89 | A new plane satisfies the invariant: records under their own ids, parents, policies and the default policy present, roots canonical and equal to the backend's, recorded sessions consistent |
| Runs.StepKeepsInv | src/control.rs:99-330 | Every command keeps the invariant, whichever of its outside calls fail |
| Runs.RunKeepsInv | src/control.rs:99-330 | The invariant holds after every prefix of every run, with any faults |
| Runs.StepFates | src/control.rs:99-316 | In one step a workspace that stays changes only in the field its command edits, and not at all if deleted; a new one is ready, with default limits and policy and the parent it was branched from; one that goes was deleted; a snapshot never changes, and a new one was taken by this command of its source |
| Runs.StepDomains | src/control.rs:99-316 | A workspace or snapshot comes exactly by a successful command that makes it and goes exactly by a successful purge; a policy is exactly what was last set |
| Runs.RunRoots | src/storage.rs:46-86 | In every reachable plane each root lies where its id says, below the root of the backend, and all roots of workspaces and snapshots are pairwise different |
| Runs.RecordsKeepIdentity | src/control.rs:192-316 | Over any run, as long as a workspace stays, id, agent, root, parent and creation time are fixed, and once deleted so is everything else: nothing revives it or resets its age |
| Runs.ExecuteIsSafe | src/control.rs:244-256 | Any action list, with any faults, only removes: a workspace that goes was deleted and on the list, and all else is as it was |
| Runs.SucceedsExactly | src/control.rs:99-330 | In a reachable plane a command succeeds exactly when the metadata allows it, its outside calls work, and an id to be made is not in the backend: a working backend never contradicts the metadata otherwise |
| Runs.RefusedExactly | src/control.rs:99-330 | In a reachable plane the result is exactly the error of the first refusal in the order of the checks, missing before not ready before existing before the backend's, or success without one |
| Runs.RepliesAreFiled | src/control.rs:99-190 | The record that creating, branching or snapshotting returns is the one it files |
| Runs.FailureEffect | src/control.rs:99-330 | A failing command changes something in exactly two cases: a refused quota leaves the workspace in the backend, a refused session leaves its access time |
| Runs.FaultlessFailureIsNeutral | src/control.rs:99-330 | Over the in-memory backend and the recording executor a failing command changes nothing |
| Runs.StepOrphans | src/control.rs:110-127 | One step adds to the backend's unrecorded workspaces exactly the id whose quota was refused, and removes none |
| Runs.RunAgreement | src/control.rs:110-240 | After any run the snapshot ids of metadata and backend are equal, and the stored workspaces are the recorded ones and, disjointly, exactly the ids whose creation or branch failed at the quota |
| Runs.FaultlessAgreement | src/control.rs:110-240 | Without faults metadata and backend hold the same workspace ids |
| Runs.StrandedForever | src/control.rs:110-123 | An unrecorded stored workspace stays so for the rest of any run |
| Runs.OrphanCannotBeMade | src/control.rs:110-123 | Creating or branching such an id always fails |
| Runs.OpenSucceedsWhenReady | src/control.rs:291-316 | In a reachable plane a session opens exactly when its workspace is ready and the executor works: the missing-policy error never occurs |
| Runs.SetPolicyReach | src/control.rs:269-283 | Setting a policy changes the effective policy of its target and of every workspace naming that id, and of no other |
| Runs.RecordedProvenance | src/control.rs:285-316 | Every recorded request comes from an event of the run that found the workspace ready, and carries the record and policy of that moment |
| Lineage.AcyclicMeansWalksStop | src/control.rs:157-190 | No workspace is its own ancestor exactly when every walk to parents stops within one step per workspace and one more |
| Lineage.EdgeClosesLoop | src/control.rs:172-188 | A new parent edge makes a loop exactly when its end already reached its start |
| Lineage.StepAcyclic | src/control.rs:130-242 | A step makes an acyclic lineage cyclic exactly when it branches into an id that the walk from the snapshot's source meets |
| Lineage.RunAcyclic | src/control.rs:130-242 | Every run that never branches into a workspace id used before keeps the lineage acyclic, with any faults and with snapshot ids reused |
| Lineage.ReuseMakesLoop | src/control.rs:157-222 | A run of seven commands that reuses a purged id makes a workspace its own ancestor |
| Gc.PlanWorkspaces | src/gc.rs:29-39 | The first loop lists the expired workspaces in id order |
| Gc.GroupSnapshots | src/gc.rs:45-51 | The grouping loop makes exactly one group per source, holding its snapshots in id order |
| Gc.PlanGroup | src/gc.rs:55-61 | The inner loop lists the candidates that are no parents |
| Gc.PlanSnapshots | src/gc.rs:41-62 | The last loop lists, source by source, what follows the retained newest |
| Gc.PlanGc | src/gc.rs:28-65 | The loops together compute the plan as a value |
| GcRank.InsertSorts | src/gc.rs:54 | Inserting before equals keeps newest-first order with ties by id, and loses nothing |
| GcRank.NewestFirstSorts | src/gc.rs:54 | The stable sort of an id-ordered group is ordered by newest first and then by id, with the same members |
| GcRank.IndexIsRank | src/gc.rs:45-54 | The index of a snapshot in its sorted group is the number of snapshots of its source that precede it |
| GcRank.SkippedMeaning | src/gc.rs:53-55 | Skipping the retained leaves exactly the snapshots of that source whose rank is at least the retained number |
| GcRank.PlanMeaning | src/gc.rs:28-65 | The plan holds exactly the workspaces that are deleted and whose last access is at least the set time ago (or any, if that time is zero), and exactly the snapshots that are no parents and have rank at least the retained number, each once, in order: workspaces by id, then snapshots by source and newest first |
| GcRank.OrderDecides | src/gc.rs:28-65 | Members and order leave one list only, so the plan is fully determined |
| GcRuns.FreshPlanExecutes | src/control.rs:244-256 | A plan executed on the plane it was made for succeeds and removes exactly the expired workspaces and the doomed snapshots, from metadata and backend alike |
| GcRuns.RankAfterCollection | src/gc.rs:53-62 | A collection keeps which survivors are within the retained ranks, and those ranks |
| GcRuns.SecondRoundMeaning | src/gc.rs:41-62 | A second round deletes exactly the snapshots outside the retained ranks that the first spared as parents and left without a branch |
| GcRuns.OneRoundSuffices | src/gc.rs:28-65 | A collection that purges no workspace leaves an empty plan |
| GcRuns.TwoRoundsSuffice | src/control.rs:207-256 | For a fixed clock and policy two rounds leave an empty plan, from every reachable plane |
| GcRuns.SecondRoundNeeded | src/control.rs:207-256 | A second round finds work exactly when some parent outside the retained ranks has only expired branches |
| GcRuns.OneRoundCanFallShort | src/control.rs:207-256 | A run of four commands after which one round is not enough |
| GcRuns.Retention | src/gc.rs:41-62 | After a collection the newest retained of every source are there with their ranks, and so is every branch's parent |
| GcRuns.StricterPlansMore | src/gc.rs:31-62 | Retaining more, or for longer, plans nothing that was not planned |
| GcRuns.LaterPlansMore | src/gc.rs:31-39 | A later clock keeps every planned deletion and adds only workspace deletions |
| GcRuns.DeletionGivesNoGrace | src/control.rs:192-205 | Deleting a workspace makes it due at once exactly when its last access is at least the set time ago, or that time is zero |
| GcRuns.ExecuteStopsAtFirstError | src/control.rs:244-256 | A failing list leaves exactly the plane made by the actions before its first failing one |
| GcRuns.LostSnapshotWasFree | src/control.rs:224-256 | A snapshot that any list removes was no workspace's parent when its action was reached |
| Text.SplitJoin | src/metadata.rs:42-56 | Splitting undoes joining when no field holds the separator |
| Text.LinesOfJoined | src/metadata.rs:42-94 | The lines of a joined and newline-ended text are the joined lines, each less a final carriage return |
| Text.LinesMeaning | src/metadata.rs:94 | The cases that decide the lines of every text: a line ends at a newline, loses one carriage return ahead of it, and a last line without a newline counts unless empty |
| Text.LinesOfUnended | src/metadata.rs:94 | Joined lines without a final newline come back stripped, the last one untouched |
| Text.FinalNewlineIsOptional | src/metadata.rs:94 | A text that ends in neither a newline nor a carriage return has the same lines with a newline added |
| Text.ParseDecimal | src/metadata.rs:207-215 | A number printed in decimal parses back if it fits the type |
| Text.ParseMeaning | src/metadata.rs:207-215 | A field is read as a number exactly when it is its decimal numeral, with a plus sign or none and any zeros ahead, and the number fits |
| Text.BlankMeaning | src/metadata.rs:109 | A line is skipped exactly when all its characters are among the code points of Unicode white space |
| Codec.SavePolicies | src/metadata.rs:32-34 | The policy lines, in id order |
| Codec.SaveWorkspaces | src/metadata.rs:35-37 | The workspace lines, in id order |
| Codec.SaveSnapshots | src/metadata.rs:38-40 | The snapshot lines, in id order |
| Codec.Save | src/metadata.rs:25-44 | The loops produce the encoded text: header, then the three kinds of lines, newline-ended |
| Codec.ParseField | src/metadata.rs:207-215 | A parsed number fits its type; every failure is invalid input |
| Codec.Load | src/metadata.rs:93-138 | The loop computes the decoding, whose accepted lines, records and errors the rows of `CodecMeaning` and `CodecOrder` give |
| CodecMeaning.DecodeTimeMeaning | src/metadata.rs:240-242 | A field is read as a time exactly when it spells its seconds, and panics exactly when it spells 2^63 to 2^64 - 1 |
| CodecMeaning.NonEmptyMeaning | src/metadata.rs:151-154 | Empty ranges are dropped one by one and the others kept in order |
| CodecMeaning.LineMeaning | src/metadata.rs:108-196 | A line is read as a record exactly when its fields spell that record, kind, ids, numbers, state and times, extra fields ignored; any other line is refused |
| CodecMeaning.LineErrors | src/metadata.rs:126-215 | Every refusal of a line is invalid input, except the panic over a time a field can hold and a time cannot |
| CodecMeaning.FileMeaning | src/metadata.rs:93-138 | A file is refused as invalid without its exact first line, and otherwise with the error of its first bad record line, if any |
| CodecMeaning.FinalNewlineDoesNotMatter | src/metadata.rs:93-94 | A text that ends in neither a newline nor a carriage return loads the same with a newline added |
| CodecMeaning.BlankLinesDoNotMatter | src/metadata.rs:108-111 | A line of white space below the first line can be put in or taken out |
| CodecOrder.AcceptsEachLine | src/metadata.rs:108-133 | Loading accepts record lines exactly when it accepts each, in whatever order |
| CodecOrder.LastWins | src/metadata.rs:113-125 | For every kind and id the loaded record is the one on the last line that has one |
| CodecOrder.OrderAndRepetitionDoNotMatter | src/metadata.rs:104-137 | Accepted lines without conflicting records load the same as any lines with the same members |
| CodecOrder.OrderMattersOnlyForConflicts | src/metadata.rs:104-137 | Accepted lines load the same in every order exactly when no two give different records for one kind and id |
| CodecRoundTrip.ReadPolicyLine | src/metadata.rs:52-59 | A written policy line reads back as the policy, its last range less a carriage return |
| CodecRoundTrip.ReadWorkspaceLine | src/metadata.rs:61-81 | A written workspace line reads back as the workspace with times cut to seconds |
| CodecRoundTrip.ReadSnapshotLine | src/metadata.rs:83-91 | A written snapshot line reads back as the snapshot with its time cut to seconds |
| CodecRoundTrip.WrittenFields | src/metadata.rs:52-91 | A written line of a clean record splits into exactly the fields named here, in this order, with plain numerals and `-` for no parent |
| CodecRoundTrip.LoadOfSaved | src/metadata.rs:25-50 | What clean metadata loads back as, carriage returns included |
| CodecRoundTrip.LoadYieldsClean | src/metadata.rs:93-242 | Whatever text loads yields clean metadata in whole seconds, records under their own ids |
| CodecRoundTrip.RoundTrip | src/metadata.rs:25-50 | For all metadata: saving and loading gives it back, times cut to seconds and the epoch, exactly when ids are valid and file their records, paths hold no tab or newline, ranges are non-empty without comma, tab or newline, no parent is `-`, and no policy's last range ends in a carriage return |
| CodecRoundTrip.NormalForm | src/metadata.rs:25-50 | What any text loads to is saved and loaded back unchanged exactly when no policy ends in a carriage return, so always for a text without them, whatever its zeros, plus signs, blanks or repeats |
| Reload.TruncatedRank | src/metadata.rs:234-242 | Cutting times to seconds keeps ranks when the seconds of one source's snapshots are distinct |
| Reload.PlanAfterTruncation | src/main.rs:106-126 | The plan for reloaded metadata keeps every planned deletion of a workspace last used after the epoch, adds only deleted workspaces less than a second short of the set time, and under distinct seconds deletes the same snapshots |
| Reload.RunSurvivesRestart | src/control.rs:95-97 | For commands that name valid ids, set policies the file can hold and branch from no snapshot `-`: what any run of them made, with any faults, is saved and loaded back, and the plane going on with it satisfies the invariant |
| Reload.RestartedPlan | src/main.rs:106-126 | Such a run's plan from the file compares with its plan in memory as above |
| Reload.DashIsWrittenAsNone | src/metadata.rs:67-71 | Metadata with a parent `-` is written as the metadata without it |
| Reload.DashParentIsLost | src/metadata.rs:164-168 | A reachable plane whose reload drops a branch's parent and plans its deletion |
| Ssh.SessionCounter.FetchAdd | src/ssh_wire.rs:91 | Returns the old value and moves on by one, wrapping |
| Ssh.SshHandler.NewClient | src/ssh_wire.rs:144-148 | A new handler shares plane and counter and has authenticated nobody |
| Ssh.SshHandler.AuthPublickey | src/ssh_wire.rs:158-184 | Accepts exactly the keys whose grant set holds the configured workspace, and then holds user and key; a rejection keeps the earlier principal |
| Ssh.SshHandler.NextSessionId | src/ssh_wire.rs:90-93 | Always yields a valid id, made of the old counter value |
| Ssh.SshHandler.OpenFlarenvSession | src/ssh_wire.rs:95-134 | Without a principal it takes no id and opens nothing; with one it opens a session under the next id for the configured workspace |
| Ssh.SessionNameIsValid | src/ssh_wire.rs:90-93 | Every `ssh_N` is a valid id |
| Ssh.SessionNameIsInjective | src/ssh_wire.rs:90-93 | Different counter values make different ids |
| Ssh.SessionIdsAreDistinct | src/ssh_wire.rs:90-134 | In every interleaving of any handlers all ids are valid, and they are pairwise distinct exactly as long as at most 2^64 were taken |
| Ssh.NextIsAccounted | src/ssh_wire.rs:107-119 | Every step keeps: waiting handlers hold different unused ids, and the recorded sessions are those that began |
| Ssh.NoSessionIsOverwritten | src/ssh_wire.rs:107-119 | Up to 2^64 ids there are as many recorded sessions as sessions begun |
| Ssh.PrincipalMeaning | src/ssh_wire.rs:158-184 | In every interleaving a handler has a principal exactly when some earlier offer of its own was of a key whose grant set holds the configured workspace, and it is that of the latest such offer |
| Ssh.NoGrantNoSession | src/ssh_wire.rs:95-184 | With the configured workspace in no grant set no interleaving records a session |
| Ssh.GrantedKeyOpens | src/ssh_wire.rs:95-184 | A handler nobody comes between, offered a granted key and asked for a session, runs the plane's session opening under the next id, and a ready workspace gets its session |
| Ssh.SessionProvenance | src/ssh_wire.rs:95-184 | Every recorded session was begun by a handler that took its id in an earlier step and, before that, was offered a key whose grant set holds the configured workspace |
| Ssh.SessionsAreForWorkspace | src/ssh_wire.rs:116-119 | Every recorded session is for the configured workspace, ready when it began, under the policy it names |
| Runtime.SessionRuntime.GetStats | src/runtime.rs:36-42 | The sizes and counters of the state |
| Runtime.SessionRuntime.ApplyEvent | src/runtime.rs:44-68 | Result and new state of one event; only a shutdown ends the loop |
| Runtime.SessionRuntime.RunBlocking | src/runtime.rs:70-90 | The loop leaves at the first shutdown or the end of the stream, and its state is the fold of what came before with timeouts as ticks |
| Runtime.ActiveMeaning | src/runtime.rs:45-61 | A session is active exactly when its last start or exit is a start |
| Runtime.CountersMeaning | src/runtime.rs:53-65 | The counters are the exits and ticks of the trace, modulo 2^64 |
| Runtime.Conservation | src/runtime.rs:44-68 | Starts that took effect are active or have exited, so starts are active plus exited exactly when repeated starts and stray exits are as many |
| Usage.SumValues | src/usage.rs:82-92 | The loop's result is the mathematical sum if it fits 64 bits, and otherwise a panic or the sum modulo 2^64 |
| Usage.SumOptional | src/usage.rs:183-191 | The sum of the values present, and nothing exactly if none is |
| Usage.TotalIsSum | src/usage.rs:82-92 | A total is the mathematical sum exactly when that fits |
| Usage.NoneMeansAllNone | src/usage.rs:183-191 | There is no total exactly when every part is missing |
| Usage.DirectorySize | src/usage.rs:103-116 | The lengths of the node and everything below it, links not followed, as far as 64 bits hold them; with an unreadable node, the first one's error unless an overflow panics before it |
| Usage.MeasureWorkspaces | src/usage.rs:53-71 | The usages in id order, or the first probe's error; a missing path counts as empty |
| Usage.MeasureUsage | src/usage.rs:49-101 | A report of those usages, the probe's error, or a panic exactly when a checked column overflows |
| Usage.RowMeaning | src/usage.rs:55-70 | Each row, and its entry in every column that is summed, is what its workspace was probed and configured for |
| Usage.CountsMeaning | src/usage.rs:73-80 | Counting rows in a state gives the number of workspaces of the metadata in that state |
| Usage.ReportMeaning | src/usage.rs:73-101 | The two counts are the numbers of ready and of deleted workspaces in the metadata, which are all of them; each total that fits is its column's sum, the process limits fit for up to 2^32 + 1 workspaces, and there is no retained total exactly when no workspace has one |
| Usage.CollectionFreesQuota | src/control.rs:207-222 | A collection lowers the committed disk quota by exactly the quotas of the workspaces it purges |
| Usage.ReportsBeforeAndAfterCollection | src/usage.rs:83 | The reports before and after a collection differ by that much |

## Left out

- `BtrfsStorage`, `NspawnExecutor`, `run_command` and `read_btrfs_qgroup_usage` run other programs; the backend that may fail at any call stands for the first two.
- A backend call that takes effect in part before it fails is not part of the model: a fault changes nothing.
- A file tree that changes while it is measured.
- `FileMetadataStore` creates directories and reads and writes a file; the model is the text. Paths that are not UTF-8, which are written lossily, are not part of it.
- `replace_metadata` takes any metadata unchecked, so it is no command of a run; `Reload.RunSurvivesRestart` covers replacing by what was saved.
- Paths are strings compared as strings, not component by component as `PathBuf` compares them.
- The wall clock is a parameter of each command, read once, as the code reads it once.
- Error message texts; an error is its kind.
- The metadata's maps are one value in a field of the control plane that its methods reassign; the storage, executor, counter, handler and runtime are objects.
- Vectors are sequences: sorting a group in place is the function `Gc.NewestFirst`, since the sort itself is library code.
- Runtime.CountersMeaning: the counters wrap, as in a build without overflow checks; with them the 2^64th exit or tick aborts.
- `parse_btrfs_qgroup_show` and `SshSessionRouter` would add only easy members.
- russh, tokio, keys, host keys and replies on channels; of `src/ssh_wire.rs` the model has the counter, the lock, the grants and the principal.
- Configuration, layout, preflight checks and the command line (`src/config.rs`, `src/layout.rs`, `src/preflight.rs`, `src/main.rs`).
