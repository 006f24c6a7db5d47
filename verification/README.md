# A verified model of the workflow controller

The repository is a local controller that runs coding agents on a project. This project models the parts
of it that keep state which must survive failures, restarts and interleaving, and proves what they keep.
Each module follows one component:

- `FileTrees`, `IsolatedWorkspace`: delivering an agent's edits from an isolated copy into the project, file
  by file, with conflict detection, backups and rollback. Every step of a delivery that may raise asks a fault
  oracle, so a theorem over all oracles covers an exception at every point.
- `PathTexts`, `SnapshotRestore`: how listed path texts are read, and going back to a snapshot after a failed
  attempt.
- `ProjectionStore`, `ProjectedRows`, `ProjectionAgreement`, `LockAgreement`, `StoreRuns`: the SQLite store, a
  document with tables derived from it. The incremental refresh is compared with the full rebuild, table by table.
- `Migrations`: the resumable migration log, over any number of failing attempts.
- `LockedStore`, `AtomicWrite`: the JSON store's lock-file protocol, as a state machine over the steps of any
  number of processes, and the write-temporary-then-replace primitive below it.
- `CircuitBreaker`, `RetryLoop`: the model circuit breaker with any number of interleaved clients, and the
  retry, backoff and session loop of one client.
- `TodoScanner`, `TaskCompiler`: from the todo text to a manifest, from the manifest to a workflow instance,
  and the two validators. `IncludeExpansion`: recursive workflow includes with cycle detection.
- `ProcessRegistry`: registered processes, persisted rows, and the reaping of orphans.
- `Histories`: the rotated run log and the compacted retry feedback. `Retention`: which runs a cleanup removes.
- `Prelude`: small shared value types, and the splitting and ordering of texts.

Objects that the code updates in place are classes whose methods are proved against functions of the old
state; the theorems are about those functions and about runs of them.

## What turned out to be conditional

- Rollback of a delivery restores the original files exactly when no path of the manifest has become a directory
  and no temporary file was left behind by an unlink that raised (`RollbackIsExact`,
  `ApplyIsolatedChangesAtomic`). `copy2` onto a directory copies into it: an edit that turns the file `a` into
  `a/b` can be delivered, but its rollback leaves `a/a` (`FileBecomesDirectoryDelivers`,
  `FileBecomesDirectoryStays`). Temporary files are in no manifest, so no rollback removes them.
- Whatever raises, a delivery that breaks off is undone, but for a temporary file, where no selected path is a
  directory and none lies below another (`ApplyIsolatedChangesAtomic`, `Clear`). Where one lies below another it may
  not be: a fault after the parents of `a/b` were made ends in a rollback that reports success and leaves `a/a`
  (`FileBecomesDirectoryBreaksOff`).
- A delivery that meets no fault goes through exactly when it is admissible, no selected path is a directory, and
  every file above a written path is itself selected and absent from the isolated copy
  (`ApplyIsolatedChangesAtomic`, `Feasible`).
- Without a fault, the delivery of all differences succeeds exactly when each visible path of the original holds its
  isolated or its baseline content and no changed path is a directory; and it is all or nothing exactly when, the
  former given, the latter holds (`DeliverDifferences`). A path that has been a directory from the start passes every
  check, since a directory has no digest: the delivery breaks off there, and so does its rollback, before it comes to
  the files already replaced (`DirectoryPassesChecks`, `DirectoryStopsDelivery`, `DirectoryStopsRollback`).
- A restore of a snapshot is complete exactly when nothing outside the restored paths stands in the way
  (`RestoreProjectContentSnapshot`): a directory in a file's place is passed over in silence. The visible files in
  that directory are removed all the same, so neither version is left (`NeitherVersionIsLeft`, with an input in
  `FileBecameDirectory`).
- A file that cannot be read while a snapshot is taken is skipped there, and a later restore removes it
  (`UnreadableIsRemoved`).
- The selected restore looks a listed path up by its normalized text, a snapshot is keyed by the raw one, and what
  is not found is removed. For keys that lose nothing but their backslashes it ends with the snapshot's visible
  contents exactly when the list has every difference, each listed path of the snapshot is its own normal form, and
  nothing stands in the way (`SelectedRestoreComesBack`). On Windows, where raw keys have backslashes, every listed
  file in a directory is removed although the snapshot has it (`NestedKeyIsRemoved`).
- A mutation compares the new document with the normal form of the stored one. The run and child rows it refreshes
  agree with a full rebuild exactly when each run it leaves unchanged had been stored in normal form
  (`RowsRefineExactly`); a mutation that changes nothing keeps the agreement exactly when the document is in normal
  form (`NoChangeKeepsAgreement`). Storing any other projectable run and then changing nothing ends in disagreement
  (`ShortRunUnsettles`). The event history needs no such condition where the default steps carry no events, and the
  application has none (app/runtime_modules/api.py:124).
- The table of project locks agrees with a full rebuild exactly when the locks are settled (`LocksRefineExactly`);
  one holder per path suffices, and any two projectable runs can break it (`TwoHoldersUnsettle`).
- One probe at a time: while a client holds the marked probe, and until it acts or the breaker is reset, a second
  probe can come to run beside it exactly when some other client has a call under way (`OneProbeExactly`). Any two
  clients can get there under any settings (`OverlapHappens`). A reset, too, clears the mark.
- A manifest may use any decimal digits in its task ids and pass its validator; the instance compiled from it
  passes exactly if the digits are ASCII (`CompiledInstanceValidates`, with an input in `OtherDigitsHappen`).
- A text with more than twenty task ids gives a manifest that its own validator refuses; any other text gives
  a valid one (`TaskManifestFromTodo`).
- The registry loses a record under the empty key when it is reloaded, and no other (`PersistThenLoad`).
- Reading turns carriage returns into newlines. A run log that fits is kept to the letter exactly when none comes
  before its last line; a longer one is cut to its last characters exactly when the last call rotates and none
  stands in what is kept before the last line (`LogIsBoundedHistory`, with inputs in `ReturnIsLost`).
- The feedback file holds the last three entries exactly when none of these has a line that looks like an entry's
  header (`FeedbackIsLastThree`), and the retried step reads its entry exactly then (`NewestIsRead`); an
  entry that quotes a header is cut (`QuotedHeaderCuts`).
- The cleanup's own description says that active runs are never removed. It chooses from the runs it read and
  removes by id at a later mutation. All active runs survive exactly when each run that was resumed in between was
  recent, or within its project's budget, when it was read (`ActiveRunsStay`); any other resumed run is removed
  (`WokenRunIsRemoved`).

## Model

| member | source | states |
|---|---|---|
| IsolatedWorkspace.ChangedProjectFiles | app/security/isolated_workspace.py:217-232 | lists, once each, exactly the paths on which the two trees differ and of which no segment, at whatever depth, is an ignored name |
| IsolatedWorkspace.SnapshotHashes | app/security/isolated_workspace.py:139-142 | the baseline has exactly the files of which no segment is an ignored name |
| IsolatedWorkspace.DetectOriginalConflicts | app/security/isolated_workspace.py:235-249 | reports a selected path, with both digests, exactly when its current digest is not the baseline's |
| IsolatedWorkspace.Preflight | app/security/isolated_workspace.py:272-281 | passes exactly the admissible requests and names what blocks the others: nothing that is absolute, climbs, or has an ignored segment is ever passed; touches nothing |
| IsolatedWorkspace.ApplyOne | app/security/isolated_workspace.py:290-316 | one path at a time: delivered whole, or only this path and a temporary file beside it can differ; the backup is taken before the change |
| IsolatedWorkspace.WriteOne | app/security/isolated_workspace.py:303-313 | parents, temporary file and replacement: the file is written whole, or nothing but the path and one fresh temporary file differs |
| IsolatedWorkspace.Synchronize | app/security/isolated_workspace.py:283-316 | at whatever step it stops, manifest and backups describe every touched file, and nothing else was touched but a temporary file that could not be unlinked; without faults, and with parents clear, it stops at nothing but a directory of the original |
| IsolatedWorkspace.WayIsOpen | app/security/isolated_workspace.py:275-314 | when ancestors come first, as sorting has it, and parents are clear, every path but a directory finds its way open |
| IsolatedWorkspace.DeliveredWasFeasible | app/security/isolated_workspace.py:290-316 | a delivery that went through was feasible |
| IsolatedWorkspace.ApplyIsolatedChangesAtomic | app/security/isolated_workspace.py:258-330 | for every fault oracle: exactly the selected paths as in the isolated copy, or the original files; a request with an ignored segment is refused, a path with one never changes, and refusals change nothing; a failed delivery is undone exactly when no attempted path is a directory and no temporary file stayed; without faults success means admissible and feasible, both ways, and with parents clear the call is all or nothing if and only if, when admissible, no requested path is a directory of the original |
| IsolatedWorkspace.RollbackAtomicApply | app/security/isolated_workspace.py:333-348 | the loop does what undoing the manifest entries newest first does, stopping at the first exception |
| IsolatedWorkspace.RollbackIsExact | app/security/isolated_workspace.py:333-348 | rollback restores the original files from any tree that differs on the manifest and some leftovers, up to these leftovers, if and only if no manifest path is a directory; it touches nothing else |
| IsolatedWorkspace.RollbackRestores | app/security/isolated_workspace.py:326-348 | after a broken-off delivery the original files are back if and only if no manifest path is a directory and nothing was left over |
| IsolatedWorkspace.UndoSound | app/security/isolated_workspace.py:333-348 | rollback keeps the tree sound and gives up no directory, even when it stops half way |
| IsolatedWorkspace.ThreeWayDelivery | app/security/isolated_workspace.py:139-249 | delivery of all differences is admitted if and only if every visible path holds its isolated or its baseline content; then visible files equal the isolated copy, ignored ones the original, and a second difference is empty |
| IsolatedWorkspace.DifferencesAreFeasible | app/security/isolated_workspace.py:217-232 | all differences from a proper copy have clear parents, and are feasible if and only if no changed path is a directory |
| IsolatedWorkspace.DeliverDifferences | app/workflow_runtime/patch_approval.py:288-294 | the composition: without faults it succeeds if and only if each visible path holds isolated or baseline content and no changed path is a directory, and then each path with an ignored segment is as it was and each other one as in the isolated copy; it is all or nothing if and only if the first implies the second |
| IsolatedWorkspace.DirectoryPassesChecks | app/security/isolated_workspace.py:235-281 | a file changed and a directory replaced by a file: the delivery passes every check |
| IsolatedWorkspace.DirectoryStopsDelivery | app/security/isolated_workspace.py:283-316 | breaks off at the directory with the file replaced |
| IsolatedWorkspace.DirectoryStopsRollback | app/security/isolated_workspace.py:326-348 | and its rollback raises before it comes to the file: neither the original nor the delivery |
| IsolatedWorkspace.DeliveryIsReversible | app/security/isolated_workspace.py:317-348 | rolling back a completed delivery gives the original files back, if and only if no delivered path has become a directory |
| IsolatedWorkspace.FileBecomesDirectoryDelivers | app/security/isolated_workspace.py:283-316 | an edit that turns a file into a directory with a file in it is feasible and can be delivered |
| IsolatedWorkspace.FileBecomesDirectoryIsRecorded | app/security/isolated_workspace.py:301-325 | with a proper receipt and proper backups |
| IsolatedWorkspace.FileBecomesDirectoryStays | app/security/isolated_workspace.py:333-348 | its rollback puts the old file into the new directory instead |
| IsolatedWorkspace.FileBecomesDirectoryBreaksOff | app/security/isolated_workspace.py:283-348 | the edit is feasible with nothing selected a directory, and broken off once its parents are made it is rolled back without an exception to neither version |
| FileTrees.ProjectTree.InstallAtomically | app/security/isolated_workspace.py:304-312 | a file is replaced whole or not at all, and exactly if none of the five steps raises and the target is no directory; the temporary file stays only if the step that raised last closed or unlinked it |
| SnapshotRestore.RestoreSelectedProjectPaths | app/runtime_modules/files.py:242-298 | touches the files that the normalized texts denote and no others, whatever raises; without faults each path holds what the last text denoting it is the key of, or nothing if it is no key, if and only if nothing stands in the way |
| SnapshotRestore.BackExactly | app/runtime_modules/files.py:257-277 | for any texts: the visible contents are back if and only if each path that no text denotes is unchanged and each denoted path of the snapshot has its own key as the last text denoting it |
| SnapshotRestore.SelectedRestoreComesBack | app/runtime_modules/files.py:242-298 | for listed keys: a restore without faults ends with the visible contents of the snapshot if and only if every difference is listed, each listed path of the snapshot is its own normal form and nothing stands in the way |
| SnapshotRestore.ListedAreTold | app/runtime_modules/files.py:257-277 | listed files are as in the snapshot where their keys are in normal form and gone where they are not, if and only if nothing stands in the way of the former |
| SnapshotRestore.OwnFormIs | app/runtime_modules/files.py:617-618 | with slashes such a key is its own normal form, with backslashes if and only if it has one part |
| SnapshotRestore.NestedKeyIsRemoved | app/runtime_modules/files.py:264-277 | with backslashes, a listed file in a directory is removed although the snapshot has it |
| SnapshotRestore.NormalKeysRestorePaths | app/runtime_modules/files.py:242-298 | for keys in normal form the restore is that of the listed paths, in the same situations |
| PathTexts.SplitText | app/runtime_modules/files.py:221 | a written relative path can be read back |
| PathTexts.PlaceOfText | app/runtime_modules/files.py:259-261 | the text of a path with slashes denotes that path |
| PathTexts.PlaceOfAbsolute | app/runtime_modules/files.py:259-263 | a text that starts with a slash denotes a path of the project only if it names the project's own path first |
| PathTexts.UpCancels | app/runtime_modules/files.py:259 | a name and the step up behind it cancel wherever they stand, as do empty names and dots |
| PathTexts.LastForAt | app/runtime_modules/files.py:257-277 | of several texts that denote a path, the last in the list decides |
| PathTexts.NormalOf | app/runtime_modules/files.py:617-618 | the normal form is what is left without blanks and then without backticks at the ends, with slashes for backslashes |
| Prelude.SortedTexts | app/runtime_modules/files.py:257 | lists the texts in strictly rising order |
| PathTexts.AncestorsComeFirst | app/runtime_modules/files.py:257 | in that order the text of a directory comes before those of the files in it |
| SnapshotRestore.SelectedRestoreExactly | app/runtime_modules/files.py:242-298 | restoring a list of paths gives the snapshot's visible contents if and only if the list has every visible difference |
| SnapshotRestore.RestoreProjectContentSnapshot | app/runtime_modules/files.py:301-336 | leaves ignored files alone, whichever segment of their path is ignored; without faults no visible file is left that the snapshot lacks, and visible contents equal the snapshot if and only if nothing stands in the way |
| SnapshotRestore.NeitherVersionIsLeft | app/runtime_modules/files.py:312-334 | where a directory took the place of a snapshot file, neither that file nor any visible file in the directory is there afterwards |
| SnapshotRestore.FileBecameDirectory | app/runtime_modules/files.py:312-334 | a snapshot and a project for which nothing visible is left |
| SnapshotRestore.SelectedRestoreSuffices | app/runtime_modules/files.py:590-593 | restoring only the paths whose stat changed gives the same visible contents as the full restore |
| SnapshotRestore.SelectedRestoreAsPossible | app/runtime_modules/files.py:242-336 | and can be done in exactly the same situations |
| SnapshotRestore.RestoreChangedPaths | app/workflow_runtime/base_actions.py:113-159 | for keys that are read as written: restoring every path whose stat changed, without faults, brings the visible contents back if and only if a full restore could |
| SnapshotRestore.UnreadableIsRemoved | app/runtime_modules/files.py:225-336 | going back at once to a fresh snapshot leaves the visible files alone if and only if all of them could be read |
| SnapshotRestore.HeldMeansReachable | app/runtime_modules/files.py:242-336 | a sound tree that holds the snapshot afterwards had nothing in the way before |
| SnapshotRestore.SnapshotsAreSnapshots | app/runtime_modules/files.py:225-239 | a snapshot of a sound tree holds visible paths only, none of them above another |
| SnapshotRestore.SnapshotHas | app/runtime_modules/files.py:203-239 | a snapshot has a file as it is, unless one of the sixteen directory names stands on its path at whatever depth or its own name is opencode.json |
| ProjectionStore.NormalizeIdempotent | app/persistence/sqlite_store.py:84-128 | normalizing a normalized document changes nothing |
| ProjectedRows.NormalizeFills | app/persistence/sqlite_store.py:99-127 | normalizing fills in exactly what a run and its steps lack, with these constants, and leaves every other field alone |
| ProjectionStore.SQLiteStore.SyncRunProjection | app/persistence/sqlite_store.py:166-236 | the statements issued for one run have the effect of its projection, or fail on a duplicate key |
| ProjectedRows.RunIsHeld | app/persistence/sqlite_store.py:177-232 | from the run's fields: after its projection the seven child tables hold its entries, the last under each name, with their positions, and nothing else of the run; rows of other runs stay |
| ProjectedRows.EvidenceIs | app/persistence/sqlite_store.py:214-218 | the validation evidence is that of the validation steps, in order |
| ProjectedRows.RunRowIs | app/persistence/sqlite_store.py:170-176 | the run's own row: its status or queued, its phase or that of its first running or waiting step or its status, and its original or project path |
| ProjectedRows.LockRowIs | app/persistence/sqlite_store.py:179-236 | its lock is at that path and nowhere else, and other runs' locks stay at other paths |
| ProjectedRows.EventRowsHeld | app/persistence/sqlite_store.py:187-210 | every event of the timeline, of the run's own list and of each step is issued as a row, a step's under the key of the step |
| ProjectedRows.EventRowsOnly | app/persistence/sqlite_store.py:187-210 | and nothing else is issued |
| ProjectedRows.NamesAre | app/persistence/sqlite_store.py:182-231 | a row is named by the entry's own key, or by its position where it has none |
| ProjectedRows.DigitsValue | app/persistence/sqlite_store.py:182 | the position in a made-up key can be read back |
| ProjectionStore.SQLiteStore.SyncProjections | app/persistence/sqlite_store.py:238-245 | empties every table and projects every run: the full rebuild |
| ProjectionStore.SQLiteStore.SyncChangedProjections | app/persistence/sqlite_store.py:247-257 | removes the vanished runs and projects the changed ones, in dictionary order |
| ProjectionStore.SQLiteStore.Mutate | app/persistence/sqlite_store.py:359-375 | commits document and refreshed tables together under the next version, or leaves the store as it was |
| ProjectionAgreement.SyncAllSucceeds | app/persistence/sqlite_store.py:238-245 | projecting runs succeeds exactly when each run, by itself, has no colliding child rows |
| ProjectionAgreement.SyncAllProjects | app/persistence/sqlite_store.py:166-245 | afterwards the last run of every id has its own rows and all other rows are as before |
| ProjectionAgreement.RefreshIs | app/persistence/sqlite_store.py:247-257 | the refresh is the removal of vanished runs followed by the projection of the changed runs in document order |
| ProjectionAgreement.RefreshFailsLikeRebuild | app/persistence/sqlite_store.py:247-257 | the refresh fails exactly when a rebuild of the new document would |
| ProjectionAgreement.ProjectableByTable | app/persistence/sqlite_store.py:166-236 | a run can be projected if and only if its steps, tasks, sessions, artifacts and checkpoints have distinct keys each |
| ProjectionAgreement.NormalIsProjectable | app/persistence/sqlite_store.py:84-128 | normalizing with proper default steps keeps a projectable run projectable |
| ProjectionAgreement.MutationFailsLikeRebuild | app/persistence/sqlite_store.py:84-257 | a mutation of a rebuildable stored document is refreshed if and only if the new document can be rebuilt |
| ProjectionAgreement.RowsRefineRebuild | app/persistence/sqlite_store.py:166-257 | run and child rows after the refresh are those of a full rebuild of the new document |
| ProjectionAgreement.RowsRefineExactly | app/persistence/sqlite_store.py:84-257 | for any stored document and any successful refresh: run and child rows agree with a rebuild if and only if each unchanged run had been stored in normal form |
| LockAgreement.SyncLocksAt | app/persistence/sqlite_store.py:179-236 | after projecting runs a path's lock row is its last holder's, or the old one if its owner was not projected |
| LockAgreement.RefreshedLockAt | app/persistence/sqlite_store.py:233-257 | what the refresh leaves at a path: the last changed holder's row, or the unchanged old holder's |
| LockAgreement.LocksRefineExactly | app/persistence/sqlite_store.py:233-257 | the lock table after the refresh is that of a rebuild if and only if the locks are settled |
| LockAgreement.LocksExactly | app/persistence/sqlite_store.py:233-257 | the same on the lock rows alone, whether or not the documents can be rebuilt |
| LockAgreement.OneHolderSettles | app/persistence/migrations.py:189-197 | one holder per project path before and after settles the locks, through swaps and removals |
| LockAgreement.TwoHoldersUnsettle | app/persistence/migrations.py:189-197 | for any two projectable runs there are documents with two holders of one path on which refreshed and rebuilt lock tables differ |
| StoreRuns.AddEventsKeeps | app/persistence/sqlite_store.py:147-164 | inserting events keeps the old rows in place, makes no duplicate, records every event, and adds nothing the second time |
| StoreRuns.ResyncAddsNothing | app/persistence/sqlite_store.py:151-210 | projecting a run again adds no event row |
| StoreRuns.RunEventsAreHeld | app/persistence/sqlite_store.py:151-210 | after the projection of a run every event of its timeline, its list and its steps has a row, and every row that was added is of such an event, a step's under the step's own key |
| StoreRuns.RefreshKeepsEvents | app/persistence/sqlite_store.py:187-257 | after a refresh all current events are recorded, if unchanged runs are as they were stored |
| StoreRuns.NormalEvents | app/persistence/sqlite_store.py:84-128 | default steps without events add none: normalizing keeps the event rows of a run |
| StoreRuns.MutationKeepsEvents | app/persistence/sqlite_store.py:359-375 | so after any successful mutation, settled or not, every current event is recorded |
| StoreRuns.RefreshGrowsEvents | app/persistence/sqlite_store.py:151-257 | no event row is doubled by a refresh, and the rows of a run that stays only grow |
| StoreRuns.MutateEffect | app/persistence/sqlite_store.py:359-375 | any mutator: a failing call changes nothing; a success stores what it handed back with the version one higher, and event rows only grow, without duplicates |
| StoreRuns.MutateKeepsAgreement | app/persistence/sqlite_store.py:359-375 | any successful call keeps tables, locks and history in agreement with the document if and only if unchanged runs had been stored in normal form and the locks are settled |
| StoreRuns.NoChangeKeepsAgreement | app/persistence/sqlite_store.py:84-128 | a mutation that changes nothing keeps the agreement if and only if the stored document is in normal form |
| StoreRuns.GoodDocsAreSettled | app/persistence/sqlite_store.py:84-257 | documents in normal form with one lock holder per path are settled with each other, whatever changes between them |
| StoreRuns.EveryMutation | app/persistence/sqlite_store.py:359-375 | over any sequence of calls on a new store, whose mutators keep unique run ids unique and leave the version alone: the version counts the successes, no two rows have the same run and event, every event of the timeline, list and steps of every run has a row where defaults carry none, and the tables agree with the document if every call was settled |
| StoreRuns.EditsKeepIds | app/persistence/sqlite_store.py:359-375 | every mutator that edits runs in place, or appends one under a new id, is of that kind |
| StoreRuns.IdleAndStoringKeepIds | app/persistence/sqlite_store.py:359-375 | and so are the one that changes nothing and the one that stores a single run |
| StoreRuns.RowsOnlyGrow | app/persistence/sqlite_store.py:359-375 | over any sequence of calls the event rows of a run that stays only grow |
| StoreRuns.ShortRunUnsettles | app/persistence/sqlite_store.py:84-257 | storing any projectable run that is not in normal form, and then changing nothing, ends with tables that disagree with the document |
| Migrations.RunMigration | app/persistence/migrations.py:276-349 | one migration is applied and recorded whole, or the database is as before; the former exactly if SQLite accepts every statement and no step raises, opening, recording and commit included |
| Migrations.Backfill | app/persistence/migrations.py:276-349 | the audit backfill may stop after any row, with the rows before it filled in; it comes to its end exactly if none of its four updates raises or the audit columns are not there |
| Migrations.RunMigrations | app/persistence/migrations.py:276-349 | what a call may do: a too-new database is refused before any migration, a failure leaves the migrations before it applied, a success applies all that were missing, in order |
| Migrations.StageIs | app/persistence/migrations.py:54-228 | every stage of an uninterrupted run exists, with exactly its versions recorded, and has the tables and indexes that its migrations are for |
| Migrations.FinishedSchema | app/persistence/migrations.py:54-228 | the finished database has every table with exactly its columns, all five indexes, and version 4 as its only metadata |
| Migrations.EventTablesAreMadeUp | app/persistence/migrations.py:204-210 | the third migration makes up for missing projection tables before it adds the event key |
| Migrations.ReachedIsPrefix | app/persistence/migrations.py:276-349 | in every reachable database the recorded versions are a prefix and the schema is that of a stage: no migration is half visible |
| Migrations.AttemptConverges | app/persistence/migrations.py:276-349 | every attempt leads from a reachable database to a reachable one; success ends in the database of an uninterrupted run, on which a further call changes nothing |
| Migrations.EveryAttempt | app/persistence/migrations.py:276-349 | the same over any number of attempts from an empty database |
| Migrations.ReachedRunsThrough | app/persistence/migrations.py:276-349 | from every reachable database the missing migrations run through |
| Migrations.FaultFreeSucceeds | app/persistence/migrations.py:276-349 | so a call that meets no fault succeeds and ends in the finished database |
| Migrations.BackfillKeeps | app/persistence/migrations.py:333-341 | on any database a name or checksum that is recorded stays, and one that is missing is filled in |
| Migrations.BackfillTwice | app/persistence/migrations.py:276-349 | an interrupted backfill is continued to the same result |
| Migrations.FinishedIsAudited | app/persistence/migrations.py:23-31 | in the finished database versions 1 to 4 have these names and checksums, spelled out, and there are no others |
| Migrations.FinishedVersions | app/persistence/migrations.py:231-236 | and versions 1 to 4, no others, are recorded |
| Migrations.FinishedIsVerified | app/persistence/migrations.py:352-383 | and passes the schema verification: all thirteen tables are there, whatever the migrations list, with the event key and the audit columns |
| LockedStore.StepKeepsInv | app/persistence/json_store.py:30-239 | every step of every process keeps the protocol's invariant: locking, creating an absent file, saving defaults, mutating, saving |
| LockedStore.Linearizable | app/persistence/json_store.py:125-239 | for all processes and interleavings: at most one is inside, the file is always the fold of the visits in acquisition order, and each finished visit took place as a whole on what the earlier ones left, or raised and mutated nothing |
| LockedStore.FoldIsSequential | app/persistence/json_store.py:228-239 | when nobody raised, that fold is the operations run one after the other |
| LockedStore.QuietIsSequential | app/persistence/json_store.py:228-239 | so between visits the file is the sequential result |
| LockedStore.VisitEnds | app/persistence/json_store.py:125-239 | from every state with a visit under way its own process can finish it, with no exception but a refused mutation |
| LockedStore.EverybodyIsServed | app/persistence/json_store.py:125-239 | in every reachable state without a visit under way any process can take any operation through: a read returns the document, a mutation leaves exactly what its function makes of it |
| LockedStore.OnlyHolderMoves | app/persistence/json_store.py:30-62 | while the lock is held no other process can change anything |
| AtomicWrite.AtomicWriteText | app/core/paths.py:51-81 | normal return means the new content, an exception the old files, but for a temporary file if unlinking it, the last step, raised; in every state on the way, so after a crash at any point, the target is old or new and no other file changed |
| AtomicWrite.FillAndReplace | app/core/paths.py:62-67 | filling the temporary file, even partly, never shows through the target; it is moved exactly if writing and one of the twelve attempts to move it go well |
| AtomicWrite.Directory.CreateTemporary | app/core/paths.py:52-60 | a new empty file beside the target, or no change; it is created exactly if of the first three attempts the first that does not ask for another one is fine |
| AtomicWrite.Directory.ReplaceWithRetry | app/core/paths.py:36-48 | one move or none; it is moved exactly if of the first twelve attempts the first that does not ask for another one is fine |
| CircuitBreaker.ModelCircuitBreaker.Allow | app/services/model_circuit_breaker.py:59-72 | the circuit moves and the caller is answered as the specification says, other circuits untouched |
| CircuitBreaker.ModelCircuitBreaker.RecordSuccess | app/services/model_circuit_breaker.py:74-85 | likewise for a success |
| CircuitBreaker.ModelCircuitBreaker.RecordFailure | app/services/model_circuit_breaker.py:87-102 | likewise for a failure: opening, counting and backing off |
| CircuitBreaker.ModelCircuitBreaker.Reset | app/services/model_circuit_breaker.py:109-111 | forgets every circuit |
| CircuitBreaker.StepKeepsInv | app/services/agent_execution_service.py:67-91 | every step of every client keeps the invariant that ties the circuit to the history of calls |
| CircuitBreaker.EveryReachableState | app/services/model_circuit_breaker.py:59-102 | in every reachable state: the counter is the transient failures since the last success, it alone decides closedness, a probe is marked exactly while unsettled, and two grants are separated by a record or reset |
| CircuitBreaker.BackoffIs | app/services/model_circuit_breaker.py:95-102 | in every reachable state of a circuit that is not closed, from the transient failures in its log alone: the wait is one cooldown at the threshold, one more for each further failure, and eight from seven further ones on |
| CircuitBreaker.FailureOpensNow | app/services/model_circuit_breaker.py:87-102 | a transient failure that reaches the threshold opens the circuit at that moment, with the first 500 characters of its text |
| CircuitBreaker.ClosedAdmits | app/services/model_circuit_breaker.py:59-72 | with fewer failures than the threshold whoever asks is admitted, and not as a probe |
| CircuitBreaker.SuccessCloses | app/services/model_circuit_breaker.py:74-85 | a success closes the circuit in any state and forgets failures, mark and probe time; the client goes on exactly when the output was empty |
| CircuitBreaker.NoLostProbe | app/services/agent_execution_service.py:67-91 | a marked probe is held by a client, and whatever that client records frees it |
| CircuitBreaker.NeverStuck | app/services/model_circuit_breaker.py:59-72 | when nobody is running, a client that asks late enough is admitted |
| CircuitBreaker.OverlapNeedsStraggler | app/services/model_circuit_breaker.py:74-111 | two probes overlap only after a reset or a record by somebody who does not hold the first |
| CircuitBreaker.OneProbeExactly | app/services/model_circuit_breaker.py:59-102 | until the probing client acts or the breaker is reset, a second probe can run beside it if and only if some other client has a call under way |
| CircuitBreaker.OverlapHappens | app/services/model_circuit_breaker.py:59-102 | any two clients can come to probe side by side, under any settings |
| CircuitBreaker.WaitsNeverShrink | app/services/model_circuit_breaker.py:87-102 | without success or reset waits lie between one and eight cooldowns, never shrink, and the probe time never moves back |
| CircuitBreaker.QuietUntilProbeTime | app/services/model_circuit_breaker.py:59-72 | an open circuit admits nobody before its probe time, whatever fails meanwhile |
| CircuitBreaker.UnsettledProbe | app/services/model_circuit_breaker.py:64-102 | picks the one probe grant with nothing settled after it, or none when every grant was settled |
| RetryLoop.Execute | app/services/agent_execution_service.py:51-146 | attempts are recoveries plus one and bounded by the retries; recoveries are numbered in order, each answering the failure of its attempt; the result is that of the last attempt; the polls are the denials before the attempts made |
| RetryLoop.Recover | app/services/agent_execution_service.py:105-146 | the next request carries the session the strategy asks for, and the backoff of its number |
| RetryLoop.FreshStaysFresh | app/services/agent_execution_service.py:114-136 | once a request's session is fresh, all later attempts are fresh |
| RetryLoop.TotalBackoff | app/services/agent_execution_service.py:114-146 | total retry backoff is at most n times the cap and at most the doubled base minus the base |
| RetryLoop.TotalIsReached | app/services/agent_execution_service.py:114-146 | and is all of the latter if every recovery sleeps the doubled base |
| RetryLoop.BackoffIs | app/services/agent_execution_service.py:119-146 | the backoff of recovery k is base times two to the k, or the cap if that is less, or none for a fresh session; it is slept in full or not at all |
| RetryLoop.DoubledIsPower | app/services/agent_execution_service.py:114-118 | doubling n times is multiplying by two to the n |
| TodoScanner.MatchesComplete | app/auto_workflow/orchestrator.py:284-292 | scanning without overlap misses no task id |
| TodoScanner.OrderedTaskIds | app/auto_workflow/orchestrator.py:284-292 | the ids found are the matches without repetition |
| TodoScanner.DedupeKeepsFirst | app/auto_workflow/orchestrator.py:284-292 | each id once, all of them, in the order of first occurrence |
| TodoScanner.TaskIdsOccur | app/auto_workflow/orchestrator.py:284-292 | the ids of a text are exactly those that occur in it, between word boundaries |
| TodoScanner.TaskIdsInOrder | app/auto_workflow/orchestrator.py:284-292 | an earlier id of the list occurs in the text before any occurrence of a later one |
| TodoScanner.SectionIsSlice | app/auto_workflow/orchestrator.py:305-307 | a section is a slice of the text that starts at its own heading and ends where no word goes on |
| TodoScanner.SectionIs | app/auto_workflow/orchestrator.py:305-307 | a section starts at the first heading line of its id, its raw end is the first place behind the id where a task heading or a second-level heading begins, or the end of the text, and only blanks are cut off before that; it is empty if and only if no line is such a heading |
| TodoScanner.SectionMatches | app/auto_workflow/orchestrator.py:305-338 | a task id found in a section is found in the whole text |
| TodoScanner.FirstIsOwn | app/auto_workflow/orchestrator.py:333-338 | the first id a section mentions is its own |
| TodoScanner.DependenciesAreTasks | app/auto_workflow/orchestrator.py:333-338 | every dependency is a task of the whole text and never the task itself |
| TodoScanner.DependenciesAre | app/auto_workflow/orchestrator.py:305-338 | an id is a dependency if and only if it is another one and occurs between the task's heading and the next stop |
| TodoScanner.TaskFields | app/auto_workflow/orchestrator.py:110-130 | owner, title, acceptance criteria and write paths of a task, from what was read for it |
| TodoScanner.BuildWritesTo | app/auto_workflow/orchestrator.py:341-363 | a build may write to each of the six source directories that exist, and anywhere if none does |
| TodoScanner.WritePathsValid | app/auto_workflow/orchestrator.py:341-377 | generated write paths pass the path checks, whatever directories exist |
| TodoScanner.TaskManifestFromTodo | app/auto_workflow/orchestrator.py:110-150 | one task for each id that occurs in the text, or the fallback task; d is in its dependencies, in rising order, if and only if it is another id that occurs in the task's own section; the manifest is valid if and only if there are at most twenty ids |
| TaskCompiler.ValidateRelativePath | app/auto_workflow/orchestrator.py:366-377 | reports each way in which a path is unacceptable, and nothing for the others |
| TaskCompiler.ValidateTaskManifest | app/auto_workflow/orchestrator.py:153-183 | finds nothing if and only if the manifest is valid |
| TaskCompiler.CompileWorkflowInstance | app/auto_workflow/orchestrator.py:186-229 | the tasks' steps in task order, then the five final steps |
| TaskCompiler.ValidateWorkflowInstance | app/auto_workflow/orchestrator.py:232-256 | finds nothing if and only if the instance is valid |
| TaskCompiler.CompiledInstanceValidates | app/auto_workflow/orchestrator.py:186-256 | what is compiled from a valid manifest is a valid instance if and only if all id digits are ASCII |
| TaskCompiler.OtherDigitsHappen | app/auto_workflow/orchestrator.py:153-256 | a manifest with Arabic-Indic digits that validates, while its compiled instance does not |
| TaskCompiler.StepIdsDistinct | app/auto_workflow/orchestrator.py:186-229 | step ids are pairwise distinct |
| TaskCompiler.RepairFollowsVerify | app/auto_workflow/orchestrator.py:186-229 | every repair step directly follows the verification its on-fail field names |
| TaskCompiler.TaskOrder | app/auto_workflow/orchestrator.py:186-229 | the steps of every task are there whole and in task order |
| TaskCompiler.StepsByOwner | app/auto_workflow/orchestrator.py:186-221 | a task has a step of a kind if and only if its owner needs one |
| TaskCompiler.StagesRise | app/auto_workflow/orchestrator.py:186-221 | and no two of a kind: code, tests, verification and repair of a task come in this order |
| TaskCompiler.InstanceShape | app/auto_workflow/orchestrator.py:186-229 | the step count is the sum of the owners' weights plus five, and the last five are assembly, acceptance, evidence, diff review and gate, in this order |
| IncludeExpansion.ExpandWorkflowRefs | app/services/workflow_asset_service.py:766-806 | terminates on every graph, and a normal return leaves the shared set as it was |
| IncludeExpansion.ExpandsExactly | app/services/workflow_asset_service.py:766-806 | succeeds if and only if no include chain from the file repeats a file or meets an unresolvable one; diamonds are allowed |
| IncludeExpansion.ErrorsAreReal | app/services/workflow_asset_service.py:766-806 | each error is about a repeated file, an unknown id or a bad step that some include chain from the file leads to |
| IncludeExpansion.StructuredExpansion | app/services/workflow_asset_service.py:773-784 | a structured file expands to the expansions of what it includes, in order, and then its own steps, in order |
| IncludeExpansion.LinesExpansion | app/services/workflow_asset_service.py:786-806 | any other file expands line by line, each to its reference or to the expansion of what it includes |
| IncludeExpansion.ExpansionIsUnfolding | app/services/workflow_asset_service.py:766-806 | the result is the in-order leaves of the file's unfolding |
| IncludeExpansion.UnfoldingUnique | app/services/workflow_asset_service.py:766-806 | there is no other unfolding |
| ProcessRegistry.Registry.Register | app/agents/process_registry.py:51-71 | the key now names this process and its identity, and the rows on disk are the records |
| ProcessRegistry.Registry.Unregister | app/agents/process_registry.py:73-79 | removes the entry unless the caller's process is not the registered one, in which case nothing changes |
| ProcessRegistry.Registry.OrphanRecords | app/agents/process_registry.py:84-113 | forgets exactly the records whose number is unused or in use by a process with another start key or executable, and lists, once each, those of the others whose controller is gone or replaced |
| ProcessRegistry.Registry.ReapOrphans | app/agents/process_registry.py:115-124 | from pids, start keys and executables: the old records split into stale, reaped and kept; reaped are exactly those whose process is still the recorded one, whose controller is not, and whose kill succeeded, so that a number given to another process is never killed; kept are those with a live controller and those whose kill was refused |
| ProcessRegistry.NewestRegistrationStays | app/agents/process_registry.py:51-124 | over any calls in any order, a registered process stays registered when older handles are unregistered and orphans reaped |
| ProcessRegistry.LoadedFrom | app/agents/process_registry.py:126-134 | the loaded keys are exactly the non-empty keys of the rows |
| ProcessRegistry.LastRowIsLoaded | app/agents/process_registry.py:126-134 | and what is loaded under a key is the last row that has it |
| ProcessRegistry.PersistThenLoad | app/agents/process_registry.py:126-140 | loading the persisted rows gives the same records if and only if none is under the empty key |
| Histories.LogIsBoundedHistory | app/runtime_modules/run_state.py:444-453 | after any calls the log is the whole history, or the header and exactly its last 250000 characters, if and only if no carriage return stands in what is kept before the last line and a history over the limit is rotated by its last call |
| Histories.ReturnIsLost | app/runtime_modules/run_state.py:444-453 | a logged line that ends in a carriage return ends in a newline after the next call |
| Histories.EndSurvives | app/runtime_modules/run_state.py:444-453 | any end of the history without carriage returns is still the end of the log |
| Histories.RunFiles.Log | app/runtime_modules/run_state.py:444-453 | the file after the call is the bounded history one line longer |
| Histories.RunFiles.AppendFailureFeedback | app/runtime_modules/run_state.py:506-542 | the file after the call is the compacted history one failure longer |
| Histories.KeepsLastThree | app/runtime_modules/run_state.py:538-542 | the new file holds the last three entries if and only if no line about the failure starts another entry |
| Histories.FeedbackIsLastThree | app/runtime_modules/run_state.py:506-542 | after any number of failures the file holds the last three entries if and only if none of these is cut |
| Histories.NewestIsRead | app/runtime_modules/files.py:190-200 | the retried step reads the entry that was just written for it, whole and alone, if and only if no line about the failure starts another |
| Histories.LatestIs | app/runtime_modules/files.py:190-200 | from the lines: what is read for a step starts at the last line that names it, with nothing but blanks behind the name, and ends before the next header of whatever step |
| Histories.NothingIsRead | app/runtime_modules/files.py:190-200 | nothing is read exactly when no line names the step, so an entry for another step is never read |
| Histories.TidyIs | app/runtime_modules/run_state.py:541 | tidied, a text ends with its last line that is not blank |
| Histories.BlocksCover | app/runtime_modules/run_state.py:539 | the entries of a text are all of its lines from the first header on |
| Histories.QuotedHeaderCuts | app/runtime_modules/run_state.py:506-542 | an entry whose text quotes a header with a line behind it is cut, and not read whole |
| Retention.Budget | app/services/maintenance_service.py:82 | the number kept per project is the one asked for between 1 and 500, 20 for zero, 1 for less and 500 for more |
| Retention.CleanupRuns | app/services/maintenance_service.py:65-138 | the candidates are those the rule selects; they are dropped from the store unless it is a dry run |
| Retention.GroupRuns | app/services/maintenance_service.py:92-94 | every project that occurs is listed with exactly its own runs, in their old order |
| Retention.SweepProject | app/services/maintenance_service.py:99-111 | the counting loop removes what the rule removes from one project |
| Retention.RemovedAreOld | app/services/maintenance_service.py:99-111 | only runs that are not in one of the four active statuses go, and none that ended after the cutoff |
| Retention.SweepRule | app/services/maintenance_service.py:99-111 | from the runs' fields: a run goes if and only if it is not queued, running, waiting for input or cancelling, did not end after the cutoff, and at least a budget of such inactive runs of its project have a later key or the same key and an earlier place |
| Retention.RemovedAreOutlived | app/services/maintenance_service.py:71-76 | each removed run is behind a full budget of distinct kept inactive runs of its project, none of them older |
| Retention.EveryProjectKeeps | app/services/maintenance_service.py:71-76 | each project keeps its budget of inactive runs, or all it had |
| Retention.SecondPassRemovesNothing | app/services/maintenance_service.py:65-138 | a second cleanup with the same cutoff removes nothing |
| Retention.SortWithout | app/services/maintenance_service.py:97 | the sort is stable: removing runs before or after it is the same |
| Retention.SortOrder | app/services/maintenance_service.py:97 | a run is ahead of another in the sorted list if and only if its key is later, or equal and it was ahead before |
| Retention.WithoutOrder | app/services/maintenance_service.py:130-133 | what is left of the store stays in its order |
| Retention.ActiveRunsStay | app/services/maintenance_service.py:71-138 | all active runs of the store survive if and only if each one that was read was then active, recent or within the budget |
| Retention.WokenRunIsRemoved | app/services/maintenance_service.py:130-138 | any run that the sweep does not spare is removed if it is resumed in between, whatever else the store holds |
| Retention.SomebodyIsNotSpared | app/services/maintenance_service.py:99-111 | every project with more inactive runs than the budget has such a run |

## Left out

- Files: symbolic links, permissions, modification times and the pruning of empty directories; directories that a failed delivery creates stay behind, as in the code.
- Files: the digest is taken as injective, the sets of ignored names as fixed during a delivery, the backup directory as disjoint from the project, and a comparison or a digest as never failing to read.
- IsolatedWorkspace.RollbackAtomicApply: its own steps raise only for the reasons the tree gives (a directory or a file in the way), since the code has no second line of defence when a backup cannot be copied back.
- IsolatedWorkspace.ApplyIsolatedChangesAtomic: where a file outside the selection lies above a written path, or a step raises while one selected path lies below another, all-or-nothing is told by the attempted paths alone; process crashes are not covered, because only raised exceptions are caught; the selected paths are taken in an arbitrary order with ancestors first, of which the code's sorting is one.
- IsolatedWorkspace: creating the isolated copy, its size and disk limits, and the workspace policy file.
- SnapshotRestore.RestoreSelectedProjectPaths: the list of restored texts that it returns, and drive letters in a listed text.
- SnapshotRestore.SelectedRestoreComesBack: is about keys that lose nothing but their backslashes when they are read; for names with blanks or backticks at a key's ends, BackExactly has the general condition.
- SnapshotRestore.RestoreChangedPaths: is about the same keys with slashes, and about every changed path, where the code restores those of them that the workflow phase may not write.
- SnapshotRestore.SelectedRestoreSuffices: takes it that a file's size or time changes whenever its content does, as the code does.
- ProjectionStore: SQLite itself, the copied header columns, and the text form of JSON; an event is known by its canonical JSON and its key hash is injective.
- StoreRuns.MutateKeepsAgreement: says nothing of mutators that hand back two runs of one id.
- StoreRuns.EveryMutation: is about mutators that never hand back two runs of one id where there were none, and do not set the version themselves.
- ProjectionStore: saving, loading, compacting and backing up outside mutate, and the queries on the tables.
- Migrations: the backup before a migration, timestamps and durations, and a failing rollback statement; migration names are constructors of an enumeration.
- Migrations.EveryAttempt: starts from an empty database, not from one with state but no migration log.
- LockedStore.Linearizable: the lock is never reclaimed and waiting never times out; with reclaiming, a holder older than the stale limit can lose its lock and mutual exclusion is not promised.
- LockedStore.EverybodyIsServed: tells that a visit can be brought to its end, not that it will be; a process that dies inside keeps the lock, since reclaiming is left out.
- LockedStore: a stored text that is no JSON, which the code moves aside before it starts anew.
- LockedStore: modelled as steps of interleaved processes rather than as one process's loop, because the claim is about the interleaving.
- CircuitBreaker: cancellation of a client, which records nothing; provider slots; the rounding of reported waiting times.
- RetryLoop: prompts, the recovery client's construction, and the details of the connectivity probe, which is an oracle; waits for an open circuit or for connectivity are not part of the backoff.
- TodoScanner: the capturing expressions for title, owner and acceptance criteria, of which only the captured text matters.
- TaskCompiler: step fields that are copied or constant texts, and the rendering of findings.
- IncludeExpansion: the line syntax and the structured format of workflow files, which are given as an include graph.
- ProcessRegistry: spawning, signals and the reading of process identities, which are oracles that stay fixed during a call, as is which kills succeed; injected predicates, which skip the identity check; command fingerprints and redaction.
- Histories: carriage returns in feedback texts and file encodings; the composition of an entry's recovery notes.
- Retention: workspace directories and the counts in the report; sort keys are integers in the order of the creation stamps.
- Retry, resume, approval and checkpoint actions of workflows, the run and step stores, and the runtime invariant monitor: they rest on transition tables that are not part of this model.
- Web routes, setup, health checks, benchmarks and user interface tests: plumbing and reporting.
