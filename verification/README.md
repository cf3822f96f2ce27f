# Verification of the local Chroma runtime

A Dafny model of the parts of the local Chroma runtime that decide what happens to stored data, to files and
to native handles, with proofs of what they promise. `dafny verify dfyconfig.toml` checks all of it.

- **Pruning the write-ahead log** (`WalSelection`, `WalLog`, `WalPrune`, `WalReports`, `WalSafety`): how many of the oldest
  rows the retention policies agree to remove, one prune over many collections in two failure modes, and the
  log as a transition system in which no row that a segment still needs is ever lost.
- **Rebuilding an HNSW index** (`HnswIdMaps`, `HnswRebuild`, `DirectorySwap`): validation of the id and label
  maps, the dense relabelling, and the exchange of index directories with rollback and clean-up, for every
  pattern of failures and a crash after any step.
- **Handles and locks** (`HandleProtocol`, `HandleOutcomes`, `ServerLifecycle`): the Go operations as programs
  of lock, handle and native-call instructions that any number of threads interleave, and what they achieve; and
  the same operations one after the
  other, with every combination of failures, beside their Java counterpart.
- **Metadata** (`MetadataNormalizer`, `MetadataMeaning`): the one-pass normaliser against a two-pass
  specification, and that against what values represent.
- **Backup** (`PathContainment`, `PathOrder`, `BackupCopy`): path containment, the order of a directory walk, and the copy of a source tree in a file
  system whose calls may fail.
- **Maintenance over all collections** (`TargetPaging`, `Compaction`): the paged listing of targets and the
  compaction run.

`Outcomes` and `MachineInts` hold optional values, results and the fixed-width integers.

What the code does not decide itself comes in as an input: the answers of queries, purges, native calls,
file system calls and page requests (faults), clocks, the iteration order of hash maps (any order), and the
conversion of integers to floats.

What the proofs showed to be different from what one may expect, and how the model states it:

- Adding a retention policy to an empty policy set can enlarge the selection, since an empty set selects
  nothing. Adding to a nonempty set cannot.
- A second selection finds nothing under every valid policy set exactly when the byte total of the rows does
  not saturate.
- A dry run predicts the mutating run exactly for distinct collections: one that is listed twice is counted
  twice by the dry run and once by the mutating run.
- A prune is safe for the segments that exist; for another one of the collection it is safe exactly when that
  one has applied everything below the safe cutoff, which a segment that starts from nothing has not.
- The rebuild reports an error although the new index is in place exactly when the swap succeeds and the
  segment manager cannot be reset after it.
- A restarted server keeps the TLS flag of its first start.
- The Java executor leaves a running server without an owner exactly when the operation failed and the
  restart succeeded, and does not restart the server when the embedded runtime does not start; the Go
  drivers do.
- The paging loops repeat entries from 4294967300 entries on, and do not end from 4294967395 on.

## Model

| member | source | states |
|---|---|---|
| WalSelection.PrefixForMaxAge | shim/src/lib.rs:1706-1722 | the age loop stops at the first row that is not older than the saturating cutoff |
| WalSelection.PrefixForMaxBytes | shim/src/lib.rs:1724-1740 | the byte loop returns the shortest nonempty drained prefix, and 0 while the total is within the limit |
| WalSelection.PrefixForWatermark | shim/src/lib.rs:1742-1762 | the same with separate trigger (high) and target (low) |
| WalSelection.SelectPrefix | shim/src/lib.rs:1764-1790 | the policies are combined with AND: the shortest of the configured prefixes, 0 without a policy |
| WalSelection.TotalIsClampedSum | shim/src/lib.rs:1695-1704 | the saturating fold is the true sum cut at the largest u64 |
| WalSelection.DrainPrefixIsLeast | shim/src/lib.rs:1724-1762 | without saturation: 0 up to the trigger, beyond it the least prefix whose removal brings the remaining bytes within the bound |
| WalSelection.SaturationNeverPrunesMore | shim/src/lib.rs:1695-1762 | whatever saturates, no longer prefix is chosen than in exact arithmetic |
| WalSelection.AgePrefixBoundary | shim/src/lib.rs:1706-1722 | every row in the age prefix is strictly older than the cutoff and the row after it is not |
| WalSelection.AgePrefixIsFullFilter | shim/src/lib.rs:1706-1722 | with nondecreasing creation times the prefix is all of the old rows and nothing else |
| WalSelection.PrunedRowsAreOlderThanRequested | internal/runtime/wal_prune.go:153-170 | composed with the Go round-up to seconds: a row pruned by age is strictly older than the requested duration |
| WalSelection.MaxAgeRoundsUp | internal/runtime/wal_prune.go:153-170 | the Go round-up adds less than a second and refuses exactly durations that are not positive |
| WalSelection.CutoffDecidesAge | shim/src/lib.rs:1706-1722 | the saturating cutoff decides exactly whether a row is older than the limit, taken as an i64 |
| WalSelection.SelectionIsTheRightPrefix | shim/src/lib.rs:1764-1790 | without saturation the selection is the one prefix all of whose rows every policy lets go, by age and by the bytes from the row on, and whose next row some policy keeps |
| WalSelection.SelectionIsFixpoint | shim/src/lib.rs:1764-1790 | with valid policies and no saturation, selecting again on the remaining rows selects nothing |
| WalSelection.FixpointExactlyWithoutSaturation | shim/src/lib.rs:1695-1790 | a second selection is empty for every valid policy set and clock if and only if the true byte total of the rows fits a u64 |
| WalSelection.SaturationBreaksFixpoint | shim/src/lib.rs:1695-1740 | an input where it is not: three rows of the largest size a query can return and a limit of one byte |
| WalSelection.AddingPoliciesShrinksExactlyWhenOneIsSet | shim/src/lib.rs:1764-1790 | adding policies never enlarges the selection if and only if a policy was set before; an empty policy set selects nothing and can be exceeded |
| WalLog.SafeCutoffIsMinimum | shim/src/lib.rs:1615-1639 | a safe cutoff exists exactly when the collection has segments and all applied something; it is their minimum |
| WalLog.CandidateMembers | shim/src/lib.rs:1641-1693 | candidates are exactly the rows of the collection strictly below a positive cutoff, in order |
| WalLog.PurgedMembers | shim/src/lib.rs:1954-1973 | a purge keeps exactly the rows of other collections and those from the bound on |
| WalLog.PurgedCandidates | shim/src/lib.rs:1641-1693 | after a purge the candidates are the earlier candidates from the bound on |
| WalLog.PurgedCandidatesOfOthers | shim/src/lib.rs:1954-1973 | a purge leaves the candidates of every other collection as they were |
| WalPrune.WalDatabase.SelectRows | shim/src/lib.rs:1861-1953 | first half of the loop body: cutoff, candidates, sign check, selection, with the error of each failing step |
| WalPrune.WalDatabase.PurgeSelected | shim/src/lib.rs:1954-2046 | second half: purge bound one past the last selected id, totals and report; the bound cannot overflow and no late conversion can fail |
| WalPrune.WalDatabase.RunExplicitWalPrune | shim/src/lib.rs:1801-2046 | the loop over all targets equals the run specification, in both failure modes, and its totals are the saturating sums of the results |
| WalPrune.PruneRemovesExactlyTheSelection | shim/src/lib.rs:1895-1973 | one target: exactly the selected rows of that collection go, all below the safe cutoff, and their number is reported; nothing changes on an error or a dry run |
| WalPrune.PruneIsIdempotent | shim/src/lib.rs:1861-1973 | pruning the same target again at the same clock removes nothing, as long as totals do not saturate |
| WalPrune.ContinueOnErrorReportsEveryTarget | shim/src/lib.rs:1861-2046 | this mode never fails and gives one result per target, in order, each on the queue the earlier ones left |
| WalPrune.FailFastStopsAtFirstFailure | shim/src/lib.rs:1861-2046 | this mode fails exactly when a target does, with the first error, and earlier prunes stand; otherwise it equals the other mode |
| WalPrune.RunCountsEveryRemovedRow | shim/src/lib.rs:1975-2046 | conservation: the pruned total of a run is the number of rows the queue lost, purge failures included |
| WalReports.PrunedExactlyWhenAllMayGo | shim/src/lib.rs:1895-1973 | said of the log, as long as totals do not saturate: a row below the safe cutoff goes exactly when a policy is set and it and every earlier row of its collection are older than the limit and have more bytes from them on than every bound |
| WalReports.RunRemovesOnlyOldRows | shim/src/lib.rs:1861-2046 | over a whole run, saturating or not: every removed row is older than the age limit |
| WalReports.ResultTellsThePrune | shim/src/lib.rs:1871-2046 | every figure of a result: its error, the cutoff, number, bytes and range of the candidates and of the selection, and what stands after a failed purge |
| WalReports.TotalsAreClampedSums | shim/src/lib.rs:2019-2022 | every total is the true sum of its figure over the results, cut at the largest u64 |
| WalReports.PurgeTakesBytes | shim/src/lib.rs:1954-1973 | a purge takes from the log exactly the bytes of the collection below its bound |
| WalReports.RunCountsEveryRemovedByte | shim/src/lib.rs:1975-2046 | conservation: the pruned bytes of a run are the bytes the log lost |
| WalPrune.DryRunPredictsMutatingRun | shim/src/lib.rs:1954-2046 | for distinct collections a dry run changes no row and reports what the mutating run at the same clock reports when its purges succeed |
| WalPrune.DryRunPredictsExactlyDistinctTargets | shim/src/lib.rs:1954-2046 | the dry run predicts the mutating run for every log, segments, valid policies, mode and clock if and only if the targets are distinct collections |
| WalPrune.RepeatedTargetIsCountedAgain | shim/src/lib.rs:1954-2046 | wherever a collection comes again among the targets, a log of one row tells the two runs apart |
| WalPrune.DryRunOvercountsRepeatedTarget | shim/src/lib.rs:1954-2046 | a collection listed twice: the dry run reports two rows pruned, the mutating run one |
| WalSafety.PruneTargetKeepsUnapplied | shim/src/lib.rs:1615-1693 | pruning a target keeps every row that some segment has not applied |
| WalSafety.PruneKeepsUnapplied | shim/src/lib.rs:1861-1973 | so does a whole prune run, in either mode and with any failures |
| WalSafety.AppendPreserves | shim/src/lib.rs:1641-1693 | appending a row with a larger sequence id keeps the safety invariant |
| WalSafety.AdvancePreserves | shim/src/lib.rs:1615-1639 | a segment applying rows keeps the safety invariant |
| WalSafety.PrunePreserves | shim/src/lib.rs:1861-1973 | a prune run keeps the safety invariant |
| WalSafety.RunsKeepInv | shim/src/lib.rs:1615-1693 | every run of appends, advances and prunes keeps it |
| WalSafety.PruningNeverLosesNeededRows | shim/src/lib.rs:1615-1693 | over every run from an empty log: unapplied rows are still in the log, and replaying the surviving rows gives each segment the state of the full history |
| WalSafety.CaughtUpKeepsUnapplied | shim/src/lib.rs:1615-1693 | a prune keeps what any segment needs, listed or not, that is of another collection or has applied everything below the safe cutoff |
| WalSafety.SafeForLaterExactlyWhenCaughtUp | shim/src/lib.rs:1615-1639 | for a segment outside the list a prune is safe, whatever the log and the policies, if and only if it is of another collection, there is no safe cutoff, or it has applied everything below it |
| WalSafety.LateSegmentMissesRows | shim/src/lib.rs:1615-1639 | an input where it is not: a segment that starts from nothing after a prune misses a row that is gone |
| HnswIdMaps.HnswIdMap.Validate | shim/src/lib.rs:702-758 | succeeds exactly when the maps are mutual inverses, sequence ids belong to known ids and the maximum bounds them; each failure is true of the maps and the reverse loop never fails; in whatever order the maps are walked |
| HnswIdMaps.HnswIdMap.InsertRecord | shim/src/lib.rs:760-781 | adds one record under a new id and a new label, or changes nothing and says which was taken |
| HnswIdMaps.ReverseLoopNeverFails | shim/src/lib.rs:702-758 | after the length check and the forward loop the reverse loop cannot be the first to fail |
| HnswIdMaps.MutualInversesHaveEqualSize | shim/src/lib.rs:702-710 | the length check rejects no valid map |
| HnswRebuild.CapacityExceedsRecords | shim/src/lib.rs:1032-1036 | the required capacity exceeds the record count for every resize factor |
| HnswRebuild.CapacityIsLeast | shim/src/lib.rs:1032-1036 | it is the least capacity that holds one record to spare, the scaled count and the minimum of 100 |
| HnswRebuild.PrepareIndex | shim/src/lib.rs:1262-1285 | the empty target index keeps the capacity it was given if that suffices and otherwise has the least sufficient power of two; each error for its cause |
| HnswRebuild.NextPowerOfTwoIsLeast | shim/src/lib.rs:1280-1285 | the doubling search finds the least power of two that is large enough |
| HnswRebuild.SortIsStrict | shim/src/lib.rs:1241 | sorting by label keeps the records and orders them strictly |
| HnswRebuild.ListRecords | shim/src/lib.rs:1230-1240 | the records of the old map, each once, in any iteration order |
| HnswRebuild.RankKeepsOrder | shim/src/lib.rs:1241-1329 | new labels are in the order of the old ones |
| HnswRebuild.RanksAreDense | shim/src/lib.rs:1318-1329 | the new labels are exactly 1..n |
| HnswRebuild.RelabellingIsIdempotent | shim/src/lib.rs:1230-1330 | relabelling a rebuilt map moves no label |
| HnswRebuild.CopyRecords | shim/src/lib.rs:1296-1330 | the copy loop: records 1..n in map and index and the insertion never fails; the error is that of the first record that cannot be copied, and there is none otherwise |
| HnswRebuild.RebuildRecords | shim/src/lib.rs:1230-1330 | for any listing of the records: ids, sequence ids and embeddings kept under the ranks of the old labels in a valid map of the given dimension, or the first failure in the order of the old labels |
| HnswRebuild.RebuildIsDetermined | shim/src/lib.rs:1230-1330 | two rebuilds of one source agree on both label maps, sequence ids, counters and vectors, whatever order the records were listed in |
| HnswRebuild.SortedListIsUnique | shim/src/lib.rs:1230-1241 | the records of a map have one list sorted by label |
| HnswRebuild.FirstFailureIsUnique | shim/src/lib.rs:1296-1330 | so the error of a failed rebuild does not depend on the listing either |
| HnswRebuild.FailureIsReal | shim/src/lib.rs:1296-1330 | what the reported error says of the source: every smaller old label has a readable embedding, the reported one has none |
| HnswRebuild.RebuildCollection | shim/src/lib.rs:1117-1330 | the whole rebuild with its early exits, each for exactly its cause: skipped, unknown dimension, precheck, set-up errors, first copy failure, or the rebuilt index with the same meaning and the dimension of the source or else of the collection, never full; without faults success exactly when every embedding is there and a label is left |
| HnswRebuild.RebuiltLabels | shim/src/lib.rs:1230-1330 | labels exactly 1..n, relative order kept, a second rebuild changes no label |
| DirectorySwap.FileSystem.Rename | shim/src/lib.rs:962-963 | the assumed rename: atomic, refuses a missing origin or a taken name, or fails |
| DirectorySwap.FileSystem.RemoveDirAll | shim/src/lib.rs:962-965 | the assumed removal: may stop anywhere and leave part of the directory |
| DirectorySwap.NamesAreDistinct | shim/src/lib.rs:904-913 | source, moved and temporary directory never share a name, whatever the suffixes |
| DirectorySwap.SwapRebuiltIndexDir | shim/src/lib.rs:1038-1089 | the new state for each outcome and the cause of each: Ok has the rebuilt index at the source, an error without rollback failure restores everything; a complete index exists after every step |
| DirectorySwap.TempRebuildDirGuard.RemoveNow | shim/src/lib.rs:929-946 | disarms exactly when the directory is gone, which it is unless the removal fails, and touches nothing else |
| DirectorySwap.TempRebuildDirGuard.Drop | shim/src/lib.rs:950-959 | a disarmed guard does nothing, an armed one removes its directory unless that fails, and nothing else |
| DirectorySwap.RemovalIsHarmless | shim/src/lib.rs:929-960 | removing a third directory endangers no index, at any point of the removal |
| DirectorySwap.FinishRebuild | shim/src/lib.rs:1332-1370 | from the saved index to the return: a complete index exists in every state; success, the failed reset before and the failed reset after the swap each exactly for their causes; what each result says about the directories, the kept backup, a leftover and the cause of a failed swap, and no temporary directory left behind unless its removal fails |
| HandleProtocol.OperationsAreDisciplined | internal/runtime/chroma.go:235-396 | every public operation takes locks in the order backupMu, stateMu, ffiMu, never a held one, gives all back, calls native code only under ffiMu and stores a handle only into an object it emptied |
| HandleProtocol.BackupIsDisciplined | internal/runtime/backup.go:222-352 | the same for the two backups with their restart |
| HandleProtocol.MaintenanceIsDisciplined | internal/runtime/wal_prune.go:379-428 | the same for the driver that WAL prune, compaction and rebuild share |
| HandleProtocol.RestartIsDisciplined | internal/runtime/backup.go:318-352 | a restart keeps the discipline: its store goes into an object that the operation emptied under its backup mutex |
| HandleProtocol.CloseIsDisciplined | internal/runtime/chroma.go:365-396 | close swaps the handle out under stateMu and ffiMu and frees it there |
| HandleProtocol.NextKeepsInv | internal/runtime/chroma.go:235-396 | one instruction of one thread keeps ownership, mutual exclusion and the lock discipline |
| HandleProtocol.BeginKeepsInv | internal/runtime/chroma.go:235-396 | so does calling an operation |
| HandleProtocol.RunsKeepInv | internal/runtime/chroma.go:235-396 | so does every interleaving of any number of threads |
| HandleProtocol.HandlesAreNeverMisused | internal/runtime/backup.go:318-335 | in every state of every run each live handle has exactly one owner, no freed handle is called or freed, and no store overwrites a handle |
| HandleProtocol.FreedStaysFreed | internal/runtime/chroma.go:365-396 | a freed handle is never live again, so each is freed at most once |
| HandleProtocol.RunnableSteps | internal/runtime/chroma.go:166-185 | a thread that nobody holds up has a next step |
| HandleProtocol.WaitingClimbs | internal/runtime/wal_prune.go:380-408 | whoever holds a thread up runs, or waits strictly higher in the lock order, waiting writers included |
| HandleProtocol.NoWaitCycle | internal/runtime/wal_prune.go:380-408 | no chain of waiting threads closes |
| HandleProtocol.NeverDeadlocked | internal/runtime/backup.go:231-256 | in every state of every run with an operation under way some thread can step, and no threads wait in a circle |
| HandleProtocol.StepsUseUpWork | internal/runtime/chroma.go:235-396 | every step uses up some of the work under way |
| HandleProtocol.EveryRunCanFinish | internal/runtime/chroma.go:235-396 | from every reachable state all operations under way can be brought to their end |
| HandleOutcomes.RestartLeavesNothing | internal/runtime/backup.go:318-352 | on every way through a restart the object it was started in ends empty and nothing is in hand |
| HandleOutcomes.OperationsLeaveNothing | internal/runtime/chroma.go:235-396 | on every way through every operation no handle is dropped, overwritten or left in hand, and of the objects nobody else touches none is filled but by a start |
| HandleOutcomes.BackupLeavesNothing | internal/runtime/backup.go:222-352 | the same for both backups, from a running or a stopped object |
| HandleOutcomes.MaintenanceLeavesNothing | internal/runtime/wal_prune.go:379-428 | the same for the maintenance driver and its temporary embedded runtime |
| HandleOutcomes.StepKeepsPromise | internal/runtime/chroma.go:235-396 | the steps of the thread itself keep to that |
| HandleOutcomes.OthersKeepAway | internal/runtime/chroma.go:235-396 | the steps of other threads do not touch objects they do not know |
| HandleOutcomes.NothingIsLeftBehind | internal/runtime/backup.go:318-335 | in every run, whatever others do: when an operation is over its thread holds nothing and has filled no object of its own that was empty |
| HandleOutcomes.TemporaryObjectsEndEmpty | internal/runtime/backup.go:318-352 | in every run, the objects that a backup or a maintenance operation creates along the way hold no handle when it is over |
| HandleOutcomes.OperationsAreGuarded | internal/runtime/chroma.go:235-396 | every operation changes the field of an object it did not create only under the state mutex of the object, and looks whether it is started only under it |
| HandleOutcomes.FieldsChangeUnderTheirLock | internal/runtime/chroma.go:365-396 | in every run a field changes only by a thread that alone holds the state mutex of its object, or whose operation created it |
| HandleOutcomes.SmoothClose | internal/runtime/chroma.go:365-396 | closing stops a server, frees its handle and empties its field |
| HandleOutcomes.SmoothStart | internal/runtime/chroma.go:235-293 | a start puts a new handle, once asked about, into a new object |
| HandleOutcomes.SmoothRestart | internal/runtime/backup.go:318-352 | a restart puts the new handle into the old object and leaves nothing in the new one |
| HandleOutcomes.OperationsDoWhatTheyAreFor | internal/runtime/chroma.go:235-396 | when nothing fails every operation leaves exactly the fields and makes exactly the native calls it is for, in order |
| HandleOutcomes.SmoothRunComputes | internal/runtime/chroma.go:166-185 | an uninterrupted run of the thread in which nothing fails does just that to the fields and the freed handles |
| HandleOutcomes.UninterruptedOperation | internal/runtime/backup.go:222-335 | such a run of a backup or a maintenance operation frees the old handle and ends with a new live one in the same object |
| ServerLifecycle.Server.Close | internal/runtime/chroma.go:365-396 | gives the handle up whatever stopping answers |
| ServerLifecycle.Server.RestartFromConfig | internal/runtime/backup.go:318-335 | a successful restart sets handle, port, address, path and configuration; the TLS flag stays that of the first start |
| ServerLifecycle.Server.RunMaintenance | internal/runtime/rebuild.go:184-232 | the driver: a result exactly when the operation succeeded, no error exactly when everything did, an error with the messages of exactly the steps that failed, and the lifecycle events of every case; the handle is held exactly when the last event was a start, and starts and stops alternate |
| ServerLifecycle.Server.Backup | internal/runtime/backup.go:222-265 | the same for a backup: a manifest exactly when the copy succeeded, no error exactly when the restart did too, and otherwise the messages of exactly the steps that failed |
| ServerLifecycle.ReportTellsEveryFailure | internal/runtime/rebuild.go:200-232 | the error matrix loses no failure and invents none |
| ServerLifecycle.JavaExecute | java/core/src/main/java/tech/amikos/chroma/local/core/MaintenanceExecutor.java:10-104 | the Java executor: its outcome and the session it restarted, in every case |
| ServerLifecycle.JavaAgreesOnceEmbeddedStarted | java/core/src/main/java/tech/amikos/chroma/local/core/MaintenanceExecutor.java:40-102 | once the embedded runtime started, Java reports the result and failure of the Go driver; a running session is orphaned exactly when the operation failed and the restart succeeded |
| ServerLifecycle.JavaRestartsAsGoExactlyWhenEmbeddedStarted | java/core/src/main/java/tech/amikos/chroma/local/core/MaintenanceExecutor.java:30-68 | Java and Go leave the server in the same state, running or not, if and only if the embedded runtime started or the server would not restart |
| MetadataNormalizer.AddScalar | internal/runtime/embedded.go:1490-1570 | the switch of the one-pass loop keeps the buffers equal to the second pass over what was seen, late promotion of integers included |
| MetadataNormalizer.NormalizeValue | internal/runtime/embedded.go:1424-1467 | the recursive normalisation equals the specification |
| MetadataNormalizer.NormalizeSlice | internal/runtime/embedded.go:1469-1587 | the one-pass array normaliser equals classify-all-then-convert, value or error |
| MetadataNormalizer.NormalizeMetadata | internal/runtime/embedded.go:1364-1395 | a map is accepted exactly when all its values are, and each becomes its specification |
| MetadataNormalizer.ClassifyAppend | internal/runtime/embedded.go:1490-1570 | one more element changes the kind of an array as the loop computes it |
| MetadataNormalizer.AcceptedArrays | internal/runtime/embedded.go:1469-1587 | accepted are exactly all-bool, all-string and all-numeric arrays; floats exactly with a float among numbers |
| MetadataNormalizer.SliceFailsAt | internal/runtime/embedded.go:1469-1587 | the error of an array is about the first element after which it is none |
| MetadataNormalizer.PermutedSliceIsAccepted | internal/runtime/embedded.go:1469-1587 | a permutation is accepted with the same kind |
| MetadataNormalizer.NormalisingTwiceIsNormalisingOnce | internal/runtime/embedded.go:1424-1587 | normalising a normalised value changes nothing |
| MetadataMeaning.ScalarsAreKept | internal/runtime/embedded.go:1424-1460 | a value normalises to a scalar exactly when it is that scalar behind its pointers, signed or unsigned |
| MetadataMeaning.NormalisesExactlyToWhatRepresentsIt | internal/runtime/embedded.go:1424-1587 | a value normalises to a result exactly when the result represents it item by item; no number changes but by the conversion of integers among floats |
| MetadataMeaning.ErrorsNameTheCulprit | internal/runtime/embedded.go:1424-1587 | the position in an error leads to a part of the value that is guilty of just that error |
| PathContainment.IsWithinPathIsPrefix | internal/runtime/backup.go:687-697 | the string test holds exactly when the parent's segments begin the path, names starting with two dots included |
| PathContainment.ResolvesLongestAncestor | internal/runtime/backup.go:666-685 | resolution takes the longest ancestor that is not missing and appends the missing segments, or fails as it does |
| PathContainment.ContainmentOfResolvedPaths | internal/runtime/backup.go:653-697 | without dangling links, containment of a path that may not exist is decided by its longest existing ancestor |
| PathOrder.PathsAreOrdered | internal/runtime/backup.go:523 | the order of the directory walk is total and strict |
| PathOrder.DirectoriesComeFirst | internal/runtime/backup.go:523 | a directory comes before everything it holds |
| PathOrder.FirstCharacterDecides | internal/runtime/backup.go:523 | names are ordered by the first character that differs |
| PathOrder.SiblingsDecide | internal/runtime/backup.go:523 | two paths that part in a directory are ordered by their names there |
| PathOrder.WalkOrderIsUnique | internal/runtime/backup.go:523-576 | a set of files has one listing in this order, so the file list of a backup is determined by the tree |
| BackupCopy.FileSystem.MkdirAll | internal/runtime/backup.go:515-518 | creates the missing directories down to a path and nothing else, also when it fails |
| BackupCopy.FileSystem.CreateFile | internal/runtime/backup.go:582-622 | creates a file only where nothing is; a failed write leaves the beginning of it |
| BackupCopy.CopyEntry | internal/runtime/backup.go:523-576 | one entry of the walk: directory, file, or symbolic link, which is refused |
| BackupCopy.CopyDirectory | internal/runtime/backup.go:515-580 | everything below the source is copied byte for byte, count, size and file list are the tree's own, the list in the order of the walk; a link makes it fail, and the first one in walk order is named; nothing outside the destination changes at any time; without faults it succeeds exactly when it can |
| BackupCopy.LeastKeepsOrder | internal/runtime/backup.go:523-576 | going on with the least entry that can be visited visits everything in the order of the walk |
| BackupCopy.TotalSizeOfOneMore | internal/runtime/backup.go:561-562 | the total does not depend on the order of the walk |
| BackupCopy.ElsewhereIsUntouched | internal/runtime/backup.go:515-580 | adding below one place leaves any tree beside it as it was |
| BackupCopy.CopyIsExact | internal/runtime/backup.go:515-580 | into an empty place the copy is the source tree itself, moved |
| BackupCopy.RelocatingBackRestores | internal/runtime/backup.go:515-580 | moved back, a moved tree is the same tree: nothing is lost |
| BackupCopy.EnsureEmptyDir | internal/runtime/backup.go:494-513 | succeeds only with an empty directory in place, and changes nothing else |
| BackupCopy.WriteSnapshot | internal/runtime/backup.go:445-458 | the snapshot is the source tree, or an empty directory when there is no source |
| BackupCopy.ExecuteBackup | internal/runtime/backup.go:445-480 | the copy and the manifest into an empty destination: what is there afterwards, and success without faults exactly when no link is in the way |
| BackupCopy.Backup | internal/runtime/backup.go:393-404 | the checks on the destination, the copy and the manifest: succeeds without faults exactly when possible, each refusal for its cause, leaves the source tree intact in every state, and what is at the destination afterwards |
| TargetPaging.ListPages | shim/src/lib.rs:2115-2135 | the loop gathers the whole listing, also at exact multiples of the page size, and stops at the first request that fails or the first entry that is refused; from 4294967300 entries on the saturated offset repeats entries |
| TargetPaging.PagingEndsExactlyWhen | shim/src/lib.rs:2115-2135 | a page that ends the loop exists exactly when the listing does not go a full page past the largest offset |
| TargetPaging.ListTargets | shim/src/lib.rs:2106-2175 | all collections of the given database or of all databases, in listing order; fails exactly on a failing request or a refused name, with the first trouble met |
| TargetPaging.FlattenInOrder | shim/src/lib.rs:2137-2175 | the collections of a database stand together, in its own order, after those of the databases before it |
| TargetPaging.EveryCollectionOnce | shim/src/lib.rs:2137-2175 | with disjoint databases every collection is a target exactly once |
| Compaction.LocalRuntime.RunExplicitCompaction | shim/src/lib.rs:1396-1532 | one result per target in order with saturating totals, or the first error in FailFast mode with nothing asked of later targets; the requests sent, in order |
| Compaction.PurgeFollowsBackfill | shim/src/lib.rs:1448-1478 | a log is purged only right after a successful backfill of the same collection |
| Compaction.PendingAfterCountsTheCompacted | shim/src/lib.rs:1489-1530 | failed collections and unknown statuses add nothing to the total pending afterwards |
| Compaction.PendingBeforeCountsTheKnown | shim/src/lib.rs:1431-1446 | every known status before counts, compacted or not |
| Compaction.ReportsHideNothing | shim/src/lib.rs:1480-1530 | a result gives each status or its error, the one afterwards only after a success, and the error of the step that failed |
| Compaction.EveryTargetHasItsRequests | shim/src/lib.rs:1421-1515 | status, backfill, purge and status again for every target in turn, cut short by the step that fails |

## Left out

- SQLite itself: queries are filters over a list in key order, the topic pattern of a query is the collection it selects, and a purge either deletes its rows or fails without effect.
- VACUUM, busy timeouts, the migration of sequence ids, automatic pruning, durations and the wording of warnings.
- Requests, responses and metadata as JSON or pickle, C strings, panics and the entry points of the native library.
- The upstream index: a map from labels to embeddings with a capacity, whose calls may fail; search is not modelled.
- The resize factor is a real number, so rounding and NaN are not modelled; lengths fit 64 bits.
- WalPrune.WalDatabase.SelectRows, WalPrune.WalDatabase.PurgeSelected, Compaction.LocalRuntime.CompactCollection: the loop bodies of the source, split for readability.
- HandleProtocol.HandlesAreNeverMisused: a native start is assumed to return an address that was never used before, so the reuse of addresses by the native allocator is not modelled.
- HandleProtocol.NeverDeadlocked: a reader is held up by any waiting writer, whatever the order of arrival; fairness is not modelled.
- HandleOutcomes.OperationsDoWhatTheyAreFor: accessors and the version query only take and give back their lock; the fields and texts they read are not modelled.
- ServerLifecycle.Server.Backup: plan and copy are inputs here; they are modelled in BackupCopy.
- The Java backup executor and sessions; throwables that are not exceptions.
- DirectorySwap.FileSystem.Rename: the retries on Windows are part of the call, and a directory in the way is an obstacle even if it is empty.
- HnswRebuild.RebuildCollection: reading and writing the index files and the metadata file, and the identity of the response.
- MetadataNormalizer.NormalizeMetadata: the text of paths in error messages is represented by the key and a trail of indices; lists of metadata maps are normalised map by map.
- BackupCopy.Backup: paths are resolved paths, as PathContainment computes them; a destination behind a dangling link is not modelled. Closing the server between the checks and the copy is not part of this method, so the source that is checked is the source that is copied.
- BackupCopy.CopyDirectory: names are compared by character, as UTF-8 orders them; checksums, times, modes, special files and the 64-bit width of the byte total are left out.
- PathContainment.ContainmentOfResolvedPaths: the resolution of symbolic links by the standard library is a given function.
- TargetPaging.ListTargets: listings do not change while they are read, and a page holds what the request asks for.
- Library loading, configuration builders, option setters and the wrappers for tenants, databases and records: easy members.
