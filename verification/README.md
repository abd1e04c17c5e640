# Verification model of the wal-g backup operator

The operator keeps PostgreSQL backups taken with wal-g: Backup and BackupConfig resources on the
Kubernetes side, full backups and chains of incrementals in a storage. The modules here model the
parts of it in which several activities share state, and prove what these activities keep.

- **Backup names and chains** (`Text`, `Dependency`, `WalgBackups`): how `base_X` and `base_Y_D_X` encode
  chains, and the search for everything built on a backup.
- **Deletion** (`BackupAnnotations`, `DeletionProtocol`, `DeletionRuns`, `BackupDeletion`, `DeletionQueue`):
  the annotation of dependents, the protocol between reconciler, API server, queue processor and storage as a
  state machine whose steps are single reads and writes, the control flow of one request as a refinement of it,
  and the queues.
- **Retention and recovery** (`Retention`, `Recovery`): sweeps and what any number of them leaves; the
  admission guard of new backups and why it makes the recovery search optimal.
- **Status of a BackupConfig** (`Conditions`, `ArchiveStatus`, `ArchiveSchedule`, `StatusController`): condition
  history and phase; the archive-check cache of one key as a state machine with optimistic writes,
  cancellation, pruning and restarts; the workers that share the queue; the scan's verdict.
- **Child processes** (`ExitRegistry`): registration, reaping and delivery under PID reuse and coalescing signals.
- **Watch-fed cache** (`ResourceCache`): any number of racing watches that write one entry.

A state machine has a datatype `State`, a datatype `Event`, a relation `Next` (or `Enabled` and `Apply`), and
theorems over every trace from its initial state. Where the code updates objects in place a class holds
the same fields, and its methods are tied to the functions the machine is made of.

## What the environment is taken to do

- A client read returns the state of the API server at that moment; writes with a stale version are refused.
- One reconcile of a Backup is in flight at a time, and Backup names are not used again after deletion. A request
  that still waits for an old Backup would otherwise act on a new one of the same name.
- In the deletion protocol the BackupConfig exists and IgnoreForBackupDeletion is false. With the config gone
  `deleteWALGBackup` dereferences a nil pointer (internal/controller/backup_delete_controller.go:276-281), so
  there is nothing to state about that case. The flag itself is part of `BackupDeletion`.
- `wal-g delete target` removes the target and everything built on it, reports success only then and "does not
  exist" only for a missing target; a failure may leave any part of these undeleted.
- `cmd.Wait` is bound to the process that was started, not to its number, and in
  the state machine of child processes wait4 fails only with EINTR or ECHILD.
- A watch without a resource version begins with the object as it is, if it exists, and delivers every later change
  in order.
- The reconciler computes an annotation from the id a Backup had when it was read or listed, the protocol from the
  present one. An id is set once, and under the promises of `AncestorsKept` a marked Backup that completes in
  between has no live dependents and gets none (`LateIdHasNoDependents`, `ShieldKept`), so nothing is missed.
- Clocks do not go back, uids are never reused, and only this controller writes the WALIntegrityCheck condition.

## Where the code does less than one would expect

- Retention: the comparator mixes start and creation times and need not be an order when some Backups have a
  start time and some have none (`ComparatorCycle`). sort.Slice orders the list wherever the comparator is a strict
  weak order on it, and promises nothing else. The counting guarantees are proved for every order. A second sweep
  at the same threshold can delete, when Backups tie (`TiesCanDeleteTwice`) and, where the comparator has a cycle,
  even when all times are different (`MixedOrdersCanDeleteTwice`); `SecondSweepExact` and `SweepTwiceExact` give
  the exact condition under which it never does, whatever the sort returns within its promise.
- Archive scans: a result can be saved twice, namely when the context is cancelled after the write landed
  (internal/controller/backupconfig_status_controller.go:432-434); `PendingConserved` gives the exact number of
  writes, and `WrittenTwiceRun` is such a run. Pruning an entry while a reconcile of the deleted resource is in
  flight breaks the throttling (`PruneInFlightRun`); `EarlyScanExact` says that a missing entry is
  the only way it can break.
- Watch-fed cache: a handler that is registered on a cleared entry hides the object (`HandlerHidesObject`), and
  an object deleted between fetch and watch stays cached until its watch delivers or ends (`DeletedBeforeWatch`).
  By `Convergence` these are the only two ways in which a drained cache is wrong.
- Incrementals that become visible too late, and visible Backups marked before they carry the finalizer, break
  ancestor closure, and exactly when is `WipeExact` and `UnfinalizedMarkExact`; `LateIncrementalRun` is a run to
  such a state.
- The processor reads Backups through the manager's cached client (internal/operator/manager.go:194). If that read
  is older than the reconciler's last patch, it can see an annotation that is still empty, and ancestor closure
  fails although every promise is kept (`StaleReadRun`); exactly when is `StaleReadExact`.

## Model

| member | source | states |
|---|---|---|
| `Text.Split` | pkg/walg/backups.go:370-383 | the pieces of a name contain no separator and joining them gives the name back, so nothing of a backup name is lost when its parts are read |
| `Text.SplitJoin` | internal/controller/backup_controller.go:343-358 | pieces without the separating character are got back exactly from what they were joined to |
| `Text.LessExactly` | internal/controller/backup_controller.go:444-452 | the order of names is lexicographic: the first difference decides, and a proper prefix comes first |
| `Dependency.OwnWalIdExactly` | pkg/walg/backups.go:366-370 | the own id is what comes before the first "_D_" after the leading "base_", for every name |
| `Dependency.DirectlyDependsExactly` | pkg/walg/backups.go:375-391 | a name of exactly two pieces is a direct dependent of precisely the other names whose own id is its second piece |
| `Dependency.OddNamesDependOnNothing` | pkg/walg/backups.go:387-391 | a name of any other number of pieces depends on nothing |
| `Dependency.NamesRoundTrip` | pkg/walg/backups.go:311-320 | a full or delta name built from WAL ids is read back exactly: its own id is recovered, a delta is a direct dependent of precisely the other backups whose own id it was taken on, a full backup of none |
| `Dependency.DependsTransitively` | pkg/walg/backups.go:341-353 | dependence over links that are in the list is transitive |
| `Dependency.ClosureCovers` | pkg/walg/backups.go:341-353 | any set closed under direct dependents contains every transitive dependent |
| `Dependency.DependentsAreLater` | pkg/walg/backups.go:311-320 | when each own id is greater than its parent id, every transitive dependent is strictly later than the start |
| `Dependency.AncestorsSuffice` | internal/controller/backup_controller.go:425-432 | dropping names that are not ancestors of a backup breaks no chain leading to it |
| `Dependency.NewLeaf` | pkg/walg/backups.go:365-393 | a new backup nothing is built on adds no dependency between older ones |
| `WalgBackups.FindDirectDependencies` | pkg/walg/backups.go:365-393 | the loop returns exactly the direct dependents of the parent, in list order |
| `WalgBackups.DirectDependents` | pkg/walg/backups.go:365-393 | members are the list entries that pass the direct-dependency test, and no others |
| `WalgBackups.DirectDependentsInOrder` | pkg/walg/backups.go:373-392 | the dependents of a list are those of its parts, one part after the other, so order and repetitions are kept |
| `WalgBackups.GetDependentBackups` | pkg/walg/backups.go:321-362 | terminates; without indirect ones gives the direct dependents in list order; with them gives list entries, no name twice, whose names are exactly those reachable over one or more direct links |
| `WalgBackups.SearchAll` | pkg/walg/backups.go:330-353 | the queue-driven search knows exactly the transitive dependents when the queue runs empty, after at most as many passes as there are direct dependents and names |
| `WalgBackups.Expand` | pkg/walg/backups.go:341-353 | with each dequeue the unknown names and the queue together lose exactly one element, and every known name that is not still queued has all its direct dependents known |
| `WalgBackups.MapToSlice` | pkg/walg/backups.go:355-361 | whatever the map iteration order, each known name comes out exactly once |
| `WalgBackups.StartNotReturned` | pkg/walg/backups.go:321-362 | with growing ids the search never returns the backup it started from |
| `WalgBackups.GetBackupByName` | pkg/walg/backups.go:187-196 | the first entry of that name, and nothing exactly when there is none |
| `WalgBackups.DeleteBackup` | pkg/walg/backups.go:243-285 | fails exactly when deleting the target failed for another reason than its absence; unmark and garbage failures do not matter; the three commands name this backup and are all issued in order, and the result handed back is that of the target deletion |
| `BackupAnnotations.BuildDependentBackups` | internal/controller/backup_controller.go:413-455 | the result is the list sorted by name of exactly the Backups not being deleted that depend on this one, over any intermediates, deleting or not |
| `BackupAnnotations.KeepLive` | internal/controller/backup_controller.go:434-442 | keeps exactly the listed Backups that are among the dependents and not being deleted, in listing order |
| `BackupAnnotations.AnnotationReadsBack` | internal/controller/backup_controller.go:343-358 | the stored string, split at spaces, is exactly the list of names it was made of, in order |
| `BackupAnnotations.SortedUnique` | internal/controller/backup_controller.go:444-452 | two sorted lists of names with the same members are equal |
| `BackupAnnotations.AnnotationEmptyExact` | internal/controller/backup_controller.go:413-455 | the all-dependents annotation is empty if and only if no Backup not being deleted depends transitively on this one |
| `BackupAnnotations.AnnotationOrderFree` | internal/controller/backup_controller.go:413-455 | a value that names exactly the live dependents, sorted, is the only one, whatever the listing order and the map iteration order |
| `BackupAnnotations.BackupObject.ReconcileMetadata` | internal/controller/backup_controller.go:305-370 | succeeds exactly when the Backups are listed and the patch, if any, is taken; then the type label says full or incremental and each annotation, split at spaces, gives exactly the names of the live dependents in order; a patch is sent exactly when that was not so before; on failure nothing is stored; other keys and an existing version label are untouched |
| `BackupAnnotations.ShowsExactly` | internal/controller/backup_controller.go:343-358 | an annotation is up to date exactly when it equals the freshly computed one |
| `BackupAnnotations.UpToDateOrderFree` | internal/controller/backup_controller.go:343-369 | being up to date does not depend on listing order, so a second reconcile over the same Backups issues no patch |
| `BackupAnnotations.MatchesProtocol` | internal/controller/backup_controller.go:413-455 | the names in the stored all-dependents annotation are the set the deletion protocol works with |
| `DeletionProtocol.AncestorsKept` | internal/controller/backup_delete_controller.go:227-314 | ancestor closure: in every reachable state of the protocol each owned Backup with an id that is not marked for deletion still has its whole parent chain, as owned Backup resources and in storage, if visible Backups carry the finalizer before they are marked and none appears on a chain with a marked one |
| `DeletionProtocol.InvPreserved` | internal/controller/backup_controller.go:62-128 | each single read or write of reconciler, queue processor and environment keeps the invariant behind ancestor closure |
| `DeletionProtocol.ListCovers` | internal/controller/backup_controller.go:434-442 | because the filter comes after the closure, the computed annotation names every live dependent, also behind Backups being deleted |
| `DeletionProtocol.ShieldKept` | internal/controller/backup_delete_controller.go:250-257 | an annotation of a marked Backup can only become too large: once it covers the live dependents it keeps covering them |
| `DeletionProtocol.LateIdHasNoDependents` | internal/controller/backup_controller.go:413-432 | a marked Backup that completes after it was read has no live dependents, so the empty annotation computed from its empty id covers them |
| `DeletionProtocol.WipeSpares` | internal/controller/backup_delete_controller.go:301-313 | deleting a cleared target with everything built on it hits no live backup and no ancestor of one |
| `DeletionProtocol.BasicOverRuns` | internal/controller/backup_delete_controller.go:227-326 | with no promise from the environment: ids stay unique, queued requests name marked Backups, and the Backup in the processor is still marked, finalized and of the id that was read |
| `DeletionProtocol.NoPhysicalLeak` | internal/controller/backup_delete_controller.go:227-326 | a Backup that had an id and the finalizer is missing from the API only if its physical backup is absent from storage, unless storage cleanup was skipped for an unwritable storage |
| `DeletionProtocol.UnfinalizedMarkExact` | internal/controller/backup_controller.go:130-155 | marking a visible Backup without finalizer keeps all chains if and only if no live Backup is built on it |
| `DeletionProtocol.WipeExact` | internal/controller/backup_delete_controller.go:301-314 | a physical deletion keeps the chains of all live Backups if and only if, at that moment, no live Backup is built on the one in the processor |
| `DeletionProtocol.LateIncrementalLost` | internal/controller/backup_delete_controller.go:250-257 | an incremental that becomes visible after the processor checked a Backup below it ends with a broken chain |
| `DeletionRuns.LateIncrementalRun` | internal/controller/backup_delete_controller.go:250-257 | a run from the empty state to exactly this: every earlier step keeps its promise, the late completion does not, and the deletion breaks the chain |
| `DeletionRuns.StaleReadExact` | internal/controller/backup_delete_controller.go:237-257 | a check that went by an older version of the annotation is harmless if and only if that annotation still covers the live Backups built on this one |
| `DeletionRuns.StaleReadRun` | internal/controller/backup_delete_controller.go:237-257 | a run in which every step keeps its promise, and a processor that still sees the Backup as it was before its incremental was taken: the deletion breaks the chain |
| `BackupDeletion.Plane.DeleteWALGBackup` | internal/controller/backup_delete_controller.go:227-314 | the finalizer goes if and only if the semaphore was obtained, the Backup is annotated, has no dependents and has the finalizer, the update is accepted, and it has no id, or its version label parses and the storage is unwritable, or secrets were fetched and deletion is ignored or did not fail; storage becomes what wal-g left exactly when wal-g was called; success is exactly a found Backup that was not ready or lost its finalizer; no other Backup changes |
| `BackupDeletion.Plane.RemoveBackupFinalizer` | internal/controller/backup_delete_controller.go:316-326 | nothing is sent for a Backup without the finalizer; else it goes exactly when the update is accepted, and with it a Backup that is marked |
| `BackupDeletion.RefinesInterleaved` | internal/controller/backup_delete_controller.go:227-326 | reading the Backup, calling wal-g and updating the finalizer, with any steps of others in between, is a sequence of protocol steps that skips the storage only when it is unwritable |
| `BackupDeletion.RefinesProtocol` | internal/controller/backup_delete_controller.go:227-314 | with nobody in between these steps end in the state the method computes |
| `BackupDeletion.ConfigPlane.DeleteBackupConfig` | internal/controller/backup_delete_controller.go:329-383 | succeeds if and only if cleanup is switched off, storage is unwritable, or secrets were fetched and all versions cleaned, and the finalizer, if there, could be taken off; the finalizer goes exactly then, so only with nothing left in storage of any known version where cleanup is wanted; exactly the versions before the first failing call are cleaned |
| `DeletionQueue.Serialized` | internal/controller/backup_delete_controller.go:153-224 | in every reachable state before shutdown a key has a queue if and only if it has exactly one processor, accepted = finished + in hand + waiting in that order, at most 128 wait per key, and the semaphore never lets more than 10 physical Backup deletions happen at once |
| `DeletionQueue.EnqueueOk` | internal/controller/backup_delete_controller.go:153-187 | enqueueing keeps all of this, also when it creates the queue |
| `DeletionQueue.ProcessorStepOk` | internal/controller/backup_delete_controller.go:190-224 | receiving, acquiring the semaphore and finishing keep all of this |
| `DeletionQueue.FinishedIsPrefix` | internal/controller/backup_delete_controller.go:190-224 | finished requests are a prefix of the accepted ones |
| `DeletionQueue.BackupDeletionController.EnqueueDeletionRequest` | internal/controller/backup_delete_controller.go:153-187 | starts queue and processor together on first use, and puts the request at the end of its queue unless 128 are waiting; other queues are untouched |
| `DeletionQueue.BackupDeletionController.ReceiveNext` | internal/controller/backup_delete_controller.go:190-224 | hands out the head of the queue, which is the oldest accepted request that is not finished |
| `DeletionQueue.BackupDeletionController.AcquireSemaphore` | internal/controller/backup_delete_controller.go:227-233 | succeeds exactly while fewer than ten hold the semaphore |
| `DeletionQueue.BackupDeletionController.FinishRequest` | internal/controller/backup_delete_controller.go:190-224 | the request in hand is the next finished one, and a held semaphore is given back |
| `Retention.GetBackupsToDelete` | internal/controller/retention_controller.go:146-198 | without a policy nothing is sorted or returned; otherwise the array is rearranged, and ordered wherever the comparator is a strict weak order; a policy that cannot be read is an error, and else exactly the selection over that order is returned |
| `Retention.SortSlice` | internal/controller/retention_controller.go:159-171 | a permutation in any case, and ordered on every list on which the comparator is a strict weak order |
| `Retention.UniformInTimeOrder` | internal/controller/retention_controller.go:159-171 | when all or none of the Backups have a start time, the comparator is such an order and the result is in time order |
| `Retention.MixedPairByCreation` | internal/controller/retention_controller.go:159-171 | two Backups of which only one has a start time are put in the order of their creation |
| `Retention.ComparatorCycle` | internal/controller/retention_controller.go:159-171 | on mixed lists the comparator can have a cycle, so no order can be promised |
| `Retention.SelectsExactly` | internal/controller/retention_controller.go:202-261 | a Backup is selected if and only if it is over, its start time or else its creation is before the threshold, it is not an ignored manual one, and, if completed, it stands where at least minBackupsToKeep healthy ones (five when negative) come behind it |
| `Retention.KeepsEnough` | internal/controller/retention_controller.go:202-261 | for any order of the list at least min(minBackupsToKeep, healthy) healthy Backups are not selected, min(5, healthy) when the field is negative |
| `Retention.MinToKeep` | internal/controller/retention_controller.go:183-187 | the field where it is not negative, else five |
| `Retention.CountOne` | internal/controller/retention_controller.go:222-226 | a Backup counts as healthy exactly when it is completed and not being deleted |
| `Retention.CountAdds` | internal/controller/retention_controller.go:222-226 | the count of healthy ones adds up over the parts of a list |
| `Retention.RelevantExactly` | internal/controller/retention_controller.go:107-121 | a Backup is relevant exactly when it is not being deleted and owned by a BackupConfig of this name; a list keeps its relevant ones in order |
| `Retention.KeepsNewest` | internal/controller/retention_controller.go:222-230 | each of the last MinBackupsToKeep healthy Backups of the sorted list stays |
| `Retention.NewestSurvive` | internal/controller/retention_controller.go:146-198 | in an ordered list a healthy Backup stays when, itself included, at most MinBackupsToKeep healthy ones do not come before it |
| `Retention.SecondSweepIdle` | internal/controller/retention_controller.go:146-198 | a second selection at the same threshold over what stayed, in the same order, is empty |
| `Retention.SecondSweepExact` | internal/controller/retention_controller.go:146-198 | for every list: a second selection over what stayed is empty for whatever the sort may return, if and only if no expired, unprotected healthy survivor has more than MinBackupsToKeep healthy survivors, itself included, that may stand from it on: those that do not come before it where the comparator is a strict weak order on the survivors, any of them where it is not and sort.Slice promises nothing |
| `Retention.SweepTwiceExact` | internal/controller/retention_controller.go:91-143 | the same on the API objects: right after a sweep without refusals another one leaves every Backup as it is under exactly this condition |
| `Retention.SecondSweepIdleResorted` | internal/controller/retention_controller.go:146-198 | so when the comparator puts the list in one strict order only, a second selection is empty after sorting anew |
| `Retention.TiesCanDeleteTwice` | internal/controller/retention_controller.go:146-198 | with equal times it need not be: a concrete list of which the sort may return another order that gives a deletion |
| `Retention.MixedOrdersCanDeleteTwice` | internal/controller/retention_controller.go:159-171 | where the comparator has a cycle it need not be even with different times: two orders of the same three Backups that an insertion sort leaves alone, one kept whole, one with a deletion |
| `Retention.SweepKeepsEnough` | internal/controller/retention_controller.go:91-143 | a sweep over the API objects leaves at least min(minBackupsToKeep, healthy before) healthy owned Backups (five for a negative field), in whatever order it sorted and whichever deletes were refused |
| `Retention.GuaranteeOverRuns` | internal/controller/retention_controller.go:57-143 | over any run of sweeps of any configs, with arriving, proceeding and vanishing Backups in between, the number of healthy Backups of a config never falls below min(k, healthy at the start) by more than the Backups users deleted or changed themselves |
| `Retention.HealthiesOne` | internal/controller/retention_controller.go:222-226 | the healthy ones of a config are its completed Backups that are not being deleted, as counted in that bound |
| `Retention.DisturbancesExactly` | internal/controller/retention_controller.go:57-143 | what users took away is counted once per change of theirs |
| `Retention.OthersKeepHealthies` | internal/controller/retention_controller.go:57-143 | Backups that arrive, proceed or vanish once marked do not lower that number |
| `Retention.SweepsCommute` | internal/controller/retention_controller.go:57-143 | two sweeps of configs that share no Backup end in the same state in either order |
| `Retention.RetentionController.RunBackupsRetentionCheck` | internal/controller/retention_controller.go:57-88 | the periodic check is a run of sweeps, one per config with a policy, in order; none when the configs cannot be listed |
| `Retention.WithPolicyExactly` | internal/controller/retention_controller.go:69-87 | the configs are taken in order, without those that have no policy |
| `Retention.RetentionController.RunRetentionForBackupConfig` | internal/controller/retention_controller.go:91-143 | is one sweep, over what the sort may return; without a readable policy nothing is deleted |
| `Retention.RetentionController.DeleteAll` | internal/controller/retention_controller.go:131-140 | marks exactly the selected Backups whose delete call is not refused |
| `Recovery.Guard` | internal/instance/plugin_backup.go:129-155 | a backup is admitted if and only if every stored one is of the same system and finished strictly below the current LSN, and the errors are reported in their order of precedence |
| `Recovery.StorageStaysOrdered` | internal/instance/plugin_backup.go:129-157 | with backups pushed one at a time after the guard, and any removals, every reachable storage list has one system id and strictly increasing finish LSNs |
| `Recovery.RecoveryOptimal` | pkg/walg/recovery.go:57-72 | on every such list the reverse scan finds the eligible backup with the greatest finish LSN below the target, and nothing if and only if none is eligible |
| `Recovery.UnguardedSearchMisses` | pkg/walg/recovery.go:57-72 | on a list the guard would not have admitted the scan returns a worse backup |
| `Recovery.FindClosestBackupFromTargetLSN` | pkg/walg/recovery.go:57-72 | the last list entry that matches and finished below the target, nothing exactly when there is none, an error for a target that does not parse |
| `Recovery.FindClosestBackupFromTargetTime` | pkg/walg/recovery.go:74-89 | the last matching list entry with a readable finish time not after the target, nothing exactly when there is none |
| `Recovery.FindLatestBackupFromTimeline` | pkg/walg/recovery.go:91-98 | the last matching list entry, nothing exactly when there is none |
| `Recovery.FindMostSuitableBackupForRecovery` | pkg/walg/recovery.go:29-55 | an explicit id decides, by the first backup of that name, then the time, then the LSN, then the latest; an error exactly when the deciding target does not parse |
| `Conditions.BackupConfig.SetCondition` | internal/controller/backupconfig_status_controller.go:759-784 | the in-place loop replaces the first condition of the kind or appends, keeping the transition time of an unchanged status |
| `Conditions.Set` | internal/controller/backupconfig_status_controller.go:759-784 | afterwards the kind has the new status with the right transition time and every other kind is as before |
| `Conditions.LookupFirst` | internal/controller/backupconfig_status_controller.go:829-836 | a condition is looked up as the first of its kind, and is missing exactly when there is none |
| `Conditions.SetKeepsUnique` | internal/controller/backupconfig_status_controller.go:759-784 | unique kinds stay unique |
| `Conditions.ConditionHistory` | internal/controller/backupconfig_status_controller.go:759-784 | after any sequence of calls each kind shows the status set last and the start of its last unbroken run of that status |
| `Conditions.DeterminePhase` | internal/controller/backupconfig_status_controller.go:787-826 | Failed if and only if credentials are invalid or storage is neither readable nor writable; Healthy if and only if there are conditions and all are True; Degraded if and only if not Failed and some are False; Unknown otherwise |
| `Conditions.CredentialFailureIsFailed` | internal/controller/backupconfig_status_controller.go:282-290 | the Failed phase written directly on a credential failure is the one the conditions determine |
| `ArchiveStatus.VerdictProvenance` | internal/controller/backupconfig_status_controller.go:307-333 | after any availability write under a fingerprint, a stored verdict of True or False is that of a completed, uncancelled scan made under this very fingerprint, across changes, failed saves, cancellations, pruning and restarts |
| `ArchiveStatus.AvailabilityTruthful` | internal/controller/backupconfig_status_controller.go:293-333 | in any run an availability write stores valid credentials and, of reading and writing, the answer of the last check each under its own condition, keeps the WAL verdict that was read exactly when the cache entry has the fingerprint of the object and configuration read, else resets it, leaves foreign conditions as they were read, and the reconcile goes on to the archive exactly when the stored status says readable |
| `ArchiveStatus.AvailabilityStores` | internal/controller/backupconfig_status_controller.go:293-320 | the same of one write, with the WAL condition kept or reset and the timestamps of the observed Backups |
| `ArchiveStatus.CredentialsFailedStores` | internal/controller/backupconfig_status_controller.go:282-290 | a credential failure is stored under its own condition and changes nothing else but the phase |
| `ArchiveStatus.AfterScanStores` | internal/controller/backupconfig_status_controller.go:586-609 | a finished scan sets verdict, first recoverability point and consumed storage as far as found, and keeps the rest |
| `ArchiveStatus.ProvenanceKept` | internal/controller/backupconfig_status_controller.go:350-402 | each step keeps the invariant that ties the stored, pending and in-memory verdicts to such scans |
| `ArchiveStatus.NoLostUpdate` | internal/controller/backupconfig_status_controller.go:404-436 | a committed archive status differs from the version just before it only in the archive fields, the WAL condition, the recomputed timestamps and the phase, and is committed only for the uid and generation scanned |
| `ArchiveStatus.MergeTouchesOnlyArchive` | internal/controller/backupconfig_status_controller.go:404-436 | the same of one merge: every other condition kind and field is taken from the latest version |
| `ArchiveStatus.VersionedOverRuns` | internal/controller/backupconfig_status_controller.go:404-436 | an accepted write always replaces exactly the version it was computed from |
| `ArchiveStatus.StoredPhases` | internal/controller/backupconfig_status_controller.go:339-348 | every status the controller stores, on the credential-failure path too, has the phase its conditions determine |
| `ArchiveSchedule.ScansThrottled` | internal/controller/backupconfig_status_controller.go:350-402 | consecutive scans under equal fingerprints are at least the archive interval apart from the end of the first, also after failed and cancelled scans, if the controller is not restarted and no entry is pruned under a reconcile of a deleted resource |
| `ArchiveSchedule.EarlyScanExact` | internal/controller/backupconfig_status_controller.go:361-370 | in any run, with prunes and restarts: a check that comes before the interval since the last scan under the same fingerprint is over scans again if and only if the entry is gone |
| `ArchiveSchedule.PruneInFlightRescans` | internal/controller/backupconfig_status_controller.go:188-199 | pruning the entry while such a reconcile is in flight makes it scan again at once |
| `ArchiveSchedule.PruneInFlightRun` | internal/controller/backupconfig_status_controller.go:188-199 | a run from the empty state for every positive interval: cancelled scan, deletion and prune during the next reconcile, second scan at once |
| `ArchiveSchedule.LastScanCommitted` | internal/controller/backupconfig_status_controller.go:361-436 | in any run, only the result of the last scan is ever written: an older one that was kept pending never replaces it |
| `ArchiveSchedule.PendingConserved` | internal/controller/backupconfig_status_controller.go:361-401 | a result is pending exactly when its scan completed and no save of it was reported; it was written once per reported save plus once per write that landed but was reported cancelled |
| `ArchiveSchedule.PendingNotLost` | internal/controller/backupconfig_status_controller.go:361-401 | a pending result leaves the entry only by a reported save, a newer scan, pruning or a restart, and until the next check is due it is saved without a scan |
| `ArchiveSchedule.PendingSurvives` | internal/controller/backupconfig_status_controller.go:361-401 | over any stretch of a run without a restart or a prune that drops the entry, a pending result stays unchanged until its save was reported or a newer scan has finished |
| `ArchiveSchedule.LateCancelKeepsPending` | internal/controller/backupconfig_status_controller.go:432-434 | a cancellation seen after the write landed keeps the result pending although it is stored |
| `ArchiveSchedule.WrittenTwiceRun` | internal/controller/backupconfig_status_controller.go:364-377 | a run from the empty state in which the next reconcile then writes the result of the only scan a second time |
| `StatusController.OneReconcilePerKey` | internal/controller/backupconfig_status_controller.go:216-267 | in every reachable state no key is with two of the three workers, exactly the keys with a worker are in flight, and the queue holds at most 256 |
| `StatusController.ExclusiveKept` | internal/controller/backupconfig_status_controller.go:216-267 | each enqueue, take and release keeps this |
| `StatusController.BackupConfigStatusController.EnqueueStatusUpdate` | internal/controller/backupconfig_status_controller.go:171-178 | appends the key, or drops it when the queue is full |
| `StatusController.BackupConfigStatusController.EnqueueAllStatuses` | internal/controller/backupconfig_status_controller.go:181-213 | drops exactly the entries of keys that no longer exist, and enqueues all keys in order only if none was waiting; does nothing when the BackupConfigs cannot be listed |
| `StatusController.PushAllExactly` | internal/controller/backupconfig_status_controller.go:206-212 | keys are enqueued in order, as many as fit in 256 |
| `StatusController.BackupConfigStatusController.TakeNext` | internal/controller/backupconfig_status_controller.go:216-247 | a worker takes the head of the queue and reconciles it exactly when no other worker has that key |
| `StatusController.BackupConfigStatusController.Prune` | internal/controller/backupconfig_status_controller.go:188-199 | exactly the entries of listed keys remain, unchanged |
| `StatusController.BackupConfigStatusController.TryAcquire` | internal/controller/backupconfig_status_controller.go:251-260 | succeeds exactly when no worker has the key |
| `StatusController.BackupConfigStatusController.Release` | internal/controller/backupconfig_status_controller.go:263-267 | gives up exactly the key the worker had |
| `StatusController.BackupConfigStatusController.StartArchive` | internal/controller/backupconfig_status_controller.go:350-377 | takes the branch the archive state machine takes: give up when cancelled, skip, save the pending result, or scan |
| `StatusController.BackupConfigStatusController.RecordScan` | internal/controller/backupconfig_status_controller.go:378-401 | stores fingerprint, next check and unsaved result of a scan for its key only |
| `StatusController.ReconcileWALStatus` | internal/controller/backupconfig_status_controller.go:540-610 | the verdict is True if and only if every reported timeline is OK without missing segments; the first recoverability point becomes the earliest start time that parses, and stays as it was when none does |
| `StatusController.ReportedExactly` | internal/controller/backupconfig_status_controller.go:551-563 | the timelines judged are exactly those of the versions wal-show did not fail for |
| `StatusController.ResolvePGVersions` | internal/controller/backupconfig_status_controller.go:490-536 | ascending and without repetition: exactly the versions of the owned Backups when all are from 11 to 19, there is one and archives do not outlive Backups; else all from 11 to 19 |
| `ExitRegistry.OwnExitStatus` | internal/util/cmd/cmd.go:108-124 | in every interleaving of starts, exits, reaps, cancellations and unsubscribes, with PID reuse, a command on the status branch got the exit status of the process it started |
| `ExitRegistry.ReceivedIsOwn` | internal/util/cmd/cmd.go:139-147 | a command that receives does take a status, and it is that of its own process |
| `ExitRegistry.ResultIsFinal` | internal/util/cmd/cmd.go:112-124 | neither cmd.Wait nor unsubscribing changes the result a command has taken |
| `ExitRegistry.InvOverRuns` | internal/util/cmd/subscribe.go:31-63 | every unreaped child a command started is registered with its own channel, registered channels are empty, and no zombie is forgotten |
| `ExitRegistry.AwakeKept` | internal/util/cmd/reaper.go:33-77 | no lost wakeup: while a zombie exists a SIGCHLD is pending, the slot is full, or the reaper has yet to see "no more", although signals coalesce and are dropped on a full slot |
| `ExitRegistry.ReaperNeverBlocks` | internal/util/cmd/subscribe.go:57-63 | a send under the mutex never blocks: any zombie can be reaped |
| `ExitRegistry.QuietMeansDelivered` | internal/util/cmd/reaper.go:33-77 | when nothing is left for the reaper to do there is no zombie, and every waiting command whose child has exited finds its status in its channel |
| `ExitRegistry.QuietRun` | internal/util/cmd/reaper.go:33-77 | such a quiet state is reached: a run in which one signal wakes the reaper, the only child is reaped and its status waits for its command |
| `ExitRegistry.WithdrawsAfterItsChild` | internal/util/cmd/cmd.go:112-117 | a command unsubscribes only after its own child has been reaped |
| `ExitRegistry.NewerSubscriptionSurvives` | internal/util/cmd/subscribe.go:47-55 | a run in which the PID of a cancelled command belongs to a newer one when it unsubscribes, and the newer subscription stays |
| `ExitRegistry.ReapingIsPossible` | internal/util/cmd/reaper.go:58-90 | in every reachable state the registry is as the reap loop needs it: no send would block |
| `ExitRegistry.HandledExactly` | internal/util/cmd/reaper.go:58-90 | after any series of wait4 answers each reaped PID has its status in the channel registered for it, and no other channel changed |
| `ExitRegistry.HandledSubscribers` | internal/util/cmd/reaper.go:58-90 | and exactly the reaped PIDs are no longer registered |
| `ExitRegistry.SubscriberTable.StartAndSubscribe` | internal/util/cmd/subscribe.go:31-45 | registers a new empty channel for the PID, or changes nothing when the start fails |
| `ExitRegistry.SubscriberTable.UnsubscribeFromProcessExits` | internal/util/cmd/subscribe.go:47-55 | removes the subscription only if it is of this very channel |
| `ExitRegistry.SubscriberTable.NotifyProcessExitLocked` | internal/util/cmd/subscribe.go:58-63 | moves the subscription into a status in its channel |
| `ExitRegistry.SubscriberTable.ReapProcess` | internal/util/cmd/reaper.go:80-90 | delivers what one wait4 returned, and hands back anything else it answered |
| `ExitRegistry.SubscriberTable.DoReaping` | internal/util/cmd/reaper.go:58-77 | handles all answers, past interruptions, up to the first "no more" or other error |
| `ResourceCache.Convergence` | pkg/resourcecachingclient/client.go:221-278 | once the running watches have delivered everything, a Get is answered as a live query would or sent to one, if and only if the last write of the entry was not the store of an object that was gone when its watch began, and the entry is not a handler placeholder of an existing object |
| `ResourceCache.ConvergesIfExisted` | pkg/resourcecachingclient/client.go:134-149 | the first of the two cases cannot occur when every running watch began while the object existed |
| `ResourceCache.NoOrphan` | pkg/resourcecachingclient/client.go:139-153 | in every reachable state a cached object has a running watch for its key |
| `ResourceCache.HandlerHidesObject` | pkg/resourcecachingclient/client.go:280-289 | a handler registered after the entry was cleared makes Get answer "not found" for an existing object, and no Get misses any more |
| `ResourceCache.DeletedBeforeWatch` | pkg/resourcecachingclient/client.go:134-149 | an object deleted between fetch and watch stays cached although the watch has nothing left to deliver |
| `ResourceCache.FreshKept` | pkg/resourcecachingclient/client.go:221-244 | each step keeps: a written entry is current, or a running watch will still overwrite it, or it was stored by a watch begun on an absent object |
| `ResourceCache.WatchedKept` | pkg/resourcecachingclient/client.go:375-381 | each step keeps: a written entry has a running watch, any other entry holds no object |
| `ResourceCache.Client.Get` | pkg/resourcecachingclient/client.go:99-122 | a hit, a cached "not found", or a miss, as the entry says |
| `ResourceCache.Client.SetToCache` | pkg/resourcecachingclient/client.go:257-270 | stores the object, keeps the handlers, touches no other key; what is no client object is an error and stored nowhere |
| `ResourceCache.Client.RemoveFromCache` | pkg/resourcecachingclient/client.go:272-278 | empties an entry but does not create or drop one |
| `ResourceCache.Client.AddHandler` | pkg/resourcecachingclient/client.go:280-289 | appends the handler, creating an empty entry if there is none |
| `ResourceCache.Client.ClearEntryByKey` | pkg/resourcecachingclient/client.go:375-381 | drops the entry, and no other |
| `ResourceCache.Client.UpdateCache` | pkg/resourcecachingclient/client.go:221-244 | feeds the whole stream into the entry in order and clears it when the watch ends |
| `ResourceCache.FedKeepsHandlers` | pkg/resourcecachingclient/client.go:221-278 | a stream leaves the handlers alone, the entry holds what its last change says, and other events change nothing |

## Left out

- Retention.SortSlice: stands for sort.Slice; only what holds of any sort with this comparator is promised, and nothing about the order where the comparator is no strict weak order.
- Retention.RetentionController.RunBackupsRetentionCheck: does not model several namespaces, of which a config only ever sees its own.
- ArchiveSchedule.ScansThrottled: does not hold across restarts, because the cache is in memory only.
- ResourceCache.Client.UpdateCache: does not model other writers of the same entry in between; the machine of the same module does.
- ResourceCache.Convergence: does not model that the cache keeps the caller's pointer and copies objects shallowly.
- DeletionQueue.Serialized: does not model the cleanup at shutdown, which touches the maps outside the lock and can leave a key with two processors.
- ExitRegistry.OwnExitStatus: does not model stdout and stderr buffers, nor the error texts of Run.
- Recovery.RecoveryOptimal: does not say what HasMatchingTimeline means; it is an arbitrary predicate, because `Timeline()` parses "0x..." with an explicit base of 16 and so always yields 0 (pkg/walg/backups.go:69-73).
- Informer lag: the state machines read the present state. With reads through a stale cache ancestor closure can fail; `DeletionRuns` has the run and the exact condition, and the lag itself is not a part of the protocol's steps.
- BackupDeletion.ConfigPlane.DeleteBackupConfig: does not model that a BackupConfig without finalizer disappears; nothing is read of it afterwards.
- Interaction of BackupConfig and Backup deletion: the deletion protocol holds while the config is present.
- Month and day arithmetic of the retention threshold: the threshold is an input.
- Consumed-storage sums, formatting of sizes and reasons or messages of conditions.
- Handlers of the watch-fed cache: which of create, update and delete they are called with.
- Liveness: that queues drain, that the reaper is scheduled, that saves are eventually accepted.
- wal-g command lines, JSON, SQL, file writes, gRPC, HTTP, RBAC, PKI, metrics and logging: external calls are inputs or events.
- Secret and ConfigMap resolution and their protection finalizers, webhooks, role building, sidecar injection, certificate files: case analysis without shared state.
