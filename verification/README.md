# Feldjäger: verified core

Feldjäger manages an Xray installation over SSH from a desktop program. This
project models the parts of it that carry state and protocols, and proves what
they guarantee: for every thread interleaving, every pattern of failing remote
calls, every sequence of user actions.

Check it with `dafny verify dfyconfig.toml`.

## What is modelled

**The address scan** (`TargetScan`, `TargetScanRuns`, `TargetScanPace`,
`TargetScanSolo`). Workers
share a claim counter, a checked counter, a cancel flag and a channel. One
action of the transition system is one access to shared state by one thread, or
one local step; the environment may cancel or drop the receiver at any moment.
The hosts, the number of workers, the pause and the probe answers are arbitrary.
A ledger invariant accounts for every claimed host, every row and every progress
value: held by a worker, sent, or given up. From it follow exactly-once claims,
completeness, cancellation bounds, termination in an explicit number of steps,
and, for a single worker, refinement of the sequential loop. A second ledger
adds up the time slept: one whole pause between a report and the next claim.

**Configuration transactions** (`RemoteHost`, `ConfigTransactions`,
`ConfigGuarantees`, `ConfigResults`, `ConfigRuns`, `OptimisticSave`,
`ConfigPipeline`, `BackupNames`). The model goes down to single remote calls. Each of them may
work, be refused, be refused with a text that says the file is missing, take
effect without being acknowledged, or (a write) stop half-way; the world fixes
this per call number, so a lemma over all worlds is a lemma over all fault
schedules. The "atomic" replacement is the four-rename sequence of the SFTP
layer, not an assumption. The core's `-test` is an arbitrary predicate over the
configuration files, the JSON parser an arbitrary partial function. The
transactions are given twice: as functions of world and host, about which the
lemmas speak, and as methods of a session object with early returns, proved
equal to the functions. `ConfigResults` says exactly when each step and each
transaction succeeds, from faults, verdict and parser alone.

**The log viewer** (`XrayLogs`, `XrayLogsLaws`, `XrayLogsRuntime`): generation-based rejection
of stale workers, the bounded buffer, the search index, the stop handle, and all
the user actions that touch them; as a value and as an object updated in place.
`XrayLogsLaws` tells what the viewer shows after any run from the actions
performed.

**The WARP integration** (`Warp`, `WarpGuarantees`, `WarpConsistency`,
`WarpResults`, `WarpTags`, `WarpSession`, `WarpWrites`): setup, adoption, regeneration and
removal over registration, outbound and ownership marker. A record of answers,
one per remote call an operation may make, decides how each step goes.
`WarpWrites` shows that the four ways a file replacement ends in this model are
the only ones the remote calls of `RemoteHost` allow, and that the commit step
is the conflict-checked, validated write of `ConfigTransactions`.

**Supporting parts**: the statistics history and page (`StatsConsole`), the
whois reader (`Netinfo`), the share-material store (`ShareMaterial`), and the
string operations they need (`Text`).

## Where the code does less than its comments say

Each item names a lemma with a concrete failing input and the lemma with the
exact condition.

- *Backups within one second.* Backup names carry whole seconds. Two writes of a
  file within a second give both backups one name, and the version before the
  first write is gone (`TwoWritesInOneSecond`); a backup cut off over an earlier
  one destroys it and reports only that the backup failed (`CutBackupDestroys`).
  `BackupKeepsVersions` says exactly when taking a backup loses nothing.
- *Atomic replacement.* It can leave no live file (`AtomicLosesFile`,
  `FailedUploadLosesFile`), or the new one (`AtomicFailsAfterEffect`), and report
  failure. `AtomicFailureHarmless` and `FailedUpload` have the exact condition.
- *Creation never overwrites.* A "no such file" status of the existence probe is
  taken for an answer. A creation so misled truncates the live file without a
  backup, and deletes it when the test fails, reporting that the change was
  rolled back (`MisledCreationDestroys`; exactly when: `CreationDestroys`).
- *Creation is not atomic.* It writes in place; a creation that is cut off
  reports an error and leaves an untested file (`CutCreationStays`; the verdict
  in `CreateOutcome` has the condition).
- *A save never creates a file.* The branch for a missing file goes on to write
  but always fails taking the backup (`SaveNeverCreates`). What the branch does
  achieve: a read of a present file that fails with a "not found" text switches
  the conflict check off (`MisreadReplaces`; exactly when: `MisreadSkipsCheck`).
- *Log settings.* Saving them clears the log lines and not the search index over
  them (`SettingsSavedStale`; exactly when: `SettingsSavedSearch`); the next
  recomputation repairs it. A reset restarts the generations, so generations
  alone would accept lines of a worker from before it (`ResetReusesGenerations`).
- *WARP ownership.* A managed marker can lose its outbound in more ways than a
  failed clearing of the marker: when a removal could not be rolled back
  (`RemovalLeftInPlace`), when a stale copy replaces the configuration past a
  misread conflict check (`StaleSetup`), when the configuration file is lost in
  its replacement, and when an adoption marks an outbound only the loaded copy
  has (`StaleAdoption`, `AdoptTrustsLoadedCopy`). `StepCovers` is the exact
  condition for every operation from every state. Removal and regeneration then
  stay blocked, setup and adoption repair it (`DanglingIsStuck`,
  `DanglingIsRepaired`).
- *WARP regeneration.* Registration and outbound can be torn apart although the
  registration restore works: when the configuration write was reported as
  failed and stayed in place, restoring undoes the wrong half
  (`RestoreUndoesWrongHalf`; exact condition in `RegenerateTears`).
- *WARP setup.* The existence probe over the shell reads every failure as
  "absent"; setup then runs the helper on a registered host (`MisledSetup`;
  `StepRegistration` says exactly when the registration changes).
- *Listing backups.* The listing is cut into lines before it is read, so backups
  of a file with a newline in its name are never listed (`NewlineHidesBackup`;
  exactly when: `ListingFindsBackup`).
- *Share material.* A merge for a named inbound that offers only blank values
  still creates an entry, which ends the fallback to the entry of its position
  (`EmptyMergeHides`; exactly when: `MergeEndsFallback`).

## Model

| member | source | states |
|---|---|---|
| TargetScan.ApplyInv | src/app/target_scan_ops.rs:47-125 | Every action of any thread or of the environment keeps the scan's invariant: claims have owners in claim order, and the ledgers of positions, rows and progress values balance |
| TargetScan.RunInv | src/app/target_scan_ops.rs:47-125 | Every state reachable in any interleaving satisfies that invariant |
| TargetScan.IndexStep | src/app/target_scan_ops.rs:88-106 | A worker's step keeps each claimed position in exactly one place: held by one worker, counted once, or given up once |
| TargetScan.RowStep | src/app/target_scan_ops.rs:97-101 | A worker's step neither loses nor invents a found row: on its way + sent + unsent equals the number found at claimed hosts |
| TargetScan.CountStep | src/app/target_scan_ops.rs:103-106 | The same for progress values: each value up to the checked counter exists exactly once |
| TargetScan.ExitInvStep | src/app/target_scan_ops.rs:89-95 | The claim counter exceeds the claimed hosts by at most the workers that have stopped; without cancel or a dropped receiver a worker stops only when the hosts are exhausted |
| TargetScanRuns.ExactlyOnce | src/app/target_scan_ops.rs:88-106 | In every reachable state of any number of workers each index below min(next, len) has exactly one owner and is in exactly one place, and no other index is; with a listener none is abandoned |
| TargetScanRuns.ClaimsBounded | src/app/target_scan_ops.rs:59-95 | The claim counter never exceeds len + max(threads, 1); the checked counter never exceeds the claimed hosts |
| TargetScanRuns.Soundness | src/app/target_scan_ops.rs:97-106 | In every state, cancelled or dropped or not, the rows sent are among those found at the claimed prefix and the progress values among 1..checked, with multiplicity |
| TargetScanRuns.Completeness | src/app/target_scan_ops.rs:47-106 | An uncancelled scan with a listener ends with rows exactly the found ones (as multisets), progress values a permutation of 1..len, checked = len, and Done last |
| TargetScanRuns.DoneIsLast | src/app/target_scan_ops.rs:71-74 | A Done in the channel is the last event and implies that all workers were spawned and have stopped |
| TargetScanRuns.CancelBound | src/app/target_scan_ops.rs:88-110 | After cancel is set a given worker claims at most one more index, and only if it had passed its check; the claim counter grows by at most the number of such workers |
| TargetScanRuns.MeasureDrops | src/app/target_scan_ops.rs:59-125 | Every action strictly decreases a natural-number measure |
| TargetScanRuns.Terminates | src/app/target_scan_ops.rs:59-125 | No run under any scheduler has more than len * (8 + 2 * p) + 4 * max(threads, 1) + 3 steps, where p is the number of polls in a pause |
| TargetScanRuns.CancelledSoonEnds | src/app/target_scan_ops.rs:88-125 | From any reachable cancelled state no run has more than 7 * max(threads, 1) + 2 further steps, however many hosts are left and however long the pause is |
| TargetScanRuns.DropBound | src/app/target_scan_ops.rs:97-106 | Once the receiver is gone a worker claims at most one more host, and none if it is at work on one |
| TargetScanPace.PauseBetweenClaims | src/app/target_scan_ops.rs:103-124 | In every reachable state a worker that claims or works on a host has slept exactly the pause since its last report, and a sleeping one all but what remains |
| TargetScanPace.CancelledSleep | src/app/target_scan_ops.rs:115-124 | After a cancel a worker sleeps out the poll interval it is in, if any, and no more |
| TargetScanPace.PauseBounded | src/app/target_scan_ops.rs:103-124 | The workers together never sleep more than one pause per progress report |
| TargetScanPace.WholePause | src/app/target_scan_ops.rs:88-112 | A finished, uncancelled, heard scan has slept len * pause in all |
| TargetScanRuns.Ready | src/app/target_scan_ops.rs:59-74 | Until Done is sent some thread of the scan itself can move: no deadlock |
| TargetScanRuns.StuckIsFinished | src/app/target_scan_ops.rs:71-74 | A state in which only the environment can act has sent Done, as the last event if anybody listens |
| TargetScanPace.RunTargetScan | src/app/target_scan_ops.rs:47-75 | Under an arbitrary scheduler the scan reaches its end, with Done last; uncancelled and heard it is complete and has slept one whole pause per host |
| TargetScanRuns.SleepCancellable | src/app/target_scan_ops.rs:115-125 | The sleep stops at the first poll that reads the flag set, after whole intervals, or else sleeps exactly the whole time |
| TargetScanSolo.RefinesSequentialLoop | src/app/target_scan_ops.rs:59-112 | With 0 or 1 threads the events of any run are a beginning of the sequential loop's, or those of k whole hosts and Done; uncancelled and heard, all hosts and Done, with a pause per host; a host after the first is claimed exactly one pause after the last report |
| RemoteHost.AtomicOutcome | feldjaeger-ssh/src/russh/sftp.rs:76-112 | For every fault schedule: success means the new bytes are live; the live file holds old bytes, new bytes or is missing; no other configuration file or backup is touched |
| RemoteHost.AtomicFailureHarmless | feldjaeger-ssh/src/russh/sftp.rs:76-112 | A failed replacement of an existing file by different bytes leaves it as it was if and only if the schedule does not derail |
| RemoteHost.AtomicFailureAbsent | feldjaeger-ssh/src/russh/sftp.rs:76-112 | A failed replacement of an absent file leaves it absent if and only if no unacknowledged rename stays in effect |
| RemoteHost.AtomicLosesFile | feldjaeger-ssh/src/russh/sftp.rs:97-111 | A concrete schedule after which failure is reported and no live file is left |
| RemoteHost.AtomicFailsAfterEffect | feldjaeger-ssh/src/russh/sftp.rs:88-100 | A concrete schedule after which failure is reported and the new bytes are live |
| ConfigGuarantees.CreateBackupOutcome | src/remote/backup_manager.rs:51-93 | A backup taken holds the live bytes whole; the live file, other files and other backups are untouched |
| ConfigGuarantees.RestoreBackupOutcome | src/remote/backup_manager.rs:96-145 | A successful restore makes the backed-up bytes live; a failed one leaves the present bytes, the backed-up ones, or none |
| ConfigGuarantees.RestoreBackupFailure | src/remote/backup_manager.rs:96-145 | A failed restore leaves the rejected bytes live if and only if its own replacement did not derail |
| ConfigGuarantees.ValidateOutcome | src/app/config_write.rs:75-127 | After a backed-up change, whichever result it has: kept only if accepted, the old bytes back after a reported failed test, and nothing else touched (which result it has is `ConfigResults.ValidationResult`) |
| ConfigGuarantees.WriteOutcome | src/app/config_write.rs:49-128 | For every schedule a write ends Ok with the new bytes live and accepted, or with an error whose kind says whether the file is as before; whenever the live file changed the old bytes are in this transaction's backup; nothing else changes |
| ConfigGuarantees.FailedUpload | src/app/config_write.rs:56-59 | A write that reports a failed upload left the file alone if and only if its replacement did not derail |
| ConfigGuarantees.RemoveOutcome | src/app/config_write.rs:215-293 | The same for removals, with the exact condition under which a reported removal failure had no effect |
| ConfigGuarantees.CreateOutcome | src/app/config_write.rs:132-211 | For every schedule, a misled existence probe included: Ok means whole and accepted; what each error kind says about the file; a live file changes only if the probe is misled and the write is not refused |
| ConfigGuarantees.CreationDestroys | src/remote/admin.rs:97-137 | A creation changes a live file if and only if its probe is misled, its write is not refused and the bytes it leaves are not by coincidence the old ones |
| ConfigGuarantees.MisledCreationDestroys | feldjaeger-ssh/src/russh/sftp.rs:182-190 | A concrete run: the live file is truncated, the rejected new one deleted, and the report says rolled back |
| ConfigGuarantees.CutCreationStays | src/remote/admin.rs:123-126 | A concrete run: a creation cut off leaves a torn, untested file |
| ConfigGuarantees.FailedUploadLosesFile | src/remote/admin.rs:50-90 | A concrete run: the upload is reported as failed, no live file is left, the old bytes are in the backup |
| ConfigGuarantees.FailedWriteRollback | src/app/config_write.rs:310-328 | "Restore also failed" after a write means the rejected bytes are live, if and only if the restore did not derail |
| ConfigGuarantees.FailedRemoveRollback | src/app/config_write.rs:310-328 | After a removal it means the file stays removed, if and only if no unacknowledged restore stayed in effect |
| ConfigResults.BackupSucceeds | src/remote/backup_manager.rs:51-93 | A backup is taken if and only if its read and its write work, under the second of the clock |
| ConfigResults.AtomicSucceeds | feldjaeger-ssh/src/russh/sftp.rs:76-112 | The exact schedules under which a replacement succeeds |
| ConfigResults.AtomicTraceless | feldjaeger-ssh/src/russh/sftp.rs:76-112 | A successful replacement leaves neither temporary nor set-aside file, unless the last removal is refused |
| ConfigResults.AtomicCleansUp | feldjaeger-ssh/src/russh/sftp.rs:83-86 | A refused write of the temporary file leaves no trace |
| ConfigResults.AtomicKeepsTemp | feldjaeger-ssh/src/russh/sftp.rs:96-111 | A refused replacement leaves its temporary file for diagnosis and nothing else |
| ConfigResults.RestoreSucceeds | src/remote/backup_manager.rs:96-145 | A restore succeeds if and only if the backup is read, has its size, and replaces the live file |
| ConfigResults.AcceptedMeans | src/xray/remote_cli/config_test.rs:20-40 | A directory layout is tested as a directory, a single file as itself, anything else as the file written |
| ConfigResults.BinaryKnownMeans | src/app/config_write.rs:49-128 | The test is run exactly if the path of the binary is more than white space |
| ConfigResults.ValidationResult | src/app/config_write.rs:75-127 | A change is kept if and only if nobody tests it or the test passes; otherwise the result is what the test said, or that the restore failed too |
| ConfigResults.WriteResult | src/app/config_write.rs:49-128 | Each result of a write if and only if its cause, from the faults and the core's verdict |
| ConfigResults.RemoveResult | src/app/config_write.rs:215-293 | Each result of a removal if and only if its cause |
| ConfigResults.CreateResult | src/app/config_write.rs:132-211 | Each result of a creation if and only if its cause; a failed test means the file is deleted again |
| ConfigResults.SaveResult | src/app/log_settings_ops.rs:105-151 | A save is the validated write exactly if live file and copy are the same bytes or parse to the same value (or the file reads as missing); otherwise nothing is written |
| ConfigResults.RestoreResult | src/app/backup_ops.rs:223-264 | The same for a restore, which then writes the bytes of the backup |
| ConfigResults.FaultlessWriteResult | src/app/config_write.rs:49-128 | With every call working: accepted and kept, or rejected and the old bytes back, and exactly which files there are |
| ConfigResults.FaultlessRemoveResult | src/app/config_write.rs:215-293 | The same for a removal |
| ConfigResults.ReformattedCopySaves | src/app/log_settings_ops.rs:143-151 | A copy formatted otherwise is no conflict; a copy with another meaning is one |
| ConfigRuns.TroubleFreeSettles | src/app/config_write.rs:49-293 | A transaction without a reported rollback failure, an unreported effect or a rolled-back creation over a live file leaves a tested change or no change of any configuration file |
| ConfigRuns.TroubleUnsettles | src/app/config_write.rs:49-293 | Unless a rollback failed or the bytes written may be those already there, a transaction settles if and only if none of the listed troubles occurs |
| ConfigRuns.ChangedHealthy | src/app/config_write.rs:75-127 | A change of one file that passes the test of its own target breaks no other target's test |
| ConfigRuns.ExecuteHealthy | src/app/config_write.rs:49-293 | With the binary known, a trouble-free write, create, remove, save or restore keeps the installation passing the core's test |
| ConfigRuns.RunHealthy | src/app/config_write.rs:49-293 | Over any trouble-free sequence of transactions with arbitrary other faults the installation keeps passing the core's test |
| ConfigRuns.ExecuteKeepsVersions | src/app/backup_ops.rs:136-148 | A transaction keeps every stored version of every file if what it writes over (the backup of its second, the live file of a misled creation) is also stored elsewhere, or its backup leaves that name as it is |
| ConfigRuns.NoVersionLost | src/app/backup_ops.rs:136-148 | Over any run of such transactions no version is ever lost, whatever fails, restores of older backups included |
| ConfigRuns.FreeSlotsAreExpendable | src/remote/backup_manager.rs:231-253 | One backup of a file per second and no misled creation are enough for that |
| ConfigRuns.BackupKeepsVersions | src/remote/backup_manager.rs:51-93 | A backup, taken or failed, loses no version if and only if what its name holds is stored elsewhere or the two calls leave it as it is |
| ConfigRuns.CutBackupDestroys | src/remote/backup_manager.rs:51-93 | A concrete run: a backup cut off over an earlier one of its second destroys it and reports only a failed backup |
| ConfigRuns.TwoWritesInOneSecond | src/remote/backup_manager.rs:262-267 | Two faultless writes within one second succeed and lose the version before the first |
| OptimisticSave.EquivalenceRelation | src/app/log_settings_ops.rs:143-151 | The comparison of the conflict check is an equivalence relation, bytes that do not parse included (which texts it lets pass is `ConfigResults.SaveResult`) |
| OptimisticSave.SaveReplacesLoaded | src/app/log_settings_ops.rs:105-141 | A save that changes the file, acknowledged or not, replaces a version equivalent to the copy it is based on, unless the live file was misread as missing |
| OptimisticSave.MisreadSkipsCheck | src/app/log_settings_ops.rs:127-137 | Against a differing live file the check is skipped if and only if the read is refused with a missing-file text |
| OptimisticSave.MisreadReplaces | src/app/log_settings_ops.rs:127-137 | A concrete run: a save from a stale copy succeeds over a version it does not know |
| OptimisticSave.SaveNeverCreates | src/app/log_settings_ops.rs:127-137 | A save of a file that is missing changes nothing and fails |
| OptimisticSave.RestoreReplacesLoaded | src/app/backup_ops.rs:223-254 | A restore that changes the file replaces a version equivalent to the caller's copy, by the bytes of the chosen backup |
| OptimisticSave.NoUpdateLost | src/app/log_settings_ops.rs:105-151 | Any number of clients loading, editing, saving and restoring in any order, under any faults: the live file carries every acknowledged edit until a backup without it is restored, and when a derailed replacement has left no live file one backup carries them all; except after a misread that switches off a check that would have found a conflict |
| OptimisticSave.EditSurvivesInBackup | src/app/log_settings_ops.rs:105-141 | A concrete save that leaves no live file, the acknowledged edit before it in the backup |
| ConfigPipeline.RemoteAdmin.PutAtomic | feldjaeger-ssh/src/russh/sftp.rs:76-112 | The replacement performed call by call ends in the specified host, touches nothing else, and on success has the new bytes live |
| ConfigPipeline.RemoteAdmin.Backup | src/remote/backup_manager.rs:51-93 | The backup step by step ends in the specified host and reference |
| ConfigPipeline.RemoteAdmin.RestoreAfterFailedTest | src/remote/backup_manager.rs:96-145 | The restore step by step, with its size check, ends in the specified host and result |
| ConfigPipeline.RemoteAdmin.Test | src/xray/remote_cli/config_test.rs:42-102 | The test run changes no file and yields the specified verdict |
| ConfigPipeline.RemoteAdmin.WriteValidated | src/app/config_write.rs:49-128 | The imperative write ends in the specified host and result and satisfies the write verdict |
| ConfigPipeline.RemoteAdmin.CreateValidated | src/app/config_write.rs:132-211 | The imperative creation, its probe misled or not, ends in the specified host and result and satisfies the creation verdict |
| ConfigPipeline.RemoteAdmin.RemoveValidated | src/app/config_write.rs:215-293 | The imperative removal ends in the specified host and result and satisfies the removal verdict |
| ConfigPipeline.RemoteAdmin.WriteWithConflictCheck | src/app/log_settings_ops.rs:105-141 | The conflict-checked save ends in the specified host and result; it changes the file only over an equivalent version or a misread one, and Ok means the new bytes are live |
| ConfigPipeline.RemoteAdmin.RestoreWithConflictCheck | src/app/backup_ops.rs:223-254 | The conflict-checked restore ends in the specified host and result; it changes the file only over an equivalent version, and Ok means the bytes of the backup are live |
| BackupNames.ListingFindsBackup | src/remote/backup_manager.rs:200-224 | In any listing that has its line, a backup made by the program is read back (path, second and size) if and only if its file name contains no newline |
| BackupNames.NewlineHidesBackup | src/remote/backup_manager.rs:200-224 | A concrete file name whose stored backup is never listed |
| BackupNames.ListBackupsOf | src/remote/backup_manager.rs:200-224 | The loop over the lines of the listing collects the backups among them, in their order |
| BackupNames.ListingOnlyBackups | src/remote/backup_manager.rs:200-224 | Whatever is listed is named after this very file with a number behind it |
| BackupNames.BackupNamesInjective | src/remote/backup_manager.rs:231-253 | The name of a backup determines the file name and the second |
| BackupNames.BackupPathsInjective | src/remote/backup_manager.rs:231-253 | Two backup paths are the same if and only if the seconds are, and the originals are up to a repeated slash before the file name |
| BackupNames.OneSlashSame | src/remote/backup_manager.rs:282-321 | Which paths are affected by that: exactly those with a repeated slash before the file name |
| BackupNames.RolesApart | feldjaeger-ssh/src/russh/sftp.rs:214-229 | Temporary, set-aside and backup names never coincide, and temporary names determine file and stamp |
| XrayLogs.StaleEventsIgnored | src/app/xray_logs.rs:303-350 | Any interleaving of events of old and current workers, and of other sources, has the effect of the current, relevant ones alone |
| XrayLogs.BufferContents | src/app/xray_logs.rs:314-335 | The buffer is the latest replacement plus all later appends, cut once to the last max(2 * limit, 100) entries if anything was appended, and uncut otherwise |
| XrayLogs.BufferContentsOfStream | src/app/xray_logs.rs:303-360 | The same for arbitrary streams, through their relevant events |
| XrayLogs.BufferOfRun | src/app/xray_logs.rs:314-360 | Over every run of events and user actions, the line limit changing on the way, the buffer is the newest part of all lines since the last start over, of exactly the length the limits at the appends leave |
| XrayLogs.Hits | src/xray/logs/search.rs:20-44 | The match list holds exactly the positions of matching entries, in increasing order |
| XrayLogs.MatchesInOrder | src/xray/logs/search.rs:58-83 | Next goes through the matches in order and wraps; previous and next undo each other |
| XrayLogs.MatchesFromNone | src/xray/logs/search.rs:58-83 | Without a highlighted match next starts at the first and previous at the last |
| XrayLogsLaws.SearchFinds | src/xray/logs/search.rs:20-44 | An entry is found if and only if its message mentions the trimmed query, in whatever case |
| XrayLogsLaws.FirstHighlighted | src/xray/logs/search.rs:41-43 | A recomputation highlights the first match |
| XrayLogs.HandleAlwaysFits | src/app/xray_logs.rs:174-350 | Over all user actions, probes and events a stop handle is held if and only if the viewer is following |
| XrayLogs.NoWorkerForgotten | src/app/xray_logs.rs:174-190 | Over every run each follow worker ever started holds the handle, was told to stop, or ended by itself |
| XrayLogsLaws.LoadingWhilePending | src/app/xray_logs.rs:314-350 | Over every run the viewer is loading exactly while a started read or probe has neither delivered, failed, finished nor been overtaken |
| XrayLogsLaws.FailureShown | src/app/xray_logs.rs:336-343 | Over every run the viewer shows exactly the latest failure that nothing has overtaken |
| XrayLogsLaws.LastErrorKept | src/app/xray_logs.rs:314-343 | Over every run the last error is that of the latest report that nothing has cleared |
| XrayLogsLaws.FollowingWhilePursued | src/app/service.rs:11521-11577 | Over every run the viewer is following exactly from a start to the stop, the end or the next start of something else |
| XrayLogsLaws.SettingsChosen | src/app/service.rs:11397-11432 | Over every run source, limit and query are those chosen last |
| XrayLogsLaws.GenerationStep | src/app/service.rs:11397-11543 | Which actions make earlier workers stale, and which generation the awaited probe has |
| XrayLogsLaws.CapValues | src/app/xray_logs.rs:353-360 | The number of lines each limit keeps |
| XrayLogs.SearchAlwaysFits | src/app/xray_logs.rs:314-335 | Over all runs without a settings save the index is that of the current lines and the highlighted match exists |
| XrayLogs.SettingsSavedSearch | src/app/service.rs:11303-11306 | A settings save keeps the index right if and only if there were no matches |
| XrayLogs.SettingsSavedStale | src/app/service.rs:11303-11306 | A concrete viewer whose index points at a line that is gone |
| XrayLogs.RecomputationRepairs | src/app/xray_logs.rs:314-335 | A new query or relevant lines make any stale index right again |
| XrayLogs.StartMakesStale | src/app/service.rs:11495-11543 | Starting a worker makes events of an earlier generation stale if and only if the generation counter is not exhausted |
| XrayLogs.StaleForever | src/app/xray_logs.rs:303-312 | Without a reset a stale event stays without effect for ever |
| XrayLogs.ResetReusesGenerations | src/app/xray_logs.rs:174-179 | After a reset a read shares its generation with the first worker before it, whose lines would be accepted |
| XrayLogsRuntime.Runtime.StopFollow | src/app/xray_logs.rs:181-189 | The handle is dropped only after its flag is set |
| XrayLogsRuntime.Runtime.Reset | src/app/xray_logs.rs:174-179 | The initial state, with the previous worker told to stop |
| XrayLogsRuntime.Runtime.StartFollow | src/app/service.rs:11537-11547 | A fresh, unset flag under the next generation; the previous worker is told to stop |
| XrayLogsRuntime.Runtime.Recompute | src/xray/logs/search.rs:20-44 | The loop builds the specified index |
| XrayLogsRuntime.Runtime.TrimFollowBuffer | src/app/xray_logs.rs:353-360 | Exactly the last max(2 * limit, 100) entries remain |
| XrayLogsRuntime.Runtime.ApplyEvent | src/app/xray_logs.rs:303-351 | The in-place update is the specified one; relevant lines leave idle or following without an error, a current failure leaves exactly that failure; the handle is dropped only on the current worker's word that it ended |
| XrayLogsRuntime.Runtime.PollEvents | src/app/service.rs:11625-11679 | The poll loop takes the events up to the one that closes the channel (a failure, a stop, a finished read) and leaves the buffer that the relevant ones describe |
| WarpTags.SuggestUniqueTag | src/xray/warp/types.rs:308-330 | The search loop yields the first free candidate; free whenever fewer than 10000 tags exist |
| WarpTags.SuggestedFree | src/xray/warp/types.rs:308-330 | By counting, not every candidate can be taken by fewer than 10000 existing tags |
| WarpTags.SetupNeverConflicts | src/xray/warp/manager.rs:273-298 | The tag search and the later case-insensitive conflict check agree: setup's own proposal is not refused |
| WarpGuarantees.SetupProposal | src/app/warp.rs:477-505 | Setup proposes the loaded outbounds plus one, under a fresh trimmed tag, with the credentials of the registration on the host |
| WarpGuarantees.StepCovers | src/app/warp.rs:477-705 | For every state, every operation from any copy of the configuration and every failure pattern: exactly when a managed marker has its outbound afterwards, from a covered state and from an uncovered one |
| WarpGuarantees.RunCovers | src/app/warp.rs:477-705 | Over all runs, stale copies and misread conflict checks included, a managed marker names an existing outbound unless a step exposed it |
| WarpGuarantees.AdoptTrustsLoadedCopy | src/app/warp.rs:527-558 | Once an adoption has its marker in place, reported or not, the marked outbound exists if and only if the live configuration has it, which adoption does not check |
| WarpGuarantees.DanglingIsStuck | src/app/warp.rs:590-705 | From a marker without its outbound neither removal nor regeneration changes marker or configuration, unless it writes over a differing live file past a misread check |
| WarpGuarantees.DanglingIsRepaired | src/app/warp.rs:477-558 | A successful setup from any copy, and a successful adoption of an outbound the live configuration has, ends in a managed marker with its outbound |
| WarpResults.RegisterSucceeds | src/xray/warp/registration.rs:60-120 | The exact condition for a device to be registered, forced or not, and the registration then |
| WarpResults.SetupSucceeds | src/app/warp.rs:477-526 | Setup reports success if and only if its calls answer so, on a registered or an unregistered host, and then adds exactly the proposed outbound and marks it |
| WarpResults.SetupLeaves | src/app/warp.rs:477-505 | The registration after any setup, successful or not |
| WarpResults.SuggestedMeans | src/xray/warp/types.rs:308-336 | The wanted tag if free in whatever case, else the first free candidate from 2 to 10000, else the fallback |
| WarpResults.AdoptSucceeds | src/app/warp.rs:527-558 | Adoption succeeds if and only if the first outbound under the tag is fit and marker and report go through |
| WarpResults.RegenerateSucceeds | src/app/warp.rs:590-656 | Regeneration succeeds if and only if its calls answer so and exactly one outbound carries the tag, which then has the new credentials |
| WarpResults.RemoveSucceeds | src/app/warp.rs:657-704 | Removal succeeds if and only if its calls answer so and nothing refers to the outbound, which is then gone |
| WarpResults.WholeLife | src/app/warp.rs:477-704 | A concrete life: set up on an unregistered host, regenerated, removed, the configuration as before |
| WarpConsistency.RegenerateTears | src/app/warp.rs:590-656 | From any copy of the configuration: registration and outbound end both old or both new if and only if none of the listed failures tears them |
| WarpConsistency.RestoreUndoesWrongHalf | src/app/warp.rs:624-641 | A concrete run in which a working registration restore leaves registration and outbound apart |
| WarpConsistency.RemovalLeftInPlace | src/app/warp.rs:657-704 | A concrete run in which an unrolled-back removal leaves a managed marker without outbound |
| WarpConsistency.StaleAdoption | src/app/warp.rs:527-558 | A concrete adoption from a stale copy that marks nothing |
| WarpConsistency.StaleSetup | src/app/warp_ops.rs:77-105 | A concrete setup from a stale copy past a misread check that removes the marked outbound |
| WarpConsistency.MisledSetup | src/xray/warp/registration.rs:69-93 | A concrete setup on a registered host, its probe misled, that replaces the registration and leaves the outbound with the old credentials |
| WarpConsistency.UntornMatches | src/app/warp.rs:590-656 | A pair that matched and was not torn matches still, with the new credentials or the old, whatever copy the client held |
| WarpConsistency.SuccessMatches | src/app/warp.rs:477-656 | A success report of setup or regeneration implies a managed marker whose outbound carries the credentials of the registration, and a client copy equal to the live configuration |
| WarpConsistency.StepOnly | src/app/warp.rs:732-787 | Whatever fails, the configuration is as before, or lost in its replacement, or differs from the copy the client held in the operation's own tag at most; and that copy was the live configuration unless the check was misread away |
| WarpConsistency.StepRegistration | src/app/warp.rs:477-704 | Adoption and removal never touch the registration; setup on a registered host does if and only if its probe is misled and the helper leaves another file |
| WarpConsistency.StepConfig | src/app/warp_ops.rs:64-105 | From any copy: the configuration afterwards is the proposal as far as it was written, or what it was |
| WarpConsistency.MarkerFollowsConfig | src/app/warp.rs:477-704 | The marker changes only after an acknowledged configuration write, and then to the operation's own |
| WarpConsistency.RefusalsChangeNothing | src/app/warp.rs:477-704 | Without a managed marker, helper or backup, for an outbound in use, or for one unfit for adoption, nothing changes |
| WarpConsistency.StepDistinct | src/xray/config/editable.rs:1446-1611 | Outbound tags distinct up to case stay so under every operation, also when a distinct stale copy is written |
| WarpWrites.AtomicWays | feldjaeger-ssh/src/russh/sftp.rs:76-112 | A file replacement ends in one of the four ways the WARP model knows |
| WarpWrites.CommitWays | src/app/warp_ops.rs:64-105 | So does the conflict-checked, validated configuration write |
| WarpWrites.CommitRefusals | src/app/warp_ops.rs:77-97 | A differing or missing live configuration, and one whose read fails in any way but with a missing-file text, is left as it is |
| WarpWrites.CommitRefines | src/app/warp_ops.rs:64-105 | The commit of the WARP model refines to the conflict-checked, validated write: in every world there are an answer of its check and an ending of its write under which both end alike |
| WarpSession.Session.Register | src/xray/warp/registration.rs:60-120 | The registration steps, with a probe that may be misled, leave the specified file and result |
| WarpSession.Session.BackUpRegistration | src/xray/warp/registration.rs:124-157 | The copy is made, not needed as far as the probe can tell, or failed |
| WarpSession.Session.WriteWithConflictCheck | src/app/warp_ops.rs:64-105 | The commit leaves the specified configuration and result |
| WarpSession.Session.Setup | src/app/warp.rs:477-526 | The imperative setup ends in the specified remote state and copy; success means a managed marker whose outbound matches the registration, and a copy equal to the live configuration |
| WarpSession.Session.Adopt | src/app/warp.rs:527-558 | The imperative adoption ends in the specified remote state and copy, and keeps the marker covered if and only if it does not expose it |
| WarpSession.Session.RegenerateCredentials | src/xray/warp/manager.rs:306-347 | Re-registration and generation leave the specified registration and proposal |
| WarpSession.Session.Regenerate | src/app/warp.rs:590-656 | The imperative regeneration ends in the specified remote state and copy; success means what it means for setup |
| WarpSession.Session.RemoveIntegration | src/app/warp.rs:657-704 | The imperative removal ends in the specified remote state and copy, and keeps the marker covered if and only if it does not expose it |
| StatsConsole.CounterNameInjective | src/app/stats_console.rs:81-90 | Counter names are injective in side, tag and direction for arbitrary tags, even with separators in them |
| StatsConsole.HistoryContents | src/app/stats_console.rs:95-111 | After any responses, repeated names included, a series is the last 120 of all samples ever recorded under its name, in order; names never seen have none |
| StatsConsole.RecordExtends | src/app/stats_console.rs:99-111 | One response appends exactly its samples of a name and leaves every other name alone |
| StatsConsole.ChartedIffConfigured | src/app/stats_console.rs:338-351 | A name is charted if and only if a configured tag of the right side owns it |
| StatsConsole.NothingHidden | src/app/stats_console.rs:338-364 | Every counter of a response is charted or listed with the others, never both |
| StatsConsole.RowDetermined | src/app/stats_console.rs:155-179 | Rows of one name are one row and show that name's series |
| StatsConsole.RowShowsLatest | src/app/stats_console.rs:95-179 | A row built after recording a response ends in the value the response gave last for its counter |
| StatsConsole.RowsInOrder | src/app/stats_console.rs:338-351 | Inbound rows before outbound ones, in the order of the tags, uplink before downlink |
| StatsConsole.OthersInOrder | src/app/stats_console.rs:353-361 | The other counters keep the order and the repetitions of the response |
| StatsConsole.Console.RecordSample | src/app/stats_console.rs:97-111 | The in-place loop, popping from the front, records exactly the response for every name |
| StatsConsole.Console.BuildPage | src/app/stats_console.rs:338-364 | The loops over tags and counters build the specified rows and the counters no row shows |
| Netinfo.ParseWhoisResponse | src/netinfo.rs:260-286 | The result is the first line with seven fields and a number or NA in front; none if and only if there is no such line |
| Netinfo.DataLine | src/netinfo.rs:261-272 | A line yields a record if and only if it has exactly six separators and a system number in front |
| Netinfo.AsnMeans | src/netinfo.rs:266-272 | NA in whatever case, or a number of at most 32 bits |
| Netinfo.LineRoundTrip | src/netinfo.rs:260-280 | A printed record line, padded in any way, reads back as its record |
| Netinfo.WhoisRoundTrip | src/netinfo.rs:260-286 | The same after any lines without a record, with either line ending and whatever follows |
| Netinfo.ChooseAddress | src/netinfo.rs:184-198 | The first IPv4 address if there is one, else the first address, else none |
| Text.ParseDecimal | src/netinfo.rs:268 | Parsing a printed number gives it back exactly when it fits the type |
| ShareMaterial.KeySame | src/app/share_material.rs:78-84 | Two inbounds share an entry if and only if their tags agree up to trimming, or both have none and the same position |
| ShareMaterial.FieldIsLastWritten | src/app/share_material.rs:94-128 | After any merges each field is the last non-blank value written under its key, or what it was; entries exist exactly where addressed |
| ShareMaterial.KeysMerged | src/app/share_material.rs:94-114 | What one merge of keys leaves, field by field |
| ShareMaterial.PinMerged | src/app/share_material.rs:116-128 | What one merge of a pin leaves |
| ShareMaterial.LookupOrder | src/app/share_material.rs:86-92 | The entry of the tag if there is one, else that of the position |
| ShareMaterial.NeverErased | src/app/share_material.rs:94-128 | A field once set is never erased |
| ShareMaterial.LookupUnaffected | src/app/share_material.rs:86-92 | Merges under other keys do not change a lookup |
| ShareMaterial.MergeEndsFallback | src/app/share_material.rs:86-128 | A merge that offers nothing leaves a named lookup alone if and only if the tag had an entry or the position's entry is empty |
| ShareMaterial.EmptyMergeHides | src/app/share_material.rs:86-114 | A concrete store in which an empty merge hides the material kept by position |
| ShareMaterial.Store.MergeKeys | src/app/share_material.rs:94-114 | The in-place merge changes the specified entry and fields only |
| ShareMaterial.Store.MergeCertPin | src/app/share_material.rs:116-128 | The same for the certificate pin |
| ShareMaterial.Store.RetainFromSession | src/app/share_material.rs:130-146 | Retaining a session's material is that merge |

## Left out

- The window between read and write inside one conflict-checked change, and files edited by others in the middle of a transaction: a transaction is one step of `OptimisticSave` and of the WARP runs.
- The `find` pattern of the backup listing, which reads `*`, `?` and `[` in a file name as wildcards: the model starts from the lines that come back.
- OptimisticSave.NoUpdateLost: excepts saves whose conflict check is misread away although it would have found a conflict (`MisreadReplaces` shows what they do).
- WarpConsistency.RegenerateTears: assumes that a registration the helper issues comes with new credentials; the helper is not part of this model.
- XrayLogs.HandleAlwaysFits: speaks of runs of fewer than 2^64 actions, because the saturating generation counter then still moves.
- Configurations spread over several files in the WARP model: there the outbounds are one file.
- A misled probe for an earlier generated outbound file: the helper is taken to write its output when it exits with success. Permission changes beyond success and failure.
- WARP discovery, helper installation and removal, and connectivity tests: they touch neither registration, outbound nor marker.
- Worker threads that panic: a probe is taken to return. Relaxed memory ordering: each shared atomic is used alone.
- SSH sessions, timers, DNS and TLS probing: they are answers of the world.
- JSON parsing and printing: an arbitrary partial function; the sidecar file of the share material is therefore not modelled.
- Saves of users, inbounds and outbounds, which call the validated write without a conflict check, and the other settings pages, which repeat the modelled save.
- A separate backup directory, paths the path type rejects, and the order of the backup listing.
- The classification of error texts into user-facing kinds.
- The content state and page model of the log viewer, its list of sources and its channel handles.
- Rates and sizes on the statistics page (floating point), labels, and everything graphical.
