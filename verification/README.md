# Plaik Core state machines in Dafny

A model of the parts of Plaik Core that must survive crashes, retries, concurrent callers and
adversarial input, with proofs of what they promise. Every source file has its own module, and code
that changes things step by step is modelled by classes and loops that change them step by step.

| file | models |
|---|---|
| Prelude.dfy | options, results, and the host plan: what happens to each durable effect |
| HashChain.dfy, OperationJournal.dfy, AuditLog.dfy, Checkpoints.dfy | signed append-only journals, the per-operation state machine, trusted checkpoints and recovery epochs |
| Dependencies.dfy, Registry.dfy | dependency resolution, and the registry closure every lifecycle action keeps |
| PackageHistory.dfy, PackageLifecycle.dfy | the crash-recoverable package lifecycle, proved against a ledger of committed changes |
| Restore.dfy | the two-rename restore protocol |
| JobHistory.dfy, JobQueue.dfy | the durable job queue, its runner and its drain pump |
| InsertionOrder.dfy, Cache.dfy | the coalescing TTL cache |
| Outbox.dfy, DispatchClaim.dfy | the event outbox dispatcher, and which thread may dispatch |
| ExtensionHost.dfy | runtime generations and bind order |
| RateLimiter.dfy | the sliding-window login limiter |
| SqlEraser.dfy | the eraser of SQL literals and comments |

`dafny verify dfyconfig.toml` checks the whole project.

## How crashes, errors and threads are modelled

Package lifecycle, restore and outbox: every durable effect (an intent write, a rename, a registry
write, a journal append, a removed tree, a published event) first asks a host plan whether it goes
through, raises without effect, or stops the process. Contracts hold for every plan, so they hold for a
stop at every point, any number of times, also inside rollback, recovery and cleanup. A removal may
stop half way and leave a torn directory. The plan is a parameter, a function of the number of the
effect, and so is the clock. `Calm(host, from, to)` says that the plan let every effect in that stretch
through, `Survived` that it stopped the process at none, and completion is stated over them: a dispatch
with an accepted limit completes if and only if its stretch was calm; a fresh restore completes if and
only if its effects up to the finalized intent were calm and the best-effort cleanup after them survived;
a package operation is applied if and only if it is admissible, its stretch was calm and the clock lets
every attempt be closed and retried. On a clock that does not run backward in the stretch (`Onward`) that
last condition is read off the journal before the call (`ClockAllows`); on any other clock it is read off
the journal at the end, and whatever was closed was closed at some reading in the stretch (`Reached`).

Job queue, cache and dispatch claim: each section under a lock is one method, so any interleaving is a
sequence of calls. A ghost history records them, a plain function of that history is the simple form,
and the class invariant ties every field to it.

Assumptions: file locks give mutual exclusion; an atomic write that raises leaves the old file; this
package manager is the only writer of its registry and roots; a fresh UUID or temporary name is not in
use; in the package lifecycle a journal append happens whole or not at all (the source writes the line
in a loop; `OperationJournals.TornLineNeverAccepted` says what a torn line would do: every later call
is refused). HMAC (section 2 of RFC 2104) is an arbitrary function of what is signed; it is assumed injective
only where the binding of a head to a journal is claimed. Versions and specifiers are an arbitrary
matching relation.

## Where a plausible promise fails, and exactly when it holds

- Capability closure over merely installed packages is not kept: uninstalling a disabled provider is
  allowed although the graph check of the next install may then fail. `Registries.UninstallMayStrandCapability`
  is a concrete registry. `Registries.UninstallKeepsGraphExactly`: an admissible uninstall of `id` keeps
  the graph check if and only if every required capability of another package that `id` provides is also
  provided by a third one. The closure that is always kept, `Registries.Closed`, counts the capabilities
  of enabled packages.
- A restore that stops right after its prepared intent is harmless exactly when there is an old data
  directory and it does not already carry the marker of the same operation and archive.
  `Restores.PlatformBackupManager.CrashAfterPrepare` gives the outcome of all three cases. Removing the
  marker is best effort in the source (src/plaik_core/backup.py:827-832), so such a marker can be left
  behind; a restore into a host without a data directory fails closed for ever after this stop.
- A restore that stops between removing the staging directory and writing `aborted` fails closed, with
  the old data in place, exactly when the old tree does not carry the marker of the same operation and
  archive; `Restores.PlatformBackupManager.StopBeforeAborted` is that run, and no later restore gets past
  it. `Restores.Stuck` is the exact condition for every state.
- Package recovery needs more than calm effects: `succeed` and `fail` refuse a clock that reads before
  the start of the attempt they close (src/plaik_core/operation_journal.py:247-282), and `retry` one that
  reads before its last failure (src/plaik_core/operation_journal.py:139-170). With calm effects and a
  clock that does not run backward, `PackageLifecycles.TransactionalPackageManager.Recover` completes if
  and only if no started package attempt in the journal it finds lies ahead of the clock.
  `PackageLifecycles.TransactionalPackageManager.StopAfterBegin` is the failing run: a stop right after
  an attempt was begun, then a recovery by a clock that reads earlier; the attempt stays started.
- A drain does not always serve every due job: `fail` refuses an error code outside `[a-z][a-z0-9_.-]{1,127}`
  with a `ValueError` (src/plaik_core/jobs.py:315-326), which the runner does not catch
  (src/plaik_core/jobs.py:768-796), so the job stays leased and the drain ends.
  `JobQueues.ErrorCodeSafeExactly`: the code of an exception is accepted if and only if the first 124
  characters of its case-folded type name are lower-case ASCII letters, digits or one of `_.-`.
- A failed job is not always requeued: the doubled base delay is computed before it is capped
  (src/plaik_core/jobs.py:449-452) and overflows `timedelta` for huge base delays, so `fail` raises and
  the job stays leased. `JobQueues.NeverOverflowsExactly`: no retry of an admissible job ever raises if
  and only if the base delay, doubled as often as the largest attempt count allows, fits.
- The limiter follows its rule on clocks that never read below zero.
  `RateLimiters.FreshWindowExactly`: a window that holds one failure at `t` rejects exactly while the
  rule blocks, at every later reading, if and only if `t` is not negative, or one failure is the limit and
  the block it starts does not end before zero. The class starts from a nonnegative reading and never
  goes back.

## Model

| member | source | states |
|---|---|---|
| HashChain.AppendChained | src/plaik_core/operation_journal.py:284-309 | whatever is appended verifies on the next read, for every signature |
| HashChain.OnlyNextLinkExtends | src/plaik_core/operation_journal.py:311-368 | a chain extended by one line verifies if and only if that line is the writer's own link for its body |
| HashChain.ChainBinding | src/plaik_core/operation_journal.py:370-378 | with an injective signature two verifying journals with the same event count and head hash are equal |
| HashChain.HeadFixesChain | src/plaik_core/audit.py:119-140 | when no signature is the genesis value, equal heads hold exactly for equal journals, count included |
| HashChain.AnchoredPrefix | src/plaik_core/integrity.py:273-291 | a verifying journal whose k-th hash equals a recorded head has exactly the k anchored events as prefix, however much follows |
| OperationJournals.ShapeStep | src/plaik_core/operation_journal.py:486-519 | one event is accepted if and only if it keeps the operation in the shape (started failed)* then nothing, started or started succeeded, with attempts 1, 2, 3 and nondecreasing times |
| OperationJournals.AcceptedExactlyShaped | src/plaik_core/operation_journal.py:486-566 | for every event list: it replays if and only if every operation's own events have that shape, and the folded state is the one its last event describes |
| OperationJournals.SucceededIsFinal | src/plaik_core/operation_journal.py:486-519 | nothing follows a success of the same operation |
| OperationJournals.AppendAccepted | src/plaik_core/operation_journal.py:284-309 | a journal accepts what it writes, and the new fold is the old one with that operation updated |
| OperationJournals.TornLineNeverAccepted | src/plaik_core/operation_journal.py:311-368 | a journal with a torn line is never accepted, whatever is written after it |
| OperationJournals.RejectedPrefix | src/plaik_core/operation_journal.py:311-368 | a rejected prefix rejects the whole journal |
| OperationJournals.AttemptPositive | src/plaik_core/operation_journal.py:522-566 | folded states have a positive attempt, an error code exactly after failure and a finish time exactly when not started |
| OperationJournals.OperationJournal.ReadAndVerify | src/plaik_core/operation_journal.py:311-368 | the reading loop succeeds exactly on accepted journals and returns their events and their fold |
| OperationJournals.OperationJournal.Begin | src/plaik_core/operation_journal.py:107-137 | fresh ids get attempt 1, known ids are answered without writing, another action or target conflicts; all other operations keep their state |
| OperationJournals.OperationJournal.Retry | src/plaik_core/operation_journal.py:139-170 | a failed operation gets the next attempt unless the clock is behind; the exact success condition and the whole new state |
| OperationJournals.OperationJournal.Finish | src/plaik_core/operation_journal.py:247-282 | exact success condition of succeed and fail, idempotent repetition, and the whole new state |
| OperationJournals.OperationJournal.Pending | src/plaik_core/operation_journal.py:210-217 | exactly the started operations |
| AuditLogs.RejectedAt | src/plaik_core/audit.py:157-209 | a file that stops verifying at one line never verifies |
| AuditLogs.AuditLog.Scan | src/plaik_core/audit.py:157-209 | the streaming reader succeeds exactly on verifying files and returns their count and head |
| AuditLogs.AuditLog.AppendEvent | src/plaik_core/audit.py:101-140 | succeeds exactly on verifying files, extends them by the one event, leaves others alone |
| AuditLogs.AuditLog.VerifyAgainst | src/plaik_core/audit.py:146-155 | with an injective signature, verification against an anchored head succeeds on exactly the anchored journal |
| Checkpoints.CheckpointKeepsValid | src/plaik_core/integrity.py:95-154 | a log extended by an ordinary checkpoint passes the reader again |
| Checkpoints.CheckpointKeepsBuilt | src/plaik_core/integrity.py:95-154 | ordinary checkpoints keep epochs in agreement, counts strictly increasing inside an epoch and recovery records paired |
| Checkpoints.RecoveryKeepsValid | src/plaik_core/integrity.py:166-263 | a log extended by a recovery pair passes the reader again |
| Checkpoints.RecoveryKeepsBuilt | src/plaik_core/integrity.py:166-263 | a recovery opens the next epoch and keeps all log invariants |
| Checkpoints.RecoveryKeepsAgreement | src/plaik_core/integrity.py:562-580 | after a recovery both journals' last records sit in the same newest epoch |
| Checkpoints.RecoveryKeepsPairs | src/plaik_core/integrity.py:475-559 | recovery keeps counts increasing and audit/operations records contiguous |
| Checkpoints.HalfRecoveryRejected | src/plaik_core/integrity.py:352-420 | a log that got only the first of the two recovery records is rejected |
| Checkpoints.BuiltEpochsNeverDisagree | src/plaik_core/integrity.py:562-580 | no log built by checkpoint and recover reaches "recovery epochs disagree" |
| Checkpoints.AdmittedExactly | src/plaik_core/integrity.py:475-559 | one record passes the dictionary checks if and only if the log extended by it is valid record by record |
| Checkpoints.ValidateRecords | src/plaik_core/integrity.py:475-559 | the dictionary pass over the whole log decides exactly the declarative validity of logs |
| Checkpoints.FileCheckpointStore.ReadAndVerify | src/plaik_core/integrity.py:297-350 | succeeds exactly on accepted logs |
| Checkpoints.FileCheckpointStore.Append | src/plaik_core/integrity.py:355-420 | one write extends the log by the given records |
| Checkpoints.FileCheckpointStore.Checkpoint | src/plaik_core/integrity.py:95-154 | case by case: epoch mismatch and non-increasing counts refused, a repeated head answered from the log, otherwise exactly one new record in the current epoch |
| Checkpoints.FileCheckpointStore.Recover | src/plaik_core/integrity.py:166-263 | a fresh operation opens exactly the next epoch with both records; a known one is answered only while its pair is current and the evidence is the same |
| Dependencies.PathGoesEarlier | src/plaik_core/dependencies.py:75-100 | in a dependencies-first list every path leads to an earlier place |
| Dependencies.OrderedIsAcyclic | src/plaik_core/dependencies.py:75-100 | such a list covering the roots rules out every cycle they reach |
| Dependencies.FinishedIsInstallOrder | src/plaik_core/dependencies.py:75-100 | the finishing order restricted to candidates is an install order, also for candidates reached through installed packages only |
| Dependencies.ProviderDecides | src/plaik_core/dependencies.py:103-140 | the provider table meets a requirement if and only if some present package provides it at a matching version |
| Dependencies.CollectProviders | src/plaik_core/dependencies.py:103-140 | the table offers exactly the declared capabilities |
| Dependencies.ResolveCapabilities | src/plaik_core/dependencies.py:103-140 | accepts if and only if every non-optional requirement has a provider |
| Dependencies.CheckDeclarations | src/plaik_core/dependencies.py:46-71 | accepts if and only if core versions, conflicts and required dependencies of all packages are met |
| Dependencies.Traversal.Visit | src/plaik_core/dependencies.py:79-96 | the recursive visit terminates, adds the package after everything it depends on, or returns a path that closes a cycle |
| Dependencies.VisitAll | src/plaik_core/dependencies.py:75-100 | succeeds if and only if no cycle is reachable from the candidates; a failure carries such a cycle |
| Dependencies.ResolveInstallOrder | src/plaik_core/dependencies.py:21-100 | the exact outcome of every call: each rejection by its cause, and otherwise success exactly on acyclic input with every candidate once and after all candidates it reaches |
| Registries.PutKeepsClosed | src/plaik_core/package_lifecycle.py:350-360 | install and update under their checks keep the registry closed |
| Registries.EnableKeepsClosed | src/plaik_core/package_lifecycle.py:473-482 | enable under its checks keeps the registry closed |
| Registries.DisableKeepsClosed | src/plaik_core/package_lifecycle.py:483-495 | disable under its checks keeps the registry closed |
| Registries.UninstallKeepsClosed | src/plaik_core/package_lifecycle.py:208-224 | uninstall under its checks keeps the registry closed |
| Registries.EmptyIsClosed | src/plaik_core/package_lifecycle.py:851-861 | the empty registry, read when there is no registry document, is closed: histories start from it |
| Registries.UninstallMayStrandCapability | src/plaik_core/package_lifecycle.py:756-763 | a closed registry from which an allowed uninstall leads to one the graph check refuses |
| Registries.UninstallKeepsGraphExactly | src/plaik_core/package_lifecycle.py:756-763 | an admissible uninstall keeps the graph check if and only if every required capability of another package that the removed one provides is also provided by a third package |
| Registries.ClosedHasOrder | src/plaik_core/package_lifecycle.py:756-763 | a closed registry can be listed dependencies first |
| Registries.ReadyBelow | src/plaik_core/dependencies.py:75-100 | without a cycle some unlisted package has all its dependencies listed |
| Registries.ValidateGraph | src/plaik_core/package_lifecycle.py:756-763 | accepts if and only if declarations, capabilities and acyclicity hold for the whole registry |
| PackageHistories.GuardedKeepsClosed | src/plaik_core/package_lifecycle.py:977-1025 | any of the five guarded changes keeps the closure |
| PackageHistories.LedgerKeepsClosed | src/plaik_core/package_lifecycle.py:208-360 | every registry reached by any history of guarded changes is acyclic, conflict-free, version-consistent, with enabled requirements enabled and their capabilities provided |
| PackageHistories.LedgerKeepsAgreement | src/plaik_core/package_lifecycle.py:781-834 | registry and package root never drift apart and every directory carries its own marker |
| PackageHistories.UntouchedStays | src/plaik_core/package_lifecycle.py:508-554 | a package that no change of a history names is exactly as it was |
| PackageLifecycles.TransactionalPackageManager.RestoreFiles | src/plaik_core/package_lifecycle.py:701-719 | undoes the file moves of any interrupted state, itself interruptible at every effect; it completes if and only if every effect goes through |
| PackageLifecycles.TransactionalPackageManager.RollbackIntent | src/plaik_core/package_lifecycle.py:701-719 | rolls back to the settled pair and a durable rolled_back phase if and only if every effect goes through; every stop in between stays recoverable |
| PackageLifecycles.TransactionalPackageManager.MarkFailed | src/plaik_core/package_lifecycle.py:872-878 | closes a started attempt, at a clock reading not before its start, and touches nothing else; fails only if the host stops the append or the clock is before the start of the attempt |
| PackageLifecycles.TransactionalPackageManager.CleanupIntent | src/plaik_core/package_lifecycle.py:745-754 | removes leftovers before the intent; stopping in between keeps the intent |
| PackageLifecycles.TransactionalPackageManager.RecoverOne | src/plaik_core/package_lifecycle.py:556-594 | settles one intent forward or back; the conflict branches are proved unreachable; an attempt is closed only at a clock reading not before its start |
| PackageLifecycles.TransactionalPackageManager.FinishForward | src/plaik_core/package_lifecycle.py:571-584 | a committed transaction is finished forward; its postcondition always holds |
| PackageLifecycles.TransactionalPackageManager.FailInterrupted | src/plaik_core/package_lifecycle.py:596-605 | no package attempt stays started; each was closed at a clock reading not before its start |
| PackageLifecycles.TransactionalPackageManager.RecoverLocked | src/plaik_core/package_lifecycle.py:556-606 | leaves nothing in flight, and changes nothing on a settled state; when it completes, the clock reached the start of every package attempt found started; on a clock that does not run backward it completes if and only if no effect was stopped and no package attempt found started lies ahead of the clock |
| PackageLifecycles.TransactionalPackageManager.Recover | src/plaik_core/package_lifecycle.py:257-262 | after any history the recovered disk is the replay of the committed changes with no intent, stage or backup left, and the succeeded package operations of the journal are exactly those changes, all others failed; the same completion conditions, read off the journal before the call |
| PackageLifecycles.TransactionalPackageManager.Begin | src/plaik_core/package_lifecycle.py:608-619 | a fresh or retried attempt is the only started one, and a retry needs a clock not before the last failure; an already succeeded one belongs to a committed change; a conflict exactly when the id is used for something else |
| PackageLifecycles.TransactionalPackageManager.ApplyFiles | src/plaik_core/package_lifecycle.py:649-671 | the renames of install, update and uninstall reach the package root after the change; every stop in between stays recoverable |
| PackageLifecycles.TransactionalPackageManager.ApplyMigrations | src/plaik_core/package_lifecycle.py:673-689 | fails without an applier when migrations are declared |
| PackageLifecycles.TransactionalPackageManager.Forward | src/plaik_core/package_lifecycle.py:522-540 | reaches the landed state if and only if the host lets every effect through and migrations can run |
| PackageLifecycles.TransactionalPackageManager.Commit | src/plaik_core/package_lifecycle.py:542-550 | the committed intent write is the one commit point: before it the settled pair is the old one, after it the new one |
| PackageLifecycles.TransactionalPackageManager.Carry | src/plaik_core/package_lifecycle.py:508-554 | a transaction ends finished with its change committed and the journal succeeded, undone with nothing changed and the journal failed, or stopped in a recoverable state |
| PackageLifecycles.TransactionalPackageManager.Conclude | src/plaik_core/package_lifecycle.py:546-554 | after the commit point nothing is undone |
| PackageLifecycles.TransactionalPackageManager.StageArtifact | src/plaik_core/package_lifecycle.py:390-405 | staging leaves the package root alone and yields the marked tree |
| PackageLifecycles.TransactionalPackageManager.AdmitArtifact | src/plaik_core/package_lifecycle.py:303-372 | the checks of install and update accept if and only if the change is guarded |
| PackageLifecycles.TransactionalPackageManager.InstallOrUpdate | src/plaik_core/package_lifecycle.py:270-420 | applied, replayed, rejected, refused or interrupted: for each the exact history, settledness and journal state; a request that is not committed yet, under an id that is fresh or repeats the same action and target, is applied if and only if it is guarded, its migrations can run, no effect was stopped and the clock is behind no attempt to close or retry; on a clock that does not run backward the last condition is about the journal found |
| PackageLifecycles.TransactionalPackageManager.StateChange | src/plaik_core/package_lifecycle.py:422-506 | the same for enable and disable, which have no migrations |
| PackageLifecycles.TransactionalPackageManager.Uninstall | src/plaik_core/package_lifecycle.py:174-255 | the same for uninstall |
| PackageLifecycles.TransactionalPackageManager.Serve | src/plaik_core/package_lifecycle.py:150-172 | one request commits at most the one change it asks for, and leaves something in flight only if an effect was stopped or the clock is behind |
| PackageLifecycles.TransactionalPackageManager.AnyRun | src/plaik_core/package_lifecycle.py:97-104 | any requests against hosts that may stop anywhere, then one recovery: the committed changes are, in order, what some of the requests asked for in the state they met; the disk is exactly their replay, closed and in agreement, and the journal agrees, unless during the recovery the last host stops an effect or its clock is behind |
| PackageLifecycles.TransactionalPackageManager.StopAfterBegin | src/plaik_core/package_lifecycle.py:596-605 | after a stop right behind the begin of an attempt, a calm recovery on a clock that does not run backward completes if and only if the clock reads no earlier than that begin; otherwise the attempt stays started |
| Restores.PlatformBackupManager.CleanupPath | src/plaik_core/backup.py:862-869 | a best-effort removal that may stop half way touches one path only |
| Restores.PlatformBackupManager.CleanupSettled | src/plaik_core/backup.py:776-781 | tidying up behind a settled restore keeps the live content |
| Restores.PlatformBackupManager.AbortUnfinished | src/plaik_core/backup.py:787-805 | aborted is written only with the whole tree the restore found in place; with every effect let through the two fail-closed branches are taken exactly when described |
| Restores.PlatformBackupManager.ReconcileIntent | src/plaik_core/backup.py:774-809 | committed exactly when the marker arrived, aborted only with the tree the restore found in place; with every effect let through, pending exactly on the two fail-closed states |
| Restores.PlatformBackupManager.ReconcileRestore | src/plaik_core/backup.py:400-410 | the same for the public call: it never moves the commit point, with an unmarked old tree it answers committed exactly for the whole staged tree, and a fail-closed state stays as it is on every host |
| Restores.PlatformBackupManager.RollbackPrecommit | src/plaik_core/backup.py:846-859 | a rollback in the same process brings the old tree back whenever every effect goes through, and otherwise leaves a recoverable state |
| Restores.PlatformBackupManager.MoveAside | src/plaik_core/backup.py:366-369 | the first rename can be taken back |
| Restores.PlatformBackupManager.SwitchIn | src/plaik_core/backup.py:370-372 | the second rename is the only step that changes the live content |
| Restores.PlatformBackupManager.Finish | src/plaik_core/backup.py:834-844 | completion after the commit point renames nothing; it succeeds if and only if post-commit step and finalized intent go through and the process survives the cleanup |
| Restores.PlatformBackupManager.Swap | src/plaik_core/backup.py:364-378 | from a durable prepared intent the live content is the old or the whole new one at every stop |
| Restores.PlatformBackupManager.RestoreFresh | src/plaik_core/backup.py:339-378 | succeeds if and only if every effect up to the finalized intent goes through and the process survives the cleanup; with the cleanup calm, too, the new tree is in place, unmarked, with no leftovers; while the restore is in flight the tree it found is kept whole, in place or moved aside |
| Restores.PlatformBackupManager.Restore | src/plaik_core/backup.py:279-398 | a retry with the committed evidence only completes it, other evidence changes neither data nor intent; the outcome of every call whose effects all go through, and with no intent on disk the exact condition for success over the host; as long as an intent is in flight the tree found when that restore began is kept |
| Restores.PlatformBackupManager.CrashAfterPrepare | src/plaik_core/backup.py:354-366 | exactly when a crash right after the prepared intent is harmless: the old tree exists and does not carry the same marker already; in the other two cases the outcome |
| Restores.PlatformBackupManager.StopBeforeAborted | src/plaik_core/backup.py:787-805 | a stop after staging is removed and before aborted is written makes reconciliation fail closed exactly when the old tree does not carry the same marker; no later restore on any host gets past it, and the old data stays |
| Restores.PlatformBackupManager.AnyRun | src/plaik_core/backup.py:279-410 | over any run what was live is never rewritten, only followed by what the platform wrote or by one of the archives, and the tree that was live before an unfinished restore exists whole until the restore is finalized |
| JobHistories.LeasesNeverOverlap | src/plaik_core/jobs.py:257-297 | between two claims of a job the first token was ended and the second is greater, whatever the clocks |
| JobHistories.TokenEndsOnce | src/plaik_core/jobs.py:398-488 | a token is accepted for at most one finish, and never after it expired |
| JobHistories.FinishIsByHolder | src/plaik_core/jobs.py:398-465 | an accepted finish comes from the worker the token was issued to, before its lease expires |
| JobHistories.TokenCountsClaims | src/plaik_core/jobs.py:283-297 | the fencing token is the number of claims |
| JobHistories.ClosedStaysClosed | src/plaik_core/jobs.py:369-396 | a terminal job stays as it is until purged, and a purged id never returns |
| JobHistories.HeldUntilEnded | src/plaik_core/jobs.py:257-297 | a claimed token is held, unchanged, until an event ends it |
| JobQueues.RetryDelayBounds | src/plaik_core/jobs.py:449-452 | the capped delay starts at the base, doubles up to the cap and never shrinks |
| JobQueues.NeverOverflowsExactly | src/plaik_core/jobs.py:449-452 | no retry raises an overflow if and only if the base delay doubled for the largest attempt count fits a timedelta |
| JobQueues.RemainingPut | src/plaik_core/jobs.py:710-766 | storing one record changes the remaining attempts by exactly its own difference |
| JobQueues.DurableJobQueue.Enqueue | src/plaik_core/jobs.py:180-228 | one record per idempotency key: existing, conflicting, capacity and new cases |
| JobQueues.DurableJobQueue.RecoverExpired | src/plaik_core/jobs.py:467-488 | exactly the leases that are over are requeued or closed |
| JobQueues.DurableJobQueue.FirstDue | src/plaik_core/jobs.py:271-283 | the first due job by due time, creation and id, or none exactly when nothing is due |
| JobQueues.DurableJobQueue.Claim | src/plaik_core/jobs.py:257-297 | leases the first due job under the next token and uses up exactly one remaining attempt |
| JobQueues.DurableJobQueue.Finish | src/plaik_core/jobs.py:299-465 | an unsafe error code is refused first; then accepted exactly from the live holder; success, failure and backoff fix the whole new record; raises without effect exactly when the doubled delay overflows |
| JobQueues.ErrorCodeSafeExactly | src/plaik_core/jobs.py:315-326 | the code of an exception is accepted if and only if the kept part of its type name is written in the small alphabet |
| JobQueues.DurableJobQueue.StillLeased | src/plaik_core/jobs.py:338-367 | the job exactly while this worker holds it |
| JobQueues.DurableJobQueue.CancelOwner | src/plaik_core/jobs.py:230-255 | exactly the owner's unfinished jobs fail, and their number is returned |
| JobQueues.DurableJobQueue.PurgeTerminal | src/plaik_core/jobs.py:369-396 | removes the oldest purgeable records, at most the limit, and nothing else |
| JobQueues.DurableJobQueue.StaleHolderRejected | src/plaik_core/jobs.py:398-425 | a holder of an earlier token is rejected for ever |
| JobQueues.DurableJobQueue.HolderIsLastClaim | src/plaik_core/jobs.py:338-367 | whoever holds a live lease made the job's last claim |
| JobQueues.DurableJobQueue.ClaimsAreBounded | src/plaik_core/jobs.py:67-88 | no job is claimed more often than its maximum |
| JobQueues.JobRunner.RunOnce | src/plaik_core/jobs.py:710-796 | none exactly when nothing is due; otherwise the first due job is leased and ends succeeded, failed or requeued by what its handler did, or stays leased because the lease lapsed on the way or, raised, because the error code is unsafe or the retry delay overflows; nothing else in the queue changes |
| JobQueues.JobDrainPump.Drain | src/plaik_core/jobs.py:809-823 | with handlers that leave the queue alone: terminates within the remaining attempts; unless an unsafe error code or an overflow is raised, with nothing due; does nothing when deferred or re-entered |
| Caches.OneProducerPerKey | src/plaik_core/cache.py:109-128 | two producers of one key never overlap |
| Caches.UndisturbedExactly | src/plaik_core/cache.py:130-135 | undisturbed means that no override, delete, matching invalidation or eviction came after the last start |
| Caches.TrackedStep | src/plaik_core/cache.py:235-236 | bumping exactly the disturbed in-flight producers keeps generations telling whether a producer was disturbed |
| Caches.NamespacedTTLCache.GetLocked | src/plaik_core/cache.py:194-204 | answers exactly the unexpired value of the timed map |
| Caches.NamespacedTTLCache.Get | src/plaik_core/cache.py:75-83 | the same, with one hit or one miss |
| Caches.NamespacedTTLCache.PurgeExpired | src/plaik_core/cache.py:222-233 | removes exactly the expired entries |
| Caches.NamespacedTTLCache.StoreLocked | src/plaik_core/cache.py:206-220 | the value is answered afterwards; at most one other key is evicted, only when the live entries fill the cache |
| Caches.NamespacedTTLCache.Set | src/plaik_core/cache.py:85-92 | overrides a running producer, then stores |
| Caches.NamespacedTTLCache.Start | src/plaik_core/cache.py:108-128 | a cached value, the right to produce exactly when no producer of the key runs, or a wait |
| Caches.NamespacedTTLCache.Finish | src/plaik_core/cache.py:130-135 | the produced value is stored if and only if nothing disturbed the key since the producer started |
| Caches.NamespacedTTLCache.Release | src/plaik_core/cache.py:136-142 | generations of keys neither resident nor in flight are forgotten |
| Caches.NamespacedTTLCache.Delete | src/plaik_core/cache.py:144-154 | the key is gone from the timed map, and a producer of it is disturbed |
| Caches.NamespacedTTLCache.InvalidateNamespace | src/plaik_core/cache.py:156-181 | exactly the matching keys are gone, and matching producers are disturbed |
| Caches.NamespacedTTLCache.Stats | src/plaik_core/cache.py:183-192 | writes equal live entries, evictions and overwrites together; live entries are exactly those of the timed map |
| Caches.NamespacedTTLCache.GetOrSet | src/plaik_core/cache.py:94-142 | an undisturbed caller gets the known value or stores its own |
| InsertionOrder.WithoutLists | src/plaik_core/cache.py:206-220 | deleting a key from an insertion-ordered dictionary |
| Outboxes.SettleKeepsHandled | src/plaik_core/event_outbox.py:279-323 | handling the first pending row keeps delivery in order and everything else unchanged |
| Outboxes.PageStays | src/plaik_core/event_outbox.py:188-202 | the rest of a page stays first in line while its front is handled |
| Outboxes.PageHandled | src/plaik_core/event_outbox.py:286-318 | a page handled from its front is a correct continuation of the dispatch |
| Outboxes.SQLiteEventOutbox.Enqueue | src/plaik_core/event_outbox.py:102-174 | one row per owner, contract and idempotency key |
| Outboxes.SQLiteEventOutbox.PendingRows | src/plaik_core/event_outbox.py:188-202 | the first pending rows in order, all of them when fewer than the limit |
| Outboxes.SQLiteEventOutbox.Mark | src/plaik_core/event_outbox.py:221-246 | only a pending row can be marked |
| Outboxes.EventOutboxDispatcher.HandleRow | src/plaik_core/event_outbox.py:291-318 | a row is marked only after its publication returned |
| Outboxes.EventOutboxDispatcher.DispatchBatch | src/plaik_core/event_outbox.py:286-321 | one page: delivered in order up to the limit, malformed rows quarantined |
| Outboxes.EventOutboxDispatcher.Dispatch | src/plaik_core/event_outbox.py:279-323 | delivers the first deliverable rows in order; undisturbed it ends with the limit reached or nothing pending; after a stop at most the first pending row was published without being marked; a limit outside 1 to 1000 is refused |
| Outboxes.EventOutboxDispatcher.Drain | src/plaik_core/event_outbox.py:463-476 | terminates with the limit reached or nothing pending; only published rows are marked dispatched; a limit below 1 delivers nothing, one above 1000 is refused |
| DispatchClaims.OneDispatcher | src/plaik_core/event_outbox.py:443-461 | two dispatches never overlap |
| DispatchClaims.HeldUntilEnabled | src/plaik_core/event_outbox.py:346-356 | after a deferral began, dispatch is enabled only by an explicit enable |
| DispatchClaims.QuietAfterDefer | src/plaik_core/event_outbox.py:346-352 | once a deferral returned to a thread that was not dispatching, nothing dispatches and nothing starts until dispatch is enabled again |
| DispatchClaims.SqliteDurableEvents.Claim | src/plaik_core/event_outbox.py:443-455 | claims exactly when enabled and nobody dispatches, refuses re-entry, waits for others |
| DispatchClaims.SqliteDurableEvents.WakeClaimer | src/plaik_core/event_outbox.py:443-455 | a woken claimer looks again |
| DispatchClaims.SqliteDurableEvents.Release | src/plaik_core/event_outbox.py:457-461 | only the dispatcher releases |
| DispatchClaims.SqliteDurableEvents.Defer | src/plaik_core/event_outbox.py:346-352 | dispatch is disabled at once; only another thread's dispatch makes the caller wait |
| DispatchClaims.SqliteDurableEvents.WakeDeferrer | src/plaik_core/event_outbox.py:346-352 | returns only when no other thread dispatches |
| DispatchClaims.SqliteDurableEvents.EnableLiveDispatch | src/plaik_core/event_outbox.py:354-356 | enables dispatch |
| DispatchClaims.SqliteDurableEvents.Recover | src/plaik_core/event_outbox.py:431-441 | waits for others, enables, claims unless it already dispatches |
| DispatchClaims.SqliteDurableEvents.WakeRecoverer | src/plaik_core/event_outbox.py:431-441 | a woken recoverer enables and claims |
| ExtensionHosts.EnableBindOrder | src/plaik_core/extension_host.py:56-77 | a permutation of the enabled packages, with required dependencies first if and only if the required dependencies among them have no cycle |
| ExtensionHosts.ReadyExists | src/plaik_core/extension_host.py:61-70 | without a cycle every round finds a ready package |
| ExtensionHosts.ClosureBindsDependenciesFirst | src/plaik_core/extension_host.py:56-77 | a closed registry rules the cycle out |
| ExtensionHosts.ExtensionHost.DropUnenabled | src/plaik_core/extension_host.py:637-664 | afterwards generations are exactly those of the enabled runtimes, including after a failed build |
| ExtensionHosts.ExtensionHost.BuildRuntime | src/plaik_core/extension_host.py:733-764 | a new generation is above every earlier one; of the failures exactly a failing declaration leaves its generation behind |
| ExtensionHosts.ExtensionHost.Bind | src/plaik_core/extension_host.py:610-632 | one package is bound under the next generation; on failure the runtimes stay, and the generations are exactly those the kind of failure leaves |
| ExtensionHosts.ExtensionHost.SyncEnabled | src/plaik_core/extension_host.py:598-635 | after a normal sync exactly the enabled modules and integrations have a runtime and a generation, kept ones unchanged, new ones above all earlier; unbound handles stay dead |
| ExtensionHosts.ExtensionHost.AnyRun | src/plaik_core/extension_host.py:592-664 | over any sequence of syncs and failures no handle that stopped working ever works again |
| RateLimiters.LaterDecided | src/plaik_core/http_auth.py:291-294 | in time order n failures are inside the window exactly when the n-th last one is |
| RateLimiters.BlockEndDecides | src/plaik_core/http_auth.py:268-270 | the rule blocks exactly until the latest block end |
| RateLimiters.PushDecides | src/plaik_core/http_auth.py:266-270 | the pruned deque is full exactly when the new failure is one too many in the full history |
| RateLimiters.RecordRefines | src/plaik_core/http_auth.py:256-272 | recording a failure keeps one window a refinement of the full history |
| RateLimiters.CheckRefines | src/plaik_core/http_auth.py:241-254 | a check rejects exactly when the rule blocks, and keeps the refinement |
| RateLimiters.SuccessRefines | src/plaik_core/http_auth.py:274-289 | a success forgives nothing |
| RateLimiters.FreshWindowExactly | src/plaik_core/http_auth.py:241-272 | a window with one failure at t rejects exactly while the rule blocks, at every later reading, if and only if t is not negative, or one failure is the limit and its block does not end before zero |
| RateLimiters.LoginRateLimiter.Check | src/plaik_core/http_auth.py:241-254 | rejects exactly the clients the full-history rule blocks, and not before the hinted time is over; the histories of all other clients stay |
| RateLimiters.LoginRateLimiter.RecordFailure | src/plaik_core/http_auth.py:256-272 | the failure joins the history; only a full table evicts, and the least recently used client; the histories of all other clients stay |
| RateLimiters.LoginRateLimiter.RecordSuccess | src/plaik_core/http_auth.py:274-289 | the history of every client is unchanged |
| RateLimiters.LoginRateLimiter.Prune | src/plaik_core/http_auth.py:291-294 | drops exactly the stale prefix |
| SqlErasers.ErasedKeeps | src/plaik_core/migrations.py:579-652 | the length is kept, characters change only to spaces, and every survivor was an ordinary character |
| SqlErasers.NothingLeft | src/plaik_core/migrations.py:579-652 | no quote, bracket, comment or dollar-quote opener is left |
| SqlErasers.ErasingIsIdempotent | src/plaik_core/migrations.py:579-652 | erasing twice is erasing once |
| SqlErasers.UnchangedExactly | src/plaik_core/migrations.py:579-652 | a statement is returned unchanged if and only if it has no opener |
| SqlErasers.SkipComment | src/plaik_core/migrations.py:592-609 | the nested comment loop stops right after the first place where the openers and closers since the start balance, and reports an unterminated comment exactly when there is none |
| SqlErasers.CommentEndExactly | src/plaik_core/migrations.py:592-609 | a place is the end of a comment if and only if the marks before it balance there and at no earlier place |
| SqlErasers.SkipQuote | src/plaik_core/migrations.py:610-629 | the quote loop stops right after the first single quote that is neither doubled nor escaped, or reports an unterminated quote exactly when there is none |
| SqlErasers.QuoteEndExactly | src/plaik_core/migrations.py:610-629 | a place is the end of a quoted span if and only if everything before its closing quote splits into ordinary characters, doubled quotes and escapes |
| SqlErasers.EraseLiteralsAndComments | src/plaik_core/migrations.py:579-652 | the in-place walk computes the erased statement, or the kind of the span that never ends |

## Left out

- Checks of identifiers, payloads, paths, symlinks, file stability and archive contents, Ed25519 and scrypt: artifacts and archives enter already verified, trees are values.
- Error codes and messages: which check failed first is not modelled, only that some check failed.
- The legacy rewrite of old registry documents, unreadable intents and emergency quarantine: other writers of the same files are excluded.
- Effects of package migrations, occupancy resets and hooks outside files, registry and journal: they are steps that succeed or fail, and a rollback does not undo them.
- What `post_commit` writes into the restored data directory, and the preserved secrets: the staged content is one value.
- HTTP routes, cookies, CSRF, audit sampling, CLI, gateway and host inventory: plumbing around the modelled cores.
- PostgreSQL adapters, packages.py and storage.py are not part of this model.
- DelegatingJobQueue and DelegatingDurableEvents: they route calls to one of two backends modelled here.
- Statement boundary, keyword and authorizer checks of migrations: they only read the erased text.
- Reclaiming memory held by waiting cache callers, and the wait timeout: a waiting caller simply takes another turn.
- Dependencies.ResolveInstallOrder: candidates are visited in some order, not alphabetically, so the choice among unrelated packages is not fixed.
- ExtensionHosts.EnableBindOrder: packages of one round are listed in some order, not alphabetically.
- ExtensionHosts.ExtensionHost.Bind: the services behind the handles, job cancellation and declared contracts are not modelled; a runtime stands for its generation.
- JobQueues.DurableJobQueue.Finish: the overflow of the due time past the last representable date is not modelled, times are unbounded integers.
- Checkpoints.FileCheckpointStore.Append: a write that stops half way is outside the method; `Checkpoints.HalfRecoveryRejected` says what a half-written recovery leads to, and a torn line is refused by the reader.
- JobQueues.JobRunner.RunOnce: handlers do nothing to the queue but return or raise; the type name of what they raise is a parameter, already case-folded.
- JobQueues.DurableJobQueue.Claim: the lease length bounds and the worker name syntax are preconditions of the source's callers.
- Caches.NamespacedTTLCache.Set: keys, namespaces and the upper bound of the time to live are taken as valid.
- Outboxes.EventOutboxDispatcher.Dispatch: rows enqueued while a dispatch runs are not modelled, and the payload is only known to parse or not.
- RateLimiters.LoginRateLimiter.Check: a window is a value in a map, not a shared object; clock readings are reals without rounding.
- PackageLifecycles.TransactionalPackageManager.InstallOrUpdate: the verified artifact always names its signing key.
