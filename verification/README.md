# Verified models of the local agent service

This project models the five stateful cores of the service and proves what they
promise over whole runs: atomic change sets, the fair keyed process scheduler, the
durable event log with long polling, the life cycle and recovery of managed
processes, and two smaller machines, the UTF-8 output pager and the service
supervisor. `dafny verify dfyconfig.toml` checks everything.

Where the program keeps state in objects or tables and changes it step by step, there
is a class whose methods do the same with loops and assignments (`SchedulerClass`,
`ChangeSetStore`, `EventStore`, `ProcessManager`, `SupervisorClass`), each method proved
equal to a function on values; the theorems about runs, crashes and interleavings are
then lemmas about those functions. Algorithms without state of their own
(`Trees.Manifest`, `Restore.TakeSnapshot`, `OutputPages.ReadUtf8Bytes`) are methods with
the program's loops.

## How the modules fit together

- `Paths`, `Trees`, `Restore`, `Settling`: sorted paths, captured trees and their manifest, the
  rollback snapshot and the restore loop, complete or cut short, and for which manifests repeated
  recovery always settles.
- `ChangeSets`, `Commits`, `Atomicity`, `ChangeSetRuns`, `ChangeSetCuts`, `ChangeSetStore`: one change set's
  operations, commit and reconcile with a crash anywhere, runs over many change sets without and
  with crashes inside staging, the store object. `ChangeSetCalls`, `StageResults`: which answer each call
  gives under which condition, and the results that replays return.
  `DigestInput`: the text that is hashed for the validation digest.
- `ProcessScheduler` (Scheduler.dfy), `SchedulerRuns`, `SchedulerAdmission`, `SchedulerSets`, `SchedulerIdle`,
  `SchedulerClass`: the scheduler, its runs, and who is admitted in terms of what callers asked for.
- `Events`, `EventRuns`, `LongPoll`, `Cursors`, `ProcessTable`, `EventStore`: the event log,
  its readers, its waiters and its transactions on process rows.
- `Lifecycle`, `Recovery`, `RecoveryRules`, `ProcessManager`, `Simulation`: spawning, the finishers, crashes and
  start-up recovery with its dispositions, and that the manager's routines are runs of the interleaving model.
- `Utf8`, `OutputPages`: the output pager. `Supervision`, `SupervisionTicks`, `SupervisorClass`: the supervisor.

## How foreign things are represented

- A tree hash is the tree, a content hash the content, a digest the tuple it is computed
  from (that the hashed text determines that tuple is `DigestInput.TextDeterminesFields`). An empty
  expected tree is no expectation.
- `git apply` leaves any result confined to the listed paths; in staging it is an arbitrary
  function that may raise after writing part of its effect. Diff and dry run are arbitrary predicates.
- Clocks, exit codes, probes, random names and process identities are parameters. A lease
  token is the number of the waiter it was issued to. Text encoded as JSON is a datatype value.
- An SQLite transaction is one step, and so is everything done while one lock is held.
- A crash of the service is a step that forgets everything in memory; a crash inside commit
  or reconcile may fall between any two writes, and inside restore also between the temporary
  copy of a file and the rename over its target.

## Where the code does less than it promises

Each line names the lemma with the exact condition and, where there is one, a run that fails.

- A commit is atomic under every crash only for change sets that do not turn a file into a directory
  or the reverse. With two or more listed paths, one inside another or one that is a directory of the
  captured worktree, some partial apply leaves a directory where the restore expects a file, the restore
  refuses (app/services/change_set_store.py:1032-1041) and the row ends in `recovery_required`. A denied listed
  path does the same. The condition is exact (`Atomicity.AtomicExactly`, `Settling.SettlesExactly`;
  `Restore.DirectoryTurnedFile` is one such state). A commit that is not interrupted is exact for every
  manifest in `Atomicity.UninterruptedCommit`.
- Restore copies a file to a temporary name and renames it (app/services/change_set_store.py:1032-1034).
  A crash in between leaves the copy in the worktree, the tree then never equals the captured
  one, and reconciliation ends in `recovery_required`, with every original file back
  (`Atomicity.CrashAtomicity`).
- The last journal write of a commit stands inside the `try` although the row is already
  `committed` (app/services/change_set_store.py:1145): when it fails the worktree is restored, and a
  crash during that restore leaves a committed row over a worktree that is not the committed tree
  unless no row of the restore was done and no copy left (`Atomicity.LateJournalFailure`).
- A stage call cut short by a crash leaves its writes in staging. Validation notices, but a further
  stage call adopts them silently (`ChangeSets.ValidateNoticesInterruption`, `ChangeSets.StageKeepsInterruption`).
- README.md:197-200 of the repository tells readers to start with `cursor=null` to capture the
  tail. When retention has emptied the workspace that call raises the expired-cursor error
  although nothing old was asked for (`EventRuns.TailExpires`, `EventRuns.TailExpiresAfterQuietPeriod`).
- Constructing a store on the same database clears the shutdown flag of all of them: a waiter
  woken by the shutdown that has not run yet parks again (`LongPoll.ShutdownHolds`, `LongPoll.ShutdownForgotten`).
- An event cursor of 17 or more hexadecimal digits would be issued but not accepted; 64-bit row ids
  never get there (`Cursors.RoundTrip`).
- Recovery takes a write key for every process it adopts, so at most one living process of each
  workspace is taken back, whatever the per-workspace limit and whatever key it ran under
  (`Recovery.AdoptionIsExact`).
- README.md:200-202 promises output pages that never split a character. Budgets of one to three bytes
  can (`OutputPages.CleanPages` says exactly when, `OutputPages.SmallBudgetCuts` loses a character).
- The configuration accepts a backoff multiplier below one; then a restart can come sooner than the
  initial delay (`Supervision.NeverBelowInitial`).
- The backoff's power is computed before it is capped (app/services/supervisor.py:326). With a
  multiplier above one it eventually leaves the range of a double, Python raises an error, and the
  supervisor stops; with the default multiplier at the 1025th consecutive failure
  (`Supervision.BackoffEventuallyCrashes`, `Supervision.DefaultBackoffCrashesAt`).
- A tunnel stopped because its server or proxy was lost, the server's own exit included, starts again at the
  first tick whose server part leaves both ready, however short or long the gap. The backoff between those
  two attempts is kept exactly when the gap happens to last it (`Supervision.DroppedTunnelRestartsAtOnce`).
- The runtime columns of a process row are written without a claim or a look at the status
  (app/services/process_manager.py:1627-1632, app/services/process_recovery.py:158-165). A watchdog that was between
  its look at the child and its heartbeat overwrites the recovery note of a row that has just become
  terminal, and its heartbeat and output offset (`Lifecycle.HeartbeatAfterTheEnd`). The other modelled columns,
  status and exit code among them, are final, and those three change exactly by such a write
  (`Lifecycle.TerminalIsFinal`, `Lifecycle.TerminalRowAfter`).

## Model

| member | source | states |
|---|---|---|
| Trees.Manifest | app/services/change_set_store.py:439-469 | The loop over the sorted union of paths yields, in path order, one row for each path whose regular entry differs, with both sides. |
| Trees.ManifestTells | app/services/change_set_store.py:439-469 | The rows are exactly the paths whose regular files differ, ascending, with the file before and after; added, deleted or modified says which of the two is missing. |
| Trees.RebuildUntouched | app/services/change_set_store.py:167-206 | Materialising a captured tree and building a tree from it gives the same tree, symlinks and submodules included. |
| Trees.RebuildKeepsSpecial | app/services/change_set_store.py:167-183 | Whatever happened in staging, the rebuilt tree has exactly the captured symlink and submodule entries. |
| Trees.ManifestDetermines | app/services/change_set_store.py:439-469 | Two trees with the same manifest against one captured tree agree on every regular file. |
| Trees.ManifestDeterminesTree | app/services/change_set_store.py:538-570 | The check that the stored manifest matches pins the rebuilt tree: equal manifests mean equal trees. |
| Restore.TakeSnapshot | app/services/change_set_store.py:994-1011 | The loop records, for every listed path in order, whether it is a regular file and an intact copy of it. |
| Restore.RestoreExact | app/services/change_set_store.py:1014-1042 | After any change confined to the listed paths a complete restore succeeds if and only if none of them is now a directory or denied; then every file is back; nothing but listed paths and temporary names is written. |
| Restore.DoneMeansHonoured | app/services/change_set_store.py:1014-1042 | For any snapshot and worktree: rows a restore reports done hold the recorded content, from copies whose hash agrees, past no denied path or symlink; no other path changed and every file still has its directories. |
| Restore.RenameOntoDirectory | app/services/change_set_store.py:1032-1034 | A file whose path is now a directory: the copy is made, the rename fails, the restore stops and the copy stays. |
| Restore.DirectoryTurnedFile | app/services/change_set_store.py:1036-1041 | A concrete change set and partial apply for which the restore refuses. |
| Settling.SettlesExactly | app/services/change_set_store.py:1296-1339 | From every worktree a partial apply may leave and through any interrupted passes, recovery ends in (committed, after) or (rolled back, before) if and only if no listed path is denied and, unless there is only one, none lies inside another and none is a directory of the captured worktree. |
| Settling.StuckNeedsRecovery | app/services/change_set_store.py:1317-1324 | A worktree that is neither tree and has a listed path that is a directory or denied ends in recovery_required. |
| ChangeSets.FailedStageChangesNothing | app/services/change_set_store.py:573-706 | A stage call that fails or replays leaves log and staging alone unless it finds the set expired; one that succeeds appends one operation, raises the revision by one and drops digest and after tree. |
| ChangeSets.ReplayReturnsResult | app/services/change_set_store.py:573-591 | Repeating a successful stage call at any later time returns its stored result and changes nothing. |
| StageResults.StoredResults | app/services/change_set_store.py:573-591 | In every reachable store the stored result of operation i carries ordinal i and revision i + 1, and, unless a stage call of that set died, manifest and size of the first i edits folded over the captured tree; this is what a replay returns. |
| StageResults.HistoryStays | app/services/change_set_store.py:652-698 | No later step, wherever calls die, changes a recorded operation or its result, the captured tree, the workspace or the deadline of a set. |
| ChangeSets.ValidateNoticesInterruption | app/services/change_set_store.py:843-900 | After a stage call died midway, validation accepts if and only if the dirty files rebuild to the tree the log means. |
| ChangeSets.StageKeepsInterruption | app/services/change_set_store.py:594-706 | A further stage call keeps the dirty files: staging is what the log means if and only if the edit gives the same on both. |
| DigestInput.TextDeterminesFields | app/services/change_set_store.py:902-917 | The unseparated text hashed for the digest determines id, revision, both trees and every operation hash, for revisions below 64 digits. |
| Commits.ManifestCovers | app/services/change_set_store.py:439-469 | The stored manifest lists exactly the paths at which captured and rebuilt tree differ, sorted, and no special entry. |
| Commits.CommitReturnsHonestly | app/services/change_set_store.py:1045-1192 | Whatever git apply did: success means the worktree is the tree of the recorded edits and was the captured one; undone means it is the captured tree; refused or replayed means nothing changed. |
| Atomicity.UninterruptedCommit | app/services/change_set_store.py:1086-1192 | For every manifest and apply, a commit without a crash ends committed over the after tree exactly when the apply did all that was validated, rolled back over the captured tree exactly when otherwise no listed path is denied or left a directory, and needs recovery in the remaining case. |
| Atomicity.CrashAtomicity | app/services/change_set_store.py:1045-1192 | For a manifest that meets the condition of AtomicExactly, every crash point, every partial apply and any crashes during recovery: (committed, after) or (rolled back, before) exactly when no crash fell between a temporary copy and its rename; otherwise the row needs recovery with every captured file back; a row still validated was not touched. |
| Atomicity.AtomicExactly | app/services/change_set_store.py:1045-1192 | All environments and interrupted passes without a copy left behind end in one of the two trees if and only if no listed path is denied and, unless there is only one, none lies inside another and none is a directory of the captured worktree. |
| Atomicity.StuckCommit | app/services/change_set_store.py:1111-1120 | Otherwise some well-formed worktree left by an apply that dies makes reconciliation end in recovery_required. |
| Atomicity.LateJournalFailure | app/services/change_set_store.py:1145-1152 | For every crash of the undo that follows a failed last journal write, the committed row stands over the committed tree if and only if no row was done and no copy left; no pass looks at it again. |
| ChangeSetRuns.ReachableSetsAreBound | app/services/change_set_store.py:573-706 | In every reachable store: ordinals 1..n, revision n + 1, staging equal to the recorded edits folded over the captured tree, and a validated set's after tree, digest, manifest and patch are those of that fold. |
| ChangeSetRuns.CommittedIsTheFold | app/services/change_set_store.py:1053-1146 | A successful commit from any reachable store was given the digest of the present revision and edits, and leaves the worktree equal to their fold over the captured tree. |
| ChangeSetCuts.ValidatedMeansBound | app/services/change_set_store.py:902-937 | Wherever stage calls, commits and reconcile passes die: after tree, manifest, patch and digest of a validated, committing or committed set are about one tree, and the digest names the present revision and edits. |
| ChangeSetCuts.CommittedIsTheDigestsTree | app/services/change_set_store.py:1053-1146 | From any such store a commit that reports success found the captured tree and leaves exactly the tree its digest names. |
| ChangeSetCuts.OnlyCutSetsDrift | app/services/change_set_store.py:594-706 | A set none of whose own stage calls died stages the fold of its recorded edits, whatever died elsewhere. |
| ChangeSetCuts.OneActivePerWorkspace | app/storage/database.py:280-282 | Two change sets of one workspace are never both active, wherever calls die. |
| ChangeSetCuts.TerminalIsFinal | app/services/change_set_store.py:1195-1222 | Committed, rolled back and expired sets are never changed by any later step, wherever calls die. |
| ChangeSetCalls.CommitAdmission | app/services/change_set_store.py:1045-1081 | From every reachable store commit passes its refusals if and only if the set is validated, the digest is right, the expected tree is none or the captured one, and the worktree is the captured tree; each refusal and the replay with its exact condition, and then nothing changes. |
| ChangeSetCalls.StageAnswers | app/services/change_set_store.py:594-706 | A stage call is recorded if and only if its id is new, the set accepts and is not overdue, no limit is hit, the edit applies and the workspace exists; every other answer with its exact condition. |
| ChangeSetCalls.StagedResult | app/services/change_set_store.py:649-666 | The returned result: ordinal n, the new revision n + 1, the manifest and size of what is now staged (the fold, unless a stage call of the set died), and whether a validation was undone. |
| ChangeSetCalls.ValidateAnswers | app/services/change_set_store.py:843-969 | Validation binds exactly when the set accepts, is not overdue and of the expected revision, the stored edits are intact, the files make the stored manifest within the limits, and the diff is textual and applies; each refusal with its condition and what it does to the row. |
| ChangeSetCalls.UncutManifest | app/services/change_set_store.py:865-874 | Unless a stage call of the set died, its staged files always make the stored manifest, so validation never objects to that. |
| ChangeSetCalls.BeginAnswers | app/services/change_set_store.py:289-371 | A set begins if and only if the feature is on, the explanation is not blank, the workspace exists, is supported and fits, and has no active set; it captures the worktree and stages that very tree, with its deadline. |
| ChangeSetCalls.RollbackAnswers | app/services/change_set_store.py:1195-1222 | Which status gives which answer, and that only an open or validated set changes. |
| ChangeSetCalls.ReconcileAnswers | app/services/change_set_store.py:1296-1339 | Every row of every reachable store: the after tree means committed, the captured tree, found or put back by the snapshot of that very tree, rolled back, all else recovery required; a missing workspace needs recovery. |
| ChangeSetStore.Store.Begin | app/services/change_set_store.py:289-371 | Captures the tree or refuses, with every refusal of the source in its order, as `BeginSpec` says. |
| ChangeSetStore.Store.Stage | app/services/change_set_store.py:594-706 | Checkpoint, edit, limits, record or put back: the new state and outcome are those of `StageSpec`, whose answers and results are those of `ChangeSetCalls.StageAnswers` and `ChangeSetCalls.StagedResult`. |
| ChangeSetStore.Store.Validate | app/services/change_set_store.py:843-969 | Recomputes tree and manifest and binds the digest, or reopens the set: `ValidateSpec`, with the answers of `ChangeSetCalls.ValidateAnswers`. |
| ChangeSetStore.Store.Rollback | app/services/change_set_store.py:1195-1222 | Per status: replay, error, or close and drop staging and digest. |
| ChangeSetStore.Store.CleanupExpired | app/services/change_set_store.py:1342-1368 | The loop expires exactly the open and validated sets whose deadline is not after now, drops their staging, counts them and changes no other. |
| ChangeSetStore.Store.RestoreRows | app/services/change_set_store.py:1014-1042 | The restore loop over the snapshot's rows equals `RestoreUpTo`, which the theorems above speak of. |
| ChangeSetStore.Store.Commit | app/services/change_set_store.py:1045-1192 | The write-ahead sequence with a crash anywhere and its exception handler equal `CommitSpec`, with the admission of `ChangeSetCalls.CommitAdmission`. |
| ChangeSetStore.Store.ReconcileIncomplete | app/services/change_set_store.py:1296-1339 | From any store with one active set per workspace, also after calls that died: every committing row gets its verdict against its own worktree, no other row or worktree is touched, and each of the three counters is the number of rows with that verdict. |
| SchedulerRuns.RunKeepsInv | app/services/process_scheduler.py:236-308 | Every reachable state keeps the whole invariant, and whenever the lock is free the machine is full or no queue head may start. |
| SchedulerRuns.ReachableStatesAreSafe | app/services/process_scheduler.py:290-365 | Both limits hold, two active keys of one scope and resource both read, the counters are the true numbers without zeros, the order is a duplicate-free list of exactly the non-empty queues. |
| SchedulerRuns.QueuedMeansActive | app/services/process_scheduler.py:290-308 | Nobody waits while nothing runs. |
| SchedulerAdmission.AsAsked | app/services/process_scheduler.py:228-259 | In every reachable state waiters carry workspace, key and priority of the call with their number, and leases its workspace and key. |
| SchedulerAdmission.KeysAreExclusive | app/services/process_scheduler.py:79-83 | Two callers that run together and asked for one resource in one scope both asked to read. |
| SchedulerAdmission.HeadMayStart | app/services/process_scheduler.py:336-347 | A head may start if and only if its workspace is below its limit and it shares no scope and resource with an active key, or only reads among readers. |
| SchedulerAdmission.SomebodyIsAdmitted | app/services/process_scheduler.py:290-308 | Somebody is admitted if and only if the machine has room and some head may start. |
| SchedulerAdmission.NobodyWaitsInVain | app/services/process_scheduler.py:290-347 | In every reachable state the head of a queue is kept back by the global limit, its workspace limit, or an active lease on its resource, one of the two writing. |
| SchedulerAdmission.FirstOfTheHighest | app/services/process_scheduler.py:290-334 | Admitted is a head that may start, of the highest priority, the first such in the order; it gets its own key, leaves its queue, and the order turns just past it. |
| SchedulerRuns.AnyReleaseOrderDrains | app/services/process_scheduler.py:261-274 | With no arrivals, releasing active leases in any order empties all queues, queued plus active falling by one per release. |
| SchedulerRuns.WaitersAreConserved | app/services/process_scheduler.py:236-259 | Issued numbers split into waiting, admitted and given up; a caller that gave up holds no lease; admissions within a workspace are in order of arrival. |
| SchedulerRuns.GivingUpIsFinal | app/services/process_scheduler.py:241-252 | A caller that timed out never holds a lease later, in any continuation. |
| SchedulerRuns.BoundedBypass | app/services/process_scheduler.py:310-334 | While a workspace's head stays eligible at the top priority, at most i admissions go to others before its own, i being its index in the rotating order, whatever arrives, times out or is released. |
| SchedulerRuns.BypassInSteps | app/services/process_scheduler.py:290-334 | The same over whole critical sections of any reachable state: while the head keeps the top place and does not give up, either it still waits, each returned lease admitted exactly one caller and no more than i came back, or it was admitted with at most i others before it. |
| SchedulerRuns.AdmittedInTime | app/services/process_scheduler.py:290-334 | Hence such a head has been admitted once i + 1 leases have come back, whatever arrives, gives up or wakes meanwhile. |
| SchedulerRuns.StepIsMicro | app/services/process_scheduler.py:290-308 | Every critical section is a sequence of the single admissions and changes that the bypass bound counts. |
| SchedulerClass.Scheduler.NextCandidate | app/services/process_scheduler.py:310-334 | The scan and the rotation find the first workspace in order whose eligible head has the highest priority, and rotate the order just past it; none exactly when nobody may start. |
| SchedulerClass.Scheduler.GrantWaiters | app/services/process_scheduler.py:290-308 | The loop admits until the machine is full or nobody may start, as `GrantAll`. |
| SchedulerClass.Scheduler.RemoveWaiter | app/services/process_scheduler.py:349-359 | Removes exactly the waiter with that number and its workspace when the queue empties. |
| SchedulerClass.Scheduler.Arrive | app/services/process_scheduler.py:236-241 | The waiter joins its queue, a workspace without queue joins the order last, then admissions follow. |
| SchedulerClass.Scheduler.Release | app/services/process_scheduler.py:261-274 | Frees lease and count and admits; an unknown lease changes nothing. |
| SchedulerClass.Scheduler.TryAcquire | app/services/process_scheduler.py:213-259 | With a timeout of zero: refused for a blank workspace or a negative timeout without any change, otherwise admitted exactly when its arrival alone is granted. |
| SchedulerSets.ExpireInside | app/services/process_scheduler.py:241-252 | Giving up takes exactly that number out of the scheduler and takes no lease from anybody. |
| SchedulerSets.ReleaseInside | app/services/process_scheduler.py:261-274 | A release takes exactly that lease out; every other active lease stays active. |
| SchedulerSets.AdmissionInside | app/services/process_scheduler.py:213-259 | Asking without waiting: inside and active afterwards if and only if admitted, and otherwise no trace among those inside. |
| Events.PageIsNextStretch | app/services/event_store.py:289-328 | A page is exactly the matching history between its two cursors, refused if and only if the cursor is below the watermark; more is announced if and only if something is left. |
| Events.PageIsWhatWasAsked | app/services/event_store.py:289-328 | A page holds exactly the first events beyond the cursor with the asked workspace, process if given, and kind if a list is given, in order: the smaller of how many there are and the limit held between one and the largest page. |
| Events.AppendedAsDrafted | app/services/event_store.py:468-512 | An append stores the draft as given, under an id above all others and the number after the greatest retained one of its process. |
| Events.CleanupKeepsInv | app/services/event_store.py:385-438 | A cleanup keeps the table equal to the history above the watermarks, with watermarks only rising. |
| EventRuns.NoSilentGap | app/services/event_store.py:289-328 | A reader that feeds back each cursor, under any filter, page limits, appends and cleanups, has received every matching event between its first and its present cursor exactly once, in id order. |
| EventRuns.ExpiryIsHonest | app/services/event_store.py:459-466 | A read is refused if and only if some event of the workspace beyond the cursor was removed. |
| EventRuns.ReaderCatchesUp | app/services/event_store.py:309-328 | As many reads as there are matching events ahead deliver all of them. |
| EventRuns.RetentionIsExact | app/services/event_store.py:385-438 | In every reachable state a workspace's retained events are exactly those ever appended with an id above its watermark. |
| EventRuns.RunGrows | app/services/event_store.py:425-431 | History is only appended to and no watermark ever falls. |
| EventRuns.CleanupIsExact | app/services/event_store.py:385-438 | An event survives if and only if it is among the newest of the configured count and neither it nor a later one is older than the cutoff; hence at most that count is left and none older. |
| EventRuns.RecoveryReadsAll | app/services/event_store.py:459-466 | A reader that starts at the recovery cursor and follows the cursors, with any page limits, is never refused and receives exactly the retained events of the workspace. |
| EventRuns.TailExpires | app/services/event_store.py:446-466 | A reader without a cursor is refused if and only if retention has removed all of the workspace's events; otherwise it gets an empty page at the tail. |
| EventRuns.TailExpiresAfterQuietPeriod | app/services/event_store.py:446-466 | A concrete run of one append and one cleanup after which that refusal happens. |
| EventRuns.NumbersAreConsecutive | app/services/event_store.py:468-484 | The retained events of a process that appends to one workspace carry consecutive numbers in every reachable state. |
| EventRuns.NumbersStayUnique | app/services/event_store.py:478-484 | No two retained events of a process share a number, whatever workspaces it appends to, so the unique index never refuses. |
| Cursors.RoundTrip | app/services/event_store.py:97-109 | Decoding undoes encoding if and only if the id is below 16 to the 16; a larger one is rejected. |
| Cursors.CanonicalCursor | app/services/event_store.py:97-109 | Encoding undoes decoding if and only if the cursor has no superfluous zero. |
| EventStore.EventStore.Insert | app/services/event_store.py:468-512 | The event gets the next id and the next number of its process and is appended. |
| EventStore.EventStore.Append | app/services/event_store.py:144-172 | Refused exactly for an unknown type, a missing workspace, an empty process, a sensitive key or an oversized payload, changing nothing; otherwise appended and the waiters notified. |
| EventStore.EventStore.TransitionProcess | app/services/event_store.py:174-242 | Row and terminal event change together; a terminal row is left alone and its last terminal event returned; errors change nothing. |
| EventStore.EventStore.StartProcess | app/services/event_store.py:244-287 | Row and started event change together, or nothing for an unknown process. |
| EventStore.EventStore.ListAfter | app/services/event_store.py:289-328 | Unknown filter, malformed cursor, expired cursor or the page of `Events.ListAfter`, which holds what `Events.PageIsWhatWasAsked` says, with cursors encoded. |
| EventStore.EventStore.Cleanup | app/services/event_store.py:385-438 | The loop over the workspaces, which reads a table it is shrinking, equals the one-shot cleanup of the theorems; returns the number deleted and notifies if any. |
| ProcessTable.FinishedExits | app/services/event_store.py:174-242 | A transition changes a row exactly when it was not terminal and the new status is; row and one terminal event of that process then both tell status, exit code and reason, and nobody else gains one. |
| ProcessTable.LastExitIsNewest | app/services/event_store.py:199-206 | The event returned for a row already terminal is the newest terminal event of that process, none only if there is none. |
| LongPoll.NoLostWakeup | app/services/event_store.py:330-383 | In every reachable state a parked waiter that was not notified has no event beyond its cursor of its workspace, process and kinds, an unexpired cursor and no shutdown to see. |
| LongPoll.SlotsAreCounted | app/services/event_store.py:355-383 | The waiter count is the number of parked calls, never above the limit; every exit gives its slot back. |
| LongPoll.BeginIsRight | app/services/event_store.py:330-354 | A call starts at its cursor, the start of the log or the newest retained event; it is answered at once if something is wanted or expired or it has no time, else it waits until its timeout, held to the allowed longest. |
| LongPoll.TurnIsRight | app/services/event_store.py:358-381 | A turn, the first or a later one, parks exactly when nothing is wanted, nothing expired, no shutdown and time left; otherwise it returns the first wanted events up to the limit, or expiry, shutdown or timeout in that order, and frees its slot; with no slot it is refused. |
| LongPoll.QuietCleanup | app/services/event_store.py:432-438 | A cleanup that deletes nothing, and so notifies nobody, changes no watermark. |
| LongPoll.ShutdownHolds | app/services/event_store.py:138-142 | The flag is set exactly while no store was constructed since the last shutdown. |
| LongPoll.ShutdownForgotten | app/services/event_store.py:138-142 | A concrete run in which a waiter woken by a shutdown parks again. |
| Lifecycle.ExactlyOneExit | app/services/process_manager.py:1269-1317 | Over all interleavings of spawns, finishers, crashes and recoveries a process has exactly one terminal event, with its row's status, if its end went through the log, and none otherwise. |
| Lifecycle.EndedMeansOneExit | app/services/process_manager.py:1269-1317 | In every run in which the event store refuses no end, a process has ended if and only if it has exactly one terminal event. |
| Lifecycle.RowsAreTreatedSo | app/services/process_manager.py:1269-1317 | The status machine of rows over every reachable state and step: queued as inserted, running with its pid by a launch, ended once as its finisher, failed spawn or recovery says, with exit code and note; runtime writes touch the three runtime columns; nothing else changes a row. |
| Lifecycle.LogIsTreatedSo | app/services/event_store.py:174-287 | What a step appends: one terminal event telling how for a logged end, one start event with tool and pid for a logged launch, what it was told to emit, else nothing. |
| Lifecycle.AsksAreTreatedSo | app/services/process_manager.py:1427-1445 | The scheduler is asked exactly for what a spawn or an adoption wants: the workspace of its row, its key and its priority. |
| Lifecycle.OneClaimOneRelease | app/services/process_manager.py:167-173 | Per life of the service each process is claimed at most once, its row carries the claimer's status once recorded, a finished one gave its lease back, and no lease is given back twice. |
| Lifecycle.LeasesAreTheLiveProcesses | app/services/process_manager.py:1541-1562 | With no spawn or finisher in flight, active leases correspond one-to-one with the running table, whose rows are running; nobody is queued. |
| Lifecycle.TerminalIsFinal | app/services/event_store.py:199-206 | A terminal row keeps every modelled column but recovery note, heartbeat and output offset under every step; a step changes it if and only if it is a runtime write of that process, by a thread that holds its handle, with another value in one of those three. |
| Lifecycle.TerminalRowAfter | app/services/process_manager.py:1627-1632 | After any further steps a terminal row is what it was, with the note, heartbeat and output offset of exactly those later writes, in order. |
| Lifecycle.HeartbeatAfterTheEnd | app/services/process_manager.py:1615-1632 | A concrete run in which a heartbeat overwrites the note, heartbeat and output offset of a cancelled process. |
| Lifecycle.FinisherCompletes | app/services/process_manager.py:1541-1562 | No finisher is ever stuck: from any reachable state and stage its own remaining steps complete it. |
| Lifecycle.UninterruptedFinish | app/services/process_manager.py:1652-1680 | A claim and the claimer's steps, undisturbed, record the end, empty the table entry and give back exactly that process's lease. |
| Lifecycle.RunKeepsInv | app/services/process_manager.py:362-572 | Every reachable state: each number inside the scheduler has exactly one holder (a spawn, a live process or a finisher), and rows, handles and finishers agree stage by stage. |
| ProcessManager.RunningProcess.ClaimCompletion | app/services/process_manager.py:167-173 | True for the first caller only. |
| ProcessManager.RunningProcess.TakeLease | app/services/process_manager.py:257-262 | Hands the lease out once. |
| ProcessManager.ProcessManager.RecordEnd | app/services/process_manager.py:1269-1317 | Through the event store, or in the row alone when that is off or fails. |
| ProcessManager.ProcessManager.FinishProcess | app/services/process_manager.py:1652-1680 | The common finisher body: only the winner of the claim writes the row, drops the table entry and releases the lease, which is `Finished`; a loser changes nothing. |
| ProcessManager.ProcessManager.AdoptRecoveredProcess | app/services/process_manager.py:1465-1528 | Adopts after a second look and an immediate admission, releasing the lease again if the process is already in the table: `Recovery.Adopt`. |
| ProcessManager.ProcessManager.RecoverProcesses | app/services/process_recovery.py:76-180 | The loop equals the fold of `RecoverOne`; each counter is the number of records with its disposition and the four add up to the number of records. |
| Simulation.FinishIsARun | app/services/process_manager.py:1541-1562 | In every reachable state, what the manager's finisher body does is the claim and the claimer's own steps of the interleaving model. |
| Simulation.RecoveryIsARun | app/services/process_recovery.py:76-180 | After a crash in any reachable state, recovering the listed records is a sequence of steps of the interleaving model. |
| Simulation.RecoveredExits | app/services/process_recovery.py:183-196 | Hence after recovery too each process has at most one terminal event, carrying its row's status. |
| SchedulerIdle.AdmissionWhenIdle | app/services/process_manager.py:1481-1489 | With nobody waiting an adoption is admitted if and only if the machine has room and the workspace has no running process; otherwise it leaves no trace in queues or leases. |
| Recovery.RecoverOneIsRight | app/services/process_recovery.py:98-173 | One record is adopted or its row is ended with the status and reason of its disposition, given by `RecoveryRules.DispositionIsRuled`; an adoption adds one lease and one entry; no other row moves. |
| Recovery.RecoveryIsTotal | app/services/process_recovery.py:76-180 | After recovery every row that is not terminal is in the running table with an active lease of its workspace; terminal rows are untouched; leases equal adoptions, quotas hold, nobody waits. |
| Recovery.AdoptionIsExact | app/services/process_recovery.py:140-173 | Record i is adopted if and only if it is verifiably the same process, fewer than the global limit were adopted before it, and none of its workspace. |
| Recovery.ExitsPerRecord | app/services/process_recovery.py:183-196 | Each ended record whose end was logged gains exactly one terminal event carrying its disposition; nobody else gains any. |
| RecoveryRules.DispositionIsRuled | app/services/process_recovery.py:98-173 | For any list and probes: interrupted if and only if queued or its pid is not alive; lost if and only if alive with both identities known and different; recovery required if and only if without pid, with an identity unknown, or the same process but not taken back; taken back if and only if the same process on both looks and there is room. With the reason of each. |
| RecoveryRules.RowsAreRuled | app/services/process_recovery.py:157-196 | After the whole list each ended row carries status, exit code -1 and reason of its disposition, each row taken back its note, time and output size. |
| RecoveryRules.CountersAreRuled | app/services/process_recovery.py:90-180 | The counters are the numbers of records with those conditions, and add up to the number of records. |
| RecoveryRules.TakenBackEvent | app/services/process_manager.py:1515-1525 | Taking a process back leaves one start event marked recovered, with its tool and pid, if the log takes it. |
| RecoveryRules.TakenBackLeases | app/services/process_manager.py:1481-1489 | Each process taken back holds a lease with the write key of its workspace. |
| RecoveryRules.AlreadyRunning | app/services/process_manager.py:1511-1514 | A process already in the running table is not taken back twice: the lease goes back and nothing else changes. |
| Utf8.DecodeOfEncode | app/tools/powershell.py:305-312 | Decoding an encoded text gives the text (section 4 of RFC 3629). |
| Utf8.EncodeOfDecode | app/tools/powershell.py:305-312 | Encoding what was strictly decoded gives the bytes: well-formed files are exactly the encodings. |
| Utf8.DecodeCut | app/tools/powershell.py:305-312 | Whole characters and part of one more fail at the cut, with the unexpected-end error that the loop trims on. |
| OutputPages.ReadUtf8Bytes | app/tools/powershell.py:289-316 | The two loops over file position and data equal `Read`, for every file, offset and budget, malformed files included. |
| OutputPages.OffsetSnaps | app/tools/powershell.py:293-301 | Any offset snaps to the first character that starts at or after it, or to the end. |
| OutputPages.PageOfWholeChars | app/tools/powershell.py:302-312 | A page whose budget holds the first character is exactly the whole characters that fit, at least one, and says how many bytes they took. |
| OutputPages.MalformedPage | app/tools/powershell.py:302-312 | With malformed bytes a page takes its whole budget: the text before stands, the malformed place is one replacement character, decoding goes on behind it. |
| OutputPages.PagesAreTheText | app/tools/powershell.py:206-286 | For every text and any page sizes of at least four, the pages collected by following the cursors are the text. |
| OutputPages.PagesOfWellFormedFile | app/tools/powershell.py:206-286 | The same for every well-formed file: the pages encode back to the file. |
| OutputPages.Progress | app/tools/powershell.py:289-316 | For any bytes and any budget a page that does not start at the end takes something, so following cursors terminates. |
| OutputPages.CleanPages | app/tools/powershell.py:313-316 | A page that starts at a character ends at one if and only if the budget holds that character or the four-byte window ends at one; then nothing is replaced. |
| OutputPages.SmallBudgetCuts | app/tools/powershell.py:313-316 | A concrete text that a budget of one byte does not return. |
| OutputPages.CursorContinues | app/tools/powershell.py:223-286 | The returned cursor, given back with any page size, resumes exactly where the page ended. |
| OutputPages.OutputAnswers | app/tools/powershell.py:223-286 | A cursor overrides the offset and is checked first, against the exact form; the budget is held between 1 and 200000; a next cursor is given exactly while bytes are left and names where the page ended. |
| OutputPages.ReadProcessOutput | app/tools/powershell.py:206-286 | Invalid cursor, negative offset, or the page with its next cursor while there is more. |
| Supervision.AttemptsAreSpaced | app/services/supervisor.py:151-229 | With a clock that does not run backwards, consecutive starts of the MCP server are at least the backoff of the failures counted by then apart; so are the tunnel's unless a lost dependency ended the earlier one. |
| Supervision.NeverBelowInitial | app/config.py:222-229 | No delay is below the initial one if and only if the multiplier is at least one. |
| Supervision.LiveTunnelHasItsDependencies | app/services/supervisor.py:183-204 | After every tick a live tunnel is enabled and the server was healthy and the proxy ready in that tick. |
| Supervision.DroppedTunnelRestartsAtOnce | app/services/supervisor.py:187-204 | In every run, when a tick finds the server or proxy of a running tunnel gone, by an exit or a failed probe, and a gap of any length stays without them, the first ready tick adds exactly one attempt, with the failures of before the loss; the pair is spaced if and only if there was a failure and that tick is at least the delay after the earlier attempt. |
| Supervision.BackoffEventuallyCrashes | app/services/supervisor.py:321-328 | Some number of consecutive failures makes the power overflow if and only if the multiplier is above one. |
| SupervisionTicks.TickIsRight | app/services/supervisor.py:151-229 | What a tick does to both children from any state: started exactly when down and due (the tunnel also ready and passed by the doctor), each failure of whatever kind counted once and delaying the next start from its own time, stable health resetting the count, a tunnel without dependencies stopped, and the state shown. |
| SupervisionTicks.DelayGrows | app/services/supervisor.py:321-328 | The first delay is the initial one and each further failure multiplies it up to the cap. |
| Supervision.DefaultBackoffCrashesAt | app/services/supervisor.py:321-328 | With multiplier two scheduling fails exactly from the 1025th consecutive failure on. |
| SupervisorClass.ChildRuntime.ScheduleRestart | app/services/supervisor.py:321-334 | Counts the failure first, then sets the next start from the capped power, or dies on overflow with the count already raised. |
| SupervisorClass.ChildRuntime.CheckHealth | app/services/supervisor.py:160-181 | Healthy, still within the start-up time, or stopped and scheduled. |
| SupervisorClass.Supervisor.Tick | app/services/supervisor.py:151-229 | The whole tick over both children equals the `Tick` of the theorems, including where it dies. |

## Left out

- Git, SQLite and file-system mechanics, ignore rules, archive attributes, symlinks and submodules beyond their survival as immutable entries.
- The screening of edits that address a symlink or submodule, and path denial in staging: part of the arbitrary edit function.
- A call dies with its staging either present or gone whole: an undo of a stage call that dies between removing the staging directory and renaming the checkpoint (app/services/change_set_store.py:700-704) is not among the cuts.
- Journal writes other than the last of a commit, `commit_phase`, timestamps other than expiry, summaries, and the workspace revision counter.
- ChangeSetStore.Store.CleanupExpired: the pruning of old terminal payload directories is not modelled; it deletes files of closed sets only.
- Deletion of workspaces.
- Expiry at commit: the code does not check it and nothing is claimed.
- ChangeSetRuns.ReachableSetsAreBound: over runs without a crash inside a stage call, which `ChangeSetCuts` adds; the equality of staging and fold does not survive one.
- `wait_after`, `spawn`, `cancel`, `shutdown` and the watchdog loop as methods of an object: threads interleave inside them, so they are steps on values in `LongPoll` and `Lifecycle`.
- The supervisor's outer loop, stop requests, status file and shutdown of children.
- Interleaving inside one store call on one change set: commit and staging take different locks, and each call is one step here.
- ChangeSetCuts.OneActivePerWorkspace: rests on the unique index being checked inside the insert, which is modelled as an atomic test.
- Atomicity.CrashAtomicity: for manifests that meet the condition of `Atomicity.AtomicExactly`, which shows that the property is false of the code for every other one.
- Atomicity.AtomicExactly: takes it that in a tree no file lies inside another and that an apply leaves a worktree that a file system can hold.
- DigestInput.TextDeterminesFields: revisions of 64 or more digits are not covered.
- The blocking wait of `acquire` with a positive timeout appears as separate steps (arrival, wake-up, expiry); only admission with a timeout of zero is one method.
- EventStore.EventStore.Append: the search of the payload for sensitive keys is one Boolean input.
- White space is the ASCII part of what `str.strip` removes.
- Output offsets in the terminal event, request ids, `process.output` ranges and the `check.completed` event of check tools.
- EventRuns.NumbersAreConsecutive: for processes that append to one workspace, as the program's all do; numbering can restart once all events of a process are gone.
- LongPoll.SlotsAreCounted: stores on one database with different waiter limits share a counter; one limit is assumed.
- The generation counter's comparison inside the waiting loop is always true while the lock is held, so parking is unconditional in the model.
- A shutdown racing a spawn that is still under way, and unexpected exceptions between lease acquisition and publication.
- Lifecycle.RunKeepsInv: a process id is fresh when its row is inserted; recovery concerns ids with no spawn or handle in memory, as at start-up.
- Recovery without a manager, which adopts by assertion and writes no events.
- Pseudo-terminals, job objects, launching of programs, health and proxy probes, tunnel doctor, artifacts, logging and configuration loading.
- The pager's choice of stream, lookup of the process record and missing or unreadable files.
- Rounding of floating-point time and delays; only overflow of the power is modelled.
- The patch normaliser in `app/tools/patcher.py`, plans, envelopes and the tool registry: mostly single-branch claims.
