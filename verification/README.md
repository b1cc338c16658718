# Hosting control plane: verified models

A Dafny model of the parts of a hosting control plane that carry properties over whole
runs: the tenant backup store and its retention, backup policies with their history,
container locks, admission control for Docker operations and AI quotas, autoscale charges,
top-ups, the expiration of free hostings, the deduplicating table of security events, two
caches with a lifetime, the `.env` reader and rotator, and monthly partitions.

`dafny verify dfyconfig.toml` checks everything. There is one module per component.

| module | what it models |
|---|---|
| `BackupStore` | backup rows and the directory tree; queries, creation, deletion, retention (class `Backups`) |
| `BackupRuns` | retention bounds, protection and file agreement over sequential runs with faults |
| `BackupCalls` | what each call of the service does, case by case |
| `BackupProtocol` | the same service one transaction or directory move at a time, interleaved |
| `BackupPolicy` | policy row, append-only history, revert, effective policy (class `Policies`), and its calls interleaved |
| `PolicyFields` | what a policy call does to each field |
| `CleanupPreview` | the admin cleanup route and its dry run |
| `ContainerLock` | the Redis lease (classes `Redis`, `Lock`) and its interleavings |
| `Admission`, `DockerGuard`, `AiQuota` | check-then-act admission, and its two uses (classes `Guard`, `Quota`) |
| `Autoscale`, `PlanGate` | charging and timers (class `Orchestrator`), and the 60-second plan cache (class `UserCache`) |
| `Topup` | the top-up endpoint (class `Wallets`), and its calls interleaved |
| `Lifecycle`, `CleanupPass`, `ExpiryWarnings` | status machine, offset pagination over a shrinking result, rate-limited warnings (classes `Hostings`, `HostingTable`, `FreeHosting`) |
| `SecurityEvents` | the deduplicating table, its unique index and the aggregator that overwrites rows (class `EventTable`) |
| `TtlCache`, `CacheKey` | both caches (class `Cache`), and the key of the AI cache |
| `EnvFile` | the two regular expressions as a scanner, and the lens laws |
| `EnvForms` | which lines of a `.env` text are assignments |
| `Partitions` | month arithmetic and names (class `Catalog`) |

Code that updates state is a class whose methods are proved equal to a specification
function; runs, interleavings and all-inputs laws are then proved about that function.
A run is a sequence of calls or events. Faults are parameters: each call says where it
throws, and a purge says for each backup whether it throws before the files or before the
row.

## What the models assume

- Backup rows are inserted in `started_at` order and no two have the same stamp, so a
  backup_id is a row number and "newest" is the highest one. `rmtree` and the moves into
  the final directory are single steps. A path is recorded only with completion.
- A database statement with its commit takes effect or throws without effect. Where the
  code commits twice, the model has two steps.
- `get_expired_hostings` has no ORDER BY; its rows come in table order.
- Clocks are monotone. Money is in cents. Instants are in seconds.
- SHA-256 and JSON are injective. Codes of causes and actions are ordered as their strings.
- `.env` keys hold no white space and no `=`; values put in hold no backslash, which the
  replacement template would interpret. A text is free of lone CR where a law says so.

## Where the code and its own words differ

- `set_protected` promises a backup "immune to cleanup" (app/api/routes/admin_backup.py:360);
  both TTL clean-ups ignore the protection (`BackupRuns.SweepOnProtected`).
- The comment "Lock: no duplicate running backup" (app/services/tenant_backup_service.py:585)
  stands over a check that is no lock (`BackupProtocol.TwoCreatesLoseEverything`).
- `upsert_policy` selects FOR UPDATE on a connection it gives back at once
  (`BackupPolicy.OverlapLosesTheFirst`), and a stored 0 is read as a default
  (`BackupPolicy.StoredZerosReadAsDefaults`).
- The dry run reports deletions that the live run does not make at a limit of 0
  (`CleanupPreview.PreviewAgainstLive`).
- Duplicate top-ups are said to be rejected (app/infra/migrations.py:413); a failure between the commits, an
  overlap or a key shared by two users credits twice (`Topup.RetryAfterFault`,
  `Topup.OverlappingCopies`, `Topup.RepeatIsIdempotent`).
- The orchestrator adds `_debug_hash` so that answers for different errors are not mixed;
  the key ignores it (`CacheKey.SameKeyIff`).
- Thresholds escalate severities as counts rise (app/services/security_event_service.py:30-47);
  the aggregator overwrites both with its window, so they fall again and 20 failed logins can
  stay a warning (`SecurityEvents.StepLowers`, `SecurityEvents.StepBreaksThreshold`).
- "Dedup if an open event exists within five minutes, else insert"
  (app/services/security_event_service.py:16): the unique index drops the insert silently
  (`SecurityEvents.RepeatReport`).
- Cleanup is described "for every hosting already expired" (app/services/expiration_job.py:100);
  a pass reaches all of them only up to 50 (`CleanupPass.OneGoodPass`).

## Model

| member | source | states |
|---|---|---|
| BackupStore.Newest | app/services/tenant_backup_service.py:430-445 | the answer of SELECT backup_id WHERE p ORDER BY started_at DESC: exactly the rows that satisfy p, newest first |
| BackupStore.NewestRank | app/services/tenant_backup_service.py:436-449 | a selected row stands in the answer behind exactly the selected rows newer than it, so slicing at a limit cuts off those with at least that many newer ones |
| BackupStore.PreviousAutos | app/services/tenant_backup_service.py:383-404 | what the automatic cleanup may delete: only completed, unprotected scheduled backups of the hosting, newest first |
| BackupStore.ExcessManuals | app/services/tenant_backup_service.py:429-448 | what the manual cleanup may delete: only completed, unprotected manual backups of the hosting, newest first |
| BackupStore.CrowdedOf | app/services/tenant_backup_service.py:429-448 | the slice behind the limit is the set of manual backups with at least `limit` newer unprotected ones; empty when the limit is not positive |
| BackupStore.SupersededOf | app/services/tenant_backup_service.py:1019-1035 | keeping the newest automatic backup and deleting the other unprotected ones deletes exactly those that a newer completed one supersedes |
| BackupStore.PurgeTwice | app/services/tenant_backup_service.py:408-426 | deleting two sets of backups one after the other, with the same failures, is deleting their union: the loops do not depend on order |
| BackupStore.SweptAdds | app/services/tenant_backup_service.py:963-1052 | the three phases of the periodic sweep, each with its own queries on what the phase before left and each able to stop at a query that raises, delete one set of backups computed from the first state, and their counts add up |
| BackupStore.SweptIsSweep | app/services/tenant_backup_service.py:963-1052 | a sweep in which no query raises deletes every expired, superseded and excess backup; one broken off by a query deletes a part of them |
| BackupStore.Backups.PurgeAll | app/services/tenant_backup_service.py:408-426 | the deletion loop: files first, then the row; a throw skips to the next backup; returns how many rows were marked |
| BackupStore.Backups.CleanupAutomaticPrevious | app/services/tenant_backup_service.py:383-426 | deletes exactly the selected automatic backups, up to failures, and counts them |
| BackupStore.Backups.CleanupManualExcess | app/services/tenant_backup_service.py:429-466 | deletes exactly the manual backups behind the limit, up to failures, and counts them |
| BackupStore.Backups.CleanupExpiredTtl | app/services/tenant_backup_service.py:469-500 | deletes exactly the finished backups whose expiry has passed, protected or not, up to failures, and counts them |
| BackupStore.Backups.CreateTenantBackup | app/services/tenant_backup_service.py:519-788 | the create call with every place it can throw, its except handler (which may throw too) and the retention cleanup |
| BackupStore.Backups.DeleteTenantBackup | app/services/tenant_backup_service.py:843-880 | deletes files and row of one backup, unless it is missing, somebody else's or protected; files go first, so a throw may leave a row without files |
| BackupStore.Backups.SetProtected | app/services/backup_policy_service.py:485-517 | sets the protection of one backup and nothing else; false when there is no such backup |
| BackupStore.Backups.SweepAutomatic | app/services/tenant_backup_service.py:1006-1035 | phase 2, hosting by hosting, deletes exactly the superseded automatic backups of the hostings it reaches, and reaches them all unless a query raises |
| BackupStore.Backups.SweepManual | app/services/tenant_backup_service.py:1037-1052 | phase 3, hosting by hosting, deletes exactly the manual backups behind the limit of the hostings it reaches, and reaches them all unless a query raises |
| BackupStore.Backups.CleanupBackupRetention | app/services/tenant_backup_service.py:963-1062 | the whole sweep is one deletion of what it reaches before its first query that raises; it returns if and only if none does, and then its three counts add up to the rows marked and `errors` is the expired backups not marked |
| BackupRuns.ScheduledKeepsOne | app/services/tenant_backup_service.py:383-426 | after a fault-free scheduled run the new backup is the only unprotected completed automatic one, with its directory |
| BackupRuns.ManualKeepsNewest | app/services/tenant_backup_service.py:738-746 | after a fault-free manual run with limit k >= 1 the newest k unprotected manual backups are left, the new one first |
| BackupRuns.SweepPreserves | app/services/tenant_backup_service.py:963-1052 | with any failures the sweep raises no count and leaves row and files of each hosting's newest automatic backup alone |
| BackupRuns.SweepEstablishesBounds | app/services/tenant_backup_service.py:1006-1052 | without failures the sweep leaves each hosting at most one unprotected automatic backup and exactly its newest k manual ones |
| BackupRuns.BrokenSweepIsSweep | app/services/tenant_backup_service.py:963-1052 | a sweep broken off by a query is a whole one in which the deletions it did not reach throw first, so every law over runs with faults covers it |
| BackupRuns.RunKeepsNoExpiry | app/services/tenant_backup_service.py:602-611 | over every run with any failures only internal snapshots carry an expiry, and no row disappears |
| BackupRuns.SweepOnProtected | app/services/tenant_backup_service.py:976-986 | the sweep deletes a protected backup if and only if its expiry has passed, so only an internal snapshot: "immune to cleanup" is not true of those |
| BackupRuns.ProtectedSurvives | app/services/tenant_backup_service.py:383-500 | over every run with any failures a protected manual or scheduled backup keeps its row and its files until the protection is lifted |
| BackupRuns.FilesAgree | app/services/tenant_backup_service.py:334-376 | over every run: a deleted row has a directory only if its path was never recorded; none at all if no create call strands its files; without failures the directories are exactly those of the completed rows |
| BackupRuns.DeletionLeavesFiles | app/services/tenant_backup_service.py:843-880 | deleting a backup leaves its directory behind if and only if the row never recorded the path |
| BackupRuns.StrandedFiles | app/services/tenant_backup_service.py:767-786 | a create call that throws after moving its files, and whose except handler throws, followed by a deletion: a deleted row with a directory |
| BackupRuns.RunKeepsOneAtATime | app/services/tenant_backup_service.py:585-617 | over every sequential run with any failures no hosting has two unfinished backups |
| BackupRuns.DeletionStaysWithinItsBackup | app/services/tenant_backup_service.py:843-880 | a deletion on request touches no other backup, nothing protected and nothing of another user, and reports success whenever it newly deletes the row, and never without the row being deleted |
| BackupRuns.StuckBackupBlocks | app/services/tenant_backup_service.py:585-600 | a row left running blocks every later backup of its hosting, over every run, until that backup is deleted by hand |
| BackupRuns.HandlerThrowLeavesRunning | app/services/tenant_backup_service.py:767-776 | an exception whose handler throws leaves the new row running |
| BackupCalls.Selections | app/services/tenant_backup_service.py:383-500 | the WHERE clauses written out: which rows count as automatic, unprotected, manual and expired |
| BackupCalls.RefusedExactly | app/services/tenant_backup_service.py:534-600 | each refusal if and only if its condition, in the order of the checks, with the plans and triggers by name; a refused call changes nothing |
| BackupCalls.EndsExactly | app/services/tenant_backup_service.py:641-789 | a call that is let in is done, failed or raised, decided by what throws |
| BackupCalls.CreateStores | app/services/tenant_backup_service.py:602-617 | a finished backup belongs to the hosting and its owner, is completed, unprotected and on disk, and expires after the configured lifetime if and only if it is an internal snapshot |
| BackupCalls.CreateTouches | app/services/tenant_backup_service.py:738-746 | whatever fails, a create call at most deletes completed unprotected backups of the same hosting and kind, and an internal snapshot none |
| BackupCalls.FailedLeavesARow | app/services/tenant_backup_service.py:767-786 | a failed call leaves a failed row, no directory, and all else as it was |
| BackupCalls.RaisedLeavesAll | app/services/tenant_backup_service.py:767-776 | if the handler throws too, row and directory stay as they were at the throw |
| BackupCalls.ManualQuota | app/services/tenant_backup_service.py:745-746 | a manual call without an override keeps the newest 1 on Negocio and the newest 2 on Agencia and the automatic plans, whatever the environment says; with one the number of the environment, or all if that is not positive |
| BackupCalls.CleanupKeepsNewestAutomatic | app/services/tenant_backup_service.py:383-426 | the cleanup of automatic backups leaves exactly the newest unprotected one |
| BackupCalls.SnapshotExpires | app/services/tenant_backup_service.py:602-611 | an internal snapshot is swept if and only if its lifetime has passed, files included |
| BackupCalls.SweepTouches | app/services/tenant_backup_service.py:963-1052 | row by row what a sweep without faults deletes: expired, superseded or crowded out, each written out; every other row and directory stays |
| BackupCalls.DeleteExactly | app/services/tenant_backup_service.py:843-880 | who may delete what, the result in each case, and what is left of row and files |
| BackupCalls.ProtectExactly | app/services/backup_policy_service.py:485-517 | protection is one flag, set or lifted, and undone by the opposite call |
| BackupProtocol.NewestHasItsFiles | app/services/tenant_backup_service.py:383-426 | any number of processes, any interleaving of single steps, a throw or crash at any of them: with one job per hosting at a time the newest completed automatic backup of every hosting has its directory |
| BackupProtocol.SurvivorKept | app/services/tenant_backup_service.py:641-789 | under the same schedules a hosting that had a completed automatic backup still has one, with its files |
| BackupProtocol.AloneIsCreate | app/services/tenant_backup_service.py:519-788 | left alone and without faults the single steps of a create call, in some order of deletions, do exactly what the call does |
| BackupProtocol.PurgesAll | app/services/tenant_backup_service.py:408-426 | left alone a purge step by step ends in the state of one deletion of its whole list |
| BackupProtocol.TwoCreatesLoseEverything | app/services/tenant_backup_service.py:585-617 | check and insert are separate transactions: two scheduled calls on one hosting delete each other's backup and the old one, and nothing is left |
| BackupProtocol.SweepLosesNewBackup | app/services/tenant_backup_service.py:1020-1034 | the sweep reuses the id it read first: a call that completes in between deletes that backup, and the sweep deletes the new one |
| BackupPolicy.Policies.UpsertPolicy | app/services/backup_policy_service.py:237-408 | creates the row from the plan's defaults or updates the given fields; the history entry is a second transaction that may fail after the first |
| BackupPolicy.Policies.RevertPolicy | app/services/backup_policy_service.py:441-482 | upserts the snapshot before the entry; an unknown entry changes nothing |
| BackupPolicy.Policies.PauseBackups | app/api/routes/admin_backup.py:183-201 | sets paused and the reason through an upsert |
| BackupPolicy.Policies.ResumeBackups | app/api/routes/admin_backup.py:206-224 | clears paused through an upsert |
| BackupPolicy.ChainStep | app/services/backup_policy_service.py:388-389 | a call keeps new[i] == previous[i+1] and last new == row if and only if it does not change the row without recording it |
| BackupPolicy.ChainKept | app/services/backup_policy_service.py:211-234 | over every run in which no history write fails, the history is a chain from nothing to the current row |
| BackupPolicy.HistoryAppends | app/services/backup_policy_service.py:211-234 | whatever fails, old entries stay as they are and exactly one entry is added for each successful call, in order |
| BackupPolicy.InterleavedChain | app/services/backup_policy_service.py:274-408 | over every interleaving of reads, writes, history writes and failures of any number of calls, in which no other write falls between a call's read and its history write: once nothing is unrecorded the history is a chain from nothing to the row |
| BackupPolicy.AloneIsUpsert | app/services/backup_policy_service.py:237-408 | the three steps of a call left alone do what the call does |
| BackupPolicy.RevertRestores | app/services/backup_policy_service.py:441-482 | after any run a revert restores twelve fields, and paused_reason too if and only if the snapshot has one or the row has none |
| BackupPolicy.RevertTheRevert | app/services/backup_policy_service.py:441-482 | reverting the revert restores the row it replaced, again up to a paused_reason the row did not have |
| BackupPolicy.RevertingCreationDoesNothing | app/services/backup_policy_service.py:458-482 | the first entry has an empty snapshot: reverting it changes no field |
| BackupPolicy.PauseThenResume | app/api/routes/admin_backup.py:183-224 | pausing and resuming leaves the reason of the pause in the row |
| BackupPolicy.PauseExactly | app/api/routes/admin_backup.py:183-224 | pausing sets the flag and the reason and nothing else; resuming clears the flag and nothing else |
| BackupPolicy.OverlapLosesTheFirst | app/services/backup_policy_service.py:274-386 | the FOR UPDATE lock is given back before the write: a run of the machine in which two calls read before either writes ends with the row of the second alone, and breaks a chain if and only if the first changed anything |
| BackupPolicy.StoredZerosReadAsDefaults | app/services/backup_policy_service.py:166-185 | after any run the effective policy is the stored one if and only if none of its four numbers is zero; a stored zero reads as the default |
| BackupPolicy.CreatingARowChangesTheLimit | app/services/backup_policy_service.py:88-111 | creating a row without any change keeps the effective policy if and only if the plan allows manual backups; otherwise the manual limit goes from 0 to 2 |
| PolicyFields.UpdateExactly | app/services/backup_policy_service.py:338-386 | an update stores each given argument in its field and leaves every other field, independently; id kept, caller and clock stamped, one history entry |
| PolicyFields.CreateExactly | app/services/backup_policy_service.py:277-336 | a first call stores the given arguments over the plan's defaults, written out for each plan |
| PolicyFields.FaultsExactly | app/services/backup_policy_service.py:262-390 | each failure if and only if its cause, and what is written by then |
| PolicyFields.RevertExactly | app/services/backup_policy_service.py:441-482 | a revert stores the twelve fields of the snapshot, and its reason of a pause if it has one; an unknown entry is refused |
| PolicyFields.UpdatesCompose | app/services/backup_policy_service.py:237-386 | two updates are one update with the later arguments over the earlier ones, field by field, with or without a row |
| PolicyFields.EffectiveExactly | app/services/backup_policy_service.py:111-185 | each field of the effective policy, and its source in order of precedence |
| CleanupPreview.AdminCleanup | app/api/routes/admin_backup.py:228-319 | the cleanup route in every mode, dry or live, with any of its statements raising after the parts before it have run |
| CleanupPreview.FilterLoop | app/api/routes/admin_backup.py:262-286 | the list comprehensions of the dry run |
| CleanupPreview.DryRunChangesNothing | app/api/routes/admin_backup.py:235-236 | a dry run leaves the store as it is, whatever raises |
| CleanupPreview.PreviewAgainstLive | app/api/routes/admin_backup.py:257-287 | on one page of backups the automatic counts of dry and live run agree, and the manual counts agree if and only if the limit is positive or nothing exceeds it; beyond a page the preview never exceeds the live count (for a positive limit) |
| CleanupPreview.ListingExactly | app/services/tenant_backup_service.py:794-812 | a backup is listed if and only if it is the hosting's, not deleted, and fewer than twenty such are newer |
| CleanupPreview.PartsExactly | app/api/routes/admin_backup.py:235-310 | each part runs in its own mode and in all_safe only, with a hint, a preview or a count |
| CleanupPreview.LiveRunEstablishes | app/api/routes/admin_backup.py:240-310 | a live run without faults leaves the newest unprotected automatic backup alone, the newest manual ones up to a positive limit, and nothing expired, each in its modes |
| CleanupPreview.RaisedExactly | app/api/routes/admin_backup.py:228-319 | the route answers 500 if and only if a query or the policy lookup of a part it reaches raises, with the parts before it done |
| ContainerLock.Lock.Enter | app/infra/container_locks.py:54-66 | SET NX with a TTL: acquired if and only if it was answered and the key was not live, else 409, or the exception of the SET, which may have set the key |
| ContainerLock.Lock.Exit | app/infra/container_locks.py:68-75 | deletes the key, whoever set it, if this object holds; a raising DELETE is swallowed |
| ContainerLock.SetHoldsThirtySeconds | app/infra/container_locks.py:33-66 | a key is set if and only if no live one is there, and lives thirty seconds and no longer |
| ContainerLock.InsidersBounded | app/infra/container_locks.py:48-75 | any clients, any interleaving of acquire, release, crash and clock: at most 1 plus the number of holds so far that outlived the TTL are inside |
| ContainerLock.MutualExclusion | app/infra/container_locks.py:48-75 | as long as every hold ends within the TTL, at most one client is inside |
| ContainerLock.FreeWithinOneTtl | app/infra/container_locks.py:33-35 | whatever happened before, crashes included, the key is free after one TTL of silence and the next client gets in |
| ContainerLock.BoundIsReached | app/infra/container_locks.py:48-75 | the bound is exact: for every n some run has n overruns and n + 1 clients inside |
| ContainerLock.OneOverrunAdmitsTwo | app/infra/container_locks.py:68-75 | the late DELETE of one overrun removes another's key: two clients within their TTL are inside together |
| Admission.AdmissionBound | app/api/saturation_guard.py:86-94 | check-then-act, proved once: with at most p requests between check and count, counted + pending <= limit - 1 + p in every run |
| Admission.BoundIsReached | app/api/saturation_guard.py:86-94 | for every positive limit and p some run reaches that bound |
| DockerGuard.Guard.DockerCapacity | app/api/saturation_guard.py:86-101 | passes if and only if the counter the backend answers with is below the maximum |
| DockerGuard.Guard.IncrInflight | app/api/saturation_guard.py:57-67 | increments the Redis counter, or the in-process one when Redis is missing or raises |
| DockerGuard.Guard.DecrInflight | app/api/saturation_guard.py:70-83 | decrements with a clamp at zero; a raising Redis decrements nothing |
| DockerGuard.CommandsExactly | app/api/saturation_guard.py:57-83 | each command moves the counter of its backend by one and no other, a raising DECR none, and none below zero |
| DockerGuard.PairingIsExact | app/api/saturation_guard.py:57-83 | an increment and a decrement cancel if and only if both reached Redis, or the increment missed it and the decrement found no Redis client |
| DockerGuard.CounterIsExact | app/api/saturation_guard.py:117-139 | with one backend throughout the counter is running plus crashed operations in every run, so the clamp never fires; a Redis that keeps raising also counts every ended one |
| DockerGuard.RunRefines | app/api/saturation_guard.py:86-139 | each step of the guard is a step of the admission gate |
| DockerGuard.DockerOpsBounded | app/api/saturation_guard.py:86-139 | running + crashed + pending <= limit - 1 + p in every run |
| AiQuota.Quota.CountUsage | app/services/ai_quota_service.py:26-39 | the sum of units since an instant, as a loop |
| AiQuota.Quota.CheckAiQuota | app/services/ai_quota_service.py:56-108 | the check with its branches, limits and reset times |
| AiQuota.Quota.RecordAiUsage | app/services/ai_quota_service.py:111-132 | appends one usage row, or nothing when the INSERT raises |
| AiQuota.CheckLooksAtEveryLimit | app/services/ai_quota_service.py:56-108 | the check passes if and only if every window the plan is limited in is below its limit; a refusal names such a limit, the use that reaches it and the end of that window |
| AiQuota.CheckExactly | app/services/ai_quota_service.py:56-108 | 10 in all, 3 a day, or the plan's number a month: the outcome in each case |
| AiQuota.WindowsExactly | app/services/ai_quota_service.py:56-92 | a past use falls in a window if and only if it is of the same day, of the same month, or since 2020 |
| AiQuota.RecordedCounts | app/services/ai_quota_service.py:26-39 | a recorded call adds its units to the windows it falls in and to no other |
| AiQuota.NextDayIsOneLater | app/services/ai_quota_service.py:84-87 | the next day is one day later by the Gregorian day number, leap years included |
| AiQuota.NextMonthIsNext | app/services/ai_quota_service.py:92-98 | the next month begins on its first, after the days left |
| AiQuota.DayEndsAtReset | app/services/ai_quota_service.py:74-87 | the daily reset time is the first instant of the next calendar day: every instant before it is in the same day, none after it |
| AiQuota.MonthEndsAtReset | app/services/ai_quota_service.py:92-98 | the same for months, December included |
| AiQuota.ResetLetsIn | app/services/ai_quota_service.py:84-107 | a caller refused with a reset time is let in at that time and later, if nothing was recorded since |
| AiQuota.QuotaBound | app/services/ai_quota_service.py:56-132 | with at most p calls between check and record, over every run and every clock, each limited window holds at most limit - 1 + p uses and pending calls |
| AiQuota.SequentialUse | app/services/ai_quota_service.py:22-23 | one call at a time: at most 3 a day and 10 in all on the free plan, at most the monthly limit otherwise, across day and month changes |
| Autoscale.Orchestrator.DeductBalanceIfSufficient | app/infra/audit/user_repository.py:125-137 | subtracts the amount if and only if the balance covers it |
| Autoscale.Orchestrator.UpdateBalance | app/infra/audit/user_repository.py:139-146 | adds the amount, or throws without effect |
| Autoscale.Orchestrator.UpdateAndSchedule | app/services/orchestrator.py:271-295 | the try block: docker update, refund on a nonzero code, event log, timer |
| Autoscale.Orchestrator.ApplyAutoscale | app/services/orchestrator.py:244-299 | the whole call with every outcome of docker and a throw at every later step, both refunds included |
| Autoscale.Orchestrator.RevertScaling | app/services/orchestrator.py:219-240 | the timer's revert; the timer leaves the registry whatever docker says |
| Autoscale.CallConserves | app/services/orchestrator.py:263-299 | for every call and combination of faults: a timer is registered if and only if the call charges and nothing fails; "-5 cents if and only if a timer" holds if and only if the call, judged by its inputs, does not charge, fail and lose the last refund; nobody else's balance moves |
| Autoscale.LostRefundHappens | app/services/orchestrator.py:271-299 | an input at which it does not hold: docker answers nonzero and both refunds throw, 5 cents for nothing |
| Autoscale.CallExactly | app/services/orchestrator.py:244-299 | for every call: the result, the limits, the timer and the 5 cents, each by its own condition on the inputs |
| Autoscale.RevertExactly | app/services/orchestrator.py:219-240 | a firing timer takes the limits back unless docker refused or raised without effect; no other container changes |
| Autoscale.LedgerBalances | app/services/orchestrator.py:263-299 | over every run a balance is the opening balance plus top-ups, minus other spending, minus 5 for each call whose inputs make it charge and either start a timer or lose its refund |
| Autoscale.AutoscaleSafety | app/services/orchestrator.py:219-299 | over every run no balance goes negative, no container has two live timers, and the containers with autoscale limits are exactly those with a live timer and those left by a throw between update and registration, a failed revert or a restart, none of them both |
| Autoscale.ScaledAndBack | app/services/orchestrator.py:219-299 | after any run a call that registers raises the limits under a timer, and when docker obeys that timer neither limits, stray entry nor registration is left |
| Autoscale.StrayLimits | app/services/orchestrator.py:282-299 | a throwing event log refunds the user and leaves the limits raised with no timer |
| PlanGate.UserCache.GetUserCached | app/services/orchestrator.py:313-319 | answers from the entry if it is younger than 60 s, else reads and stamps a new one; a raising query changes nothing |
| PlanGate.UserCache.IsPaidPlan | app/services/orchestrator.py:104-118 | true only for a record with a plan other than free; a raising query answers False |
| PlanGate.BoundedStaleness | app/services/orchestrator.py:104-118 | for any interleaving of plan changes, cache fills and commands: a command at t was preceded by a moment, less than 60 s plus fill and command latency before t, at which the plan in the database was paid |
| PlanGate.StaleCommand | app/services/orchestrator.py:301-319 | the bound is reached: for every d below 60 and any two latencies a run issues a command a + d + b seconds after the plan went free, so beyond a minute too |
| Topup.Wallets.TopUp | app/api/main.py:952-1000 | the endpoint with an exception at any point: validation, idempotency lookup, credit, key insert, final read |
| Topup.CallExactly | app/api/main.py:952-1000 | 1 to 100000 cents are accepted; when a call replays, credits, records its key, and what it answers; an empty key is none |
| Topup.ExactlyOnce | app/api/main.py:952-995 | over any sequence of calls and retries without a failure between the two commits and without shared keys, a balance grows by one amount per distinct key and one per keyless call |
| Topup.ReportsTheBalance | app/api/main.py:973-995 | a success reports the balance as it then is; nobody else's balance moves and no key changes its owner |
| Topup.RepeatIsIdempotent | app/api/main.py:958-973 | repeating a call credits nothing more if and only if the key was free or the user's own: the table's key omits the user |
| Topup.RetryAfterFault | app/api/main.py:975-989 | a failed attempt and a retry credit the amount once if and only if the failure was not between the commits, else twice |
| Topup.InterleavedExactlyOnce | app/api/main.py:952-995 | over every interleaving of the steps of any number of calls and failures, in which no other write on a key falls between a call's look and its record: a balance grows by the payments to its user and no key is paid twice |
| Topup.AloneIsCall | app/api/main.py:952-995 | the three steps of a keyed call left alone do what the endpoint does |
| Topup.OverlappingCopies | app/api/main.py:958-989 | a run of that machine in which two copies look before either pays credits twice |
| Lifecycle.Hostings.ExpireSingle | app/services/expiration_job.py:50-94 | expiring, then expired on exit code 0, active on any other; stuck in expiring when the stop times out or the status write after it raises; an event log that raises after 'expired' leaves it expired without a result |
| Lifecycle.Hostings.RecoverStaleExpiring | app/services/expiration_job.py:17-47 | the recovery loop; the first timeout or raising status write ends it |
| Lifecycle.ExpireExactly | app/services/expiration_job.py:50-94 | exit code 0 gives expired, any other active, no answer leaves expiring; nobody else's status moves |
| Lifecycle.RecoverExactly | app/services/expiration_job.py:30-42 | the same exit codes decide for a stale hosting |
| Lifecycle.RecoveryReaches | app/services/expiration_job.py:30-47 | recovery settles the stale hostings before the first timeout by their exit codes and touches nothing else |
| Lifecycle.OnlyLegalMoves | app/services/expiration_job.py:17-155 | every schedule of jobs and parallel workers, crash or timeout at any point: each step moves a hosting along active->expiring->{expired, active}, expired->deleted, or not at all |
| Lifecycle.ExpiredMeansStopped | app/services/expiration_job.py:61-68 | expired is written only after a docker stop of that hosting returned 0, with nothing about it in between |
| Lifecycle.DeletedIsFinal | app/services/expiration_job.py:134 | a deleted hosting stays deleted |
| Lifecycle.AloneIsExpireSingle | app/services/expiration_job.py:50-94 | a worker left alone in the interleaved machine does what the sequential function does |
| Lifecycle.CrashIsRecovered | app/services/expiration_job.py:30-42 | after a crash the next job finds each hosting stuck in expiring, and the exit code of its stop decides |
| Lifecycle.OverlapRevivesDeleted | app/services/expiration_job.py:59-91 | two jobs at once: an unconditional write brings a deleted hosting back to active |
| CleanupPass.HostingTable.GetExpiredHostings | app/infra/audit/hosting_repository.py:102-113 | one page of the expired rows in table order: at most 50, only expired ones, the k-th with exactly offset + k expired rows before it; empty if and only if the offset is at or beyond their number, and short only at their end |
| CleanupPass.HostingTable.CleanPage | app/services/expiration_job.py:117-151 | the loop over one page: rows that do not raise before the mark are deleted; those that raise nowhere are counted |
| CleanupPass.HostingTable.CleanupExpiredHostings | app/services/expiration_job.py:97-155 | the pass terminates whatever fails, deletes exactly the rows it processes without a raise, and returns their count |
| CleanupPass.PageLeaves | app/services/expiration_job.py:113-153 | after a page the query returns the rows before it, those of it that stayed, and the rows behind it |
| CleanupPass.PassIsSafe | app/services/expiration_job.py:112-153 | a pass processes only expired rows and none twice, whatever fails |
| CleanupPass.PassExactly | app/services/expiration_job.py:117-151 | a processed row that does not raise before its mark goes from expired to deleted; every other row stays as it was |
| CleanupPass.PassCounts | app/services/expiration_job.py:117-155 | the number returned is that of the processed rows that raised nowhere |
| CleanupPass.OneGoodPass | app/services/expiration_job.py:109-155 | a pass without failures over n rows deletes exactly 50*(n/100) + min(50, n%100) of them: at least half, and all if and only if n <= 50 |
| CleanupPass.FiftyAtOnce | app/services/expiration_job.py:97-155 | up to fifty expired hostings, exactly these are deleted in one good pass; of more, some are left |
| CleanupPass.LogarithmicPasses | app/services/expiration_job.py:97-155 | p good passes empty any backlog smaller than 2^p |
| ExpiryWarnings.FreeHosting.JobLooks | app/services/expiration_job.py:189-257 | one look at a hosting: skip, expire, warn or stay quiet |
| ExpiryWarnings.LookExactly | app/services/expiration_job.py:189-257 | in seconds to the date, set for the user or fourteen days after creation: expire, warn once a day in the last three days, or nothing |
| ExpiryWarnings.ExpiresOnTime | app/services/expiration_job.py:192-213 | a hosting is queued for expiry if and only if it has a date and the date has come; it is skipped if and only if the date is 2099 or unreadable |
| ExpiryWarnings.AtMostThreeWarnings | app/services/expiration_job.py:214-236 | over any schedule of jobs at most 3 warnings, pairwise at least 24 h apart, each from a job started within the last 3 days before the date and stamped at most the job's latency after it |
| ExpiryWarnings.ThreeIsReached | app/services/expiration_job.py:214-236 | an hourly job warns exactly three times, a day apart, under either kind of date |
| ExpiryWarnings.LateStamp | app/services/expiration_job.py:214-236 | that latency is reached: a job started before the date stamps its warning after it |
| SecurityEvents.EventTable.LogSecurityEvent | app/services/security_event_service.py:50-173 | dedup update of the newest open match of five minutes, else insert, else refused by the unique index |
| SecurityEvents.EventTable.ResolveSecurityEvent | app/services/security_event_service.py:206-225 | resolves an open event; true if and only if it was open |
| SecurityEvents.EventTable.AggregateRule | app/services/aggregate_wp_attacks.py:163-247 | one rule of the aggregator over all groups of its window: below the threshold skipped and counted so, else upserted, a raising group passed over; created counts the new rows |
| SecurityEvents.ReportExactly | app/services/security_event_service.py:76-133 | a report adds one to the newest row of its incident of the last 300 seconds and escalates it at 5 and 20, or is stored as said with count 1, or leaves no trace |
| SecurityEvents.ResolveExactly | app/services/security_event_service.py:206-225 | resolving closes an open event, once, and nothing else |
| SecurityEvents.ResolvedMakesRoom | app/services/security_event_service.py:116-133 | in any reachable table the next report of a resolved event's type and hosting opens a new one |
| SecurityEvents.AggregateExactly | app/services/aggregate_wp_attacks.py:62-128 | one group: nothing below 5, 3 or the configured number; else the open event takes over its count and severity, or a new one is opened |
| SecurityEvents.WindowIsShown | app/services/aggregate_wp_attacks.py:163-247 | after a rule has gone over its window every group big enough that did not raise is an open event with its count and severity |
| SecurityEvents.TallyExactly | app/services/aggregate_wp_attacks.py:188-247 | skipped counts the groups below the threshold, created and updated those written |
| SecurityEvents.Target | app/services/security_event_service.py:90-100 | the row the dedup updates: a match with no newer match, and one whenever there is any |
| SecurityEvents.EscalationsAgree | app/services/security_event_service.py:38-47 | the SQL CASE equals _escalated_severity if and only if the severity is a known one or the count is below 5 or at least 20 |
| SecurityEvents.CountedOnceOrDropped | app/services/security_event_service.py:76-133 | a call adds exactly 1 to the counts of its type or leaves the table unchanged; the latter if and only if it raises or the index refuses a report without a match of the last five minutes |
| SecurityEvents.TotalIsAccepted | app/services/security_event_service.py:76-133 | over every run of all writers the counts of a type that no upsert of the run uses grow by the calls about it that returned an id |
| SecurityEvents.StepLowers | app/services/aggregate_wp_attacks.py:92-104 | a step lowers a count if and only if it is an upsert that hits the row and counts fewer events in its window, and a severity if and only if the rule grades that number lower |
| SecurityEvents.RowsOnlyGrow | app/services/security_event_service.py:85-89 | over every run of all writers no row disappears, moves or is reopened, and no count or severity drops of a type that no upsert of the run uses |
| SecurityEvents.LaterWindowLowers | app/services/aggregate_wp_attacks.py:92-104 | 25 failed logins in one window and 6 in a later one: the count falls from 25 to 6 and critical to warning |
| SecurityEvents.TableIsSound | app/infra/migrations.py:841 | over every run of all writers: at most one open event per type and non-null hosting; count >= 20 is critical for every type but the rate-limit one; count >= 5 of a known severity is at least warning |
| SecurityEvents.StepBreaksThreshold | app/services/aggregate_wp_attacks.py:45-46 | a step leaves a count >= 20 below critical if and only if it is an upsert of the rate-limit rule with at least 20 events in its window |
| SecurityEvents.RateLimitStaysWarning | app/services/aggregate_wp_attacks.py:45-46 | 25 failed logins from one address: a count of 25 that is a warning |
| SecurityEvents.RepeatReport | app/services/security_event_service.py:91-98 | in any reachable table, a report of the type and hosting of an open event counts if and only if category and address are those of the event and it is not older than five minutes; otherwise it leaves no trace |
| TtlCache.Cache.GetCached | app/core/ai_cache.py:76-99 | Redis answers if it works; else the dictionary, dropping an expired entry |
| TtlCache.Cache.PurgeExpired | app/core/ai_cache.py:63-69 | removes exactly the expired entries; zero if and only if nothing changed |
| TtlCache.Cache.OldestKey | app/services/fix_memory.py:97 | min over the time stamps: a key no other is older than |
| TtlCache.Cache.SaveTo | app/core/ai_cache.py:102-122 | saves to Redis, or makes room in a full dictionary and saves there; one model for both ways of making room |
| TtlCache.Cache.DeleteProposal | app/services/fix_memory.py:102-114 | deletes from the store the client says; a configured Redis leaves the dictionary alone |
| TtlCache.SettingsExactly | app/core/ai_cache.py:12-13 | 24 hours and 1000 entries with a purge, one hour and 500 without |
| TtlCache.SavedIsThere | app/core/ai_cache.py:76-122 | a saved value is found in Redis for less than its lifetime, in the dictionary up to and including it |
| TtlCache.RoomExactly | app/core/ai_cache.py:114-122 | what a full dictionary gives up: its expired entries, or its victim |
| TtlCache.DeletedIsGone | app/services/fix_memory.py:102-114 | a deleted proposal is gone from the store that was asked and only it; with a raising Redis from none |
| TtlCache.HitIsTheLastSave | app/core/ai_cache.py:76-122 | over every run a hit returns the last value saved for the key in the store that answers, at most the TTL old, and the dictionary never exceeds its size |
| TtlCache.ExactBelowCapacity | app/core/ai_cache.py:89-122 | while fewer keys than the maximum are saved, a lookup hits if and only if the last save is within the TTL: the dictionary is the plain map |
| TtlCache.DiscardsOnlyTheOldest | app/services/fix_memory.py:94-99 | both ways of making room: an unexpired entry goes only when the dictionary is full, all its entries are unexpired and this one is an oldest |
| TtlCache.LookingDiscardsOnlyExpired | app/core/ai_cache.py:94-97 | a lookup drops nothing but the expired entry it asked for |
| TtlCache.LastWordOfBackend | app/core/ai_cache.py:79-99 | on log positions: a store's last note on a key is the last note on it anywhere if and only if that one was written to this store, so always with one backend |
| TtlCache.HitIsLatestExactly | app/core/ai_cache.py:76-122 | over every run with changes of backend a hit is the last save of the store that answers, and the last word on the key anywhere if and only if that word was said to this store |
| TtlCache.FlipReturnsOlderSave | app/core/ai_cache.py:104-122 | a run in which Redis fails, works and fails again: the older of two saves is returned |
| TtlCache.DeletedProposalReturns | app/services/fix_memory.py:106-114 | a proposal saved while Redis raised survives its deletion |
| CacheKey.SortSorts | app/core/ai_cache.py:50-57 | sorted() on codes: ascending and the same elements |
| CacheKey.SameKeyIff | app/core/ai_cache.py:45-60 | two decisions share an answer if and only if status and type agree, tenants agree or are both none, empty or "default", and causes and actions are the same up to order; the debug hash plays no part |
| CacheKey.DefaultTenantShared | app/core/ai_cache.py:47 | no tenant, the empty one and "default" are one tenant |
| EnvFile.PutGetExact | scripts/security/_test_env_parser.py:5-22 | for every single-line backslash-free v: the reader returns v (stripped as it strips every value) after a rotation if and only if v is not blank or the first line behind the value strips to nothing |
| EnvFile.PutGet | scripts/security/_test_env_parser.py:5-22 | for a non-blank v the reader returns exactly v if and only if neither end of v is white space or a quote |
| EnvFile.CleanFixes | scripts/security/_test_env_parser.py:12 | strip().strip('"').strip("'") leaves a value alone if and only if neither end is white space or a quote |
| EnvFile.PutPut | scripts/security/_test_env_parser.py:14-22 | for every single-line u and v: rotating to u and then v is rotating to v if and only if u is non-blank and does not start with white space, or u is empty and the replaced value ended the text, or u and v are both empty and only white space follows; for a non-blank u it is always rotating once to v behind u's leading white space |
| EnvFile.EmptiedThenSet | scripts/security/_test_env_parser.py:14-22 | emptying a value and setting it again is setting it if and only if its line ends the text; on a line that ends in a newline the new value lands below |
| EnvFile.OnlyValuesChange | scripts/security/_test_env_parser.py:14-22 | rotation replaces the value segments, each within one line, and no other character; there is a segment if and only if the key is found |
| EnvFile.FoundTogether | scripts/security/_test_env_parser.py:5-22 | the rotator finds the key, instead of raising, if and only if the reader does |
| EnvFile.OtherKeysKept | scripts/security/_test_env_parser.py:5-22 | another key keeps its value under every rotation of k if and only if, before the assignment the reader uses, no value of k stands below the line of its =, and the line read there does not reach a value of k |
| EnvFile.OwnLinesAreApart | scripts/security/_test_env_parser.py:5-22 | so whenever every assignment of both keys has a non-blank value on its own line |
| EnvFile.HeaderLocal | scripts/security/_test_env_parser.py:7 | whether and where a header matches is decided by the text up to an =; nothing behind it matters |
| EnvFile.HeaderOfOneKey | scripts/security/_test_env_parser.py:7-16 | one = belongs to one key |
| EnvFile.SiteIsGreedy | scripts/security/_test_env_parser.py:16 | without a lone CR the \s* after = of the rotating expression never backtracks |
| EnvFile.EmptyValueEatsNextLine | scripts/security/_test_env_parser.py:16 | \s* after = crosses the line end: rotating an empty KEY= replaces the line below it |
| EnvFile.EmptyValueReadsRotated | scripts/security/_test_env_parser.py:7-16 | a key without a value is read from the line below, and rotating the key on that line changes what is read |
| EnvFile.LoneCRBreaksPutGet | scripts/security/_test_env_parser.py:7-16 | a lone CR ends a value for the reader and not for the rotator: the reader still returns the old value |
| EnvFile.SpacesExactly | scripts/security/_test_env_parser.py:7 | the white space of \s, character by character |
| EnvForms.AssignmentIsRead | scripts/security/_test_env_parser.py:5-12 | the reader finds an assignment after optional white space and export, with white space on either side of the =, up to the end of its line |
| EnvForms.FormsAreRead | scripts/security/_test_env_parser.py:5-42 | the forms one by one: K=a, spaced, exported, both, and in either kind of quotes, each read as a |
| EnvForms.AssignmentIsRotated | scripts/security/_test_env_parser.py:14-22 | the rotator finds the same forms and puts the new value in the place of the old one |
| EnvForms.AssignmentExactly | scripts/security/_test_env_parser.py:5-22 | in a one-line text with the key and an = the key is found, by reader and rotator, if and only if only white space or one export stands before it |
| EnvForms.OtherWords | scripts/security/_test_env_parser.py:7-16 | a commented line, or a longer word that ends with the key, is no assignment to it |
| EnvForms.CommentsArePassed | scripts/security/_test_env_parser.py:5-12 | lines without an = before an assignment do not hide it |
| EnvForms.LineEndGivenBack | scripts/security/_test_env_parser.py:16 | behind an empty assignment whose line below ends in a lone CR the rotating expression backtracks: the value goes behind the = |
| EnvForms.Unquoted | scripts/security/_test_env_parser.py:12 | quotes of one kind are stripped, of both kinds if the double ones are outside |
| Partitions.Catalog.EnsureMonthlyPartitions | app/infra/migrations.py:1255-1280 | the loop with its month arithmetic creates the missing ones of three monthly tables, or fewer if a statement raises |
| Partitions.RangesAreConsecutive | app/infra/migrations.py:1256-1267 | for every start month the computed ranges are consecutive valid months, each ending where the next starts |
| Partitions.NameIsInjective | app/infra/migrations.py:1269-1270 | equal table names mean equal months |
| Partitions.CreateKeepsSound | app/infra/migrations.py:1272-1277 | a table skipped by IF NOT EXISTS already has the range that would have been given to it |
| Partitions.DistinctNamesAreDisjoint | app/infra/migrations.py:1269-1277 | tables with different names share no instant |
| Partitions.CoveredExactlyOnce | app/infra/migrations.py:1253-1280 | over runs at any dates, complete or cut short, an instant lies in a partition if and only if some run reached its month, and then in exactly one |
| Partitions.CompleteRunCovers | app/infra/migrations.py:1253-1280 | a run that is not cut short covers its month and the two after it |
| Partitions.NameReads | app/infra/migrations.py:1269-1270 | a table name reads as year and month in digits |
| Partitions.DecemberAndJanuary | app/infra/migrations.py:1256-1277 | the year turns after December; an existing table is left alone |

## Left out

- Docker, tar, checksums, the manifest and HTTP: outcomes are parameters (works, nonzero, throws, applied or not).
- Audit entries, notifications, metrics and logs.
- BackupRuns.ManualKeepsNewest: stated for a positive limit; for a limit of 0 or less the cleanup selects nothing (`BackupStore.CrowdedOf`).
- BackupProtocol.SurvivorKept: deletion of a backup on request is not a job of the interleaved model, since it may remove the survivor on purpose; `BackupRuns` has it sequentially.
- backup_tenants_job: choosing the eligible hostings; a run of it is a sequence of create calls.
- get_backup_entitlement: its table of plans is `BackupStore.MaxManual` and the two plan predicates; reading the plan is a parameter.
- ContainerLock.Lock.Enter: does not model the asyncio fallback without Redis, nor the advisory `locked()` check callers may make first.
- DockerGuard.DockerOpsBounded: one backend throughout; `DockerGuard.PairingIsExact` says what a change of backend between increment and decrement does.
- AiQuota.QuotaBound: one plan throughout and one unit per call; a change of plan carries earlier uses over, and `get_user_ai_quota_status` is not modelled.
- Autoscale.AutoscaleSafety: a crash of the orchestrator process is modelled between calls, not inside one; a throttle of a boosted container is not modelled.
- handle_container: the thresholds that choose between autoscale, restart and throttle, and `_get_hosting_cached`.
- PlanGate.BoundedStaleness: a plan that differs from "free" only in case counts as free, any other text as paid; DRY_RUN issues no commands and needs no statement.
- ExpiryWarnings.AtMostThreeWarnings: one expiry date for the whole run, jobs that do not overlap, and no pruning of the last warning by the 500-event limit of `log_orchestrator_event`.
- Lifecycle.OnlyLegalMoves: one job at a time and no other writer of the status; `Lifecycle.OverlapRevivesDeleted` shows why. Staleness is by creation time in the source and is a choice of the schedule here.
- CleanupPass.PassIsSafe: the paginated loop over active hostings has the same shape and is not modelled again.
- SecurityEvents.TableIsSound: starts from an empty table; the migration that removes old duplicates, and the blocking of addresses after an aggregation, are not modelled. Equal time stamps go to the later insert. Texts and metadata of an event are left out.
- TtlCache.ExactBelowCapacity: for the in-process dictionary; Redis eviction under memory pressure is not modelled.
- EnvFile.OtherKeysKept: the only-if half is for a key without a backslash, since a value with one cannot be put in.
- Partitions.Catalog.EnsureMonthlyPartitions: years 1000 to 9998; a CREATE that fails because the default partition already holds rows of the month counts as a statement that raises.
- Log scanning, the provisioning gate, fix selection, health scores and forecasts: single decision tables with no state over runs.
