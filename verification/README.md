# Auto Harness: verified models of its control plane

Auto Harness queues command-line sessions on hosts that operators own. Its control plane is mostly fenced state
transitions: several processes act on the same rows, any of them may stop between two storage calls, and every write
carries a condition. This project models eight parts of it in Dafny and proves what they promise, for every input and
every interleaving.

| files | part |
|---|---|
| `Calendar`, `Cron`, `CronSchedule` | the cron parser and the "next occurrence" search, over the proleptic Gregorian calendar (section 21.4.1 of ECMA-262) |
| `Sessions`, `SessionEffects` | sessions, worktrees and acknowledgement deadlines of the in-memory control plane; what each handler does |
| `HostLease`, `HostLeaseProgress`, `HostDrain`, `Connections` | durable host registration under a connection lease; draining and resuming; the in-memory connection maps |
| `Archive` | archive retries: claim, capture, upload, publish, release, expire |
| `Markers`, `MarkersVersions` | deletion markers between webhook configuration and catalog deletion; versions of configurations |
| `Inventory`, `Registration`, `RegistrationUnique`, `RegistrationRuns`, `RegistrationEffects`, `ExecConfig`, `ExecConfigMeaning`, `ExecConfigWrite`, `ExecConfigPatch`, `ExecConfigPatchKeys`, `Slots` | host inventory documents: merging a registration, executable settings, workspace slots |
| `SessionResult`, `SessionResultText`, `Paging`, `Sorting` | bounded session results and the texts they are measured in; key-set pagination |
| `Routes` | the route-pattern expander |
| `Options` | optional values |

`dafny verify dfyconfig.toml` checks all of it.

## How to read it

Protocols are state machines. A world holds the stored rows and the local state of each process; one action is one
storage call, one step of the surroundings, or a crash; `Run` applies any sequence of actions. The invariant is proved
step by step and the main results speak about every run. The storage calls and the loops of the source appear beside
them as methods of classes with the source's fields, proved equal to the functions that the runs use.

The conditions of the storage calls are those of the DynamoDB layer in `services/api/src/db`. Clocks, identifiers,
placement plans, URL validity, path spelling and collation are parameters. Field paths that the source builds as dotted
strings are values of a datatype.

## What the code does not promise

The lemmas named with each point show it and say exactly when the promise holds.

- The cron search returns nothing exactly for expressions that can never fire; timestamps of the years 0000 to 0099 are
  refused (`CronSchedule.ValidStamps`). A stepped star (`*/n`) in a day field leaves that field unconstrained.
- A host that reports the status `queued` for a running attempt makes the in-memory plane assign the session a second
  worktree and keep the first one busy (`Sessions.QueuedReportLeaks`, `Sessions.ProgressKeepsInvIff`).
- A clear drain flag does not mean that every idle worktree is online: a registration may hold rows offline, a session
  may be released offline after a resume listed the rows, and another writer may write a stale row. Which rows are
  offline is exactly what the history left (`HostDrain.RegistrationHolds`, `HostDrain.ReleaseDuringResume`,
  `HostDrain.OfflineExactlyIfLeft`, `HostDrain.ResumeClearsLeft`).
- A failed registration can leave a row online that it stamped without recording it, if an inventory write erased the
  stamp before the rollback listed the rows (`HostLease.ErasedStampStaysOnline`, `HostLease.FailureIsClean`). The
  rollback lists every other row it wrote and passes over exactly these, and an undisturbed one leaves a row online
  exactly if it was online, unrecorded and without a stamp at the listing (`HostLease.ListedUnlessOutOfSight`,
  `HostLease.OutOfSightIsPassedOver`, `HostLease.RollbackLeavesExactly`).
- A drain or resume by the lease holder fails on an idle row that carries the stamp of another connection
  (`HostDrain.HostStore.Drain`, `HostDrain.HostStore.Resume`).
- A registration whose baseline comes from the process cache, because the stored document is missing, can replace a
  concurrent edit of the same version, or store the cached settings where nothing is stored (`HostLease.CachedBaseline`,
  `HostLease.CachedCommitExact`). A registration never carries over `updateConfig`
  (`RegistrationRuns.RegistrationKeepsSettings`).
- Restoring omitted executable keys is not idempotent after an explicit clear (`ExecConfigWrite.SecondPassRestores`,
  `ExecConfigWrite.PreserveIdempotent`).
- A document may list one place under two workspace slots, and two sessions may then work there at once
  (`Slots.PlaceListedTwice`, `Slots.PutKeepsApartIff`).
- Normalising a session result twice drops the truncation flag of a report without a usable file name, and text that
  needs escaping can exceed the byte budget (`SessionResult.OversizedNameLosesFlag`, `SessionResult.NormalizeTwice`,
  `SessionResult.EscapesExceedBudget`, `SessionResult.FitsIfFieldsFit`).
- The connection maps stay inverse only if no socket registers for a second host (`Connections.StepKeepsInverse`). The
  registration functions accept such a call, but it does not arrive through the WebSocket hub, which refuses a second
  host on one socket (services/api/src/ws-hub.ts, lines 662 to 666).

## Model

| member | source | states |
|---|---|---|
| Calendar.YearStartClosedForm | modules/shared/src/cron.ts:57-107 | the month-by-month calendar agrees with the closed day-number formula of ECMA-262 at every year start |
| Calendar.MonthIndexUnique | modules/shared/src/cron.ts:57-107 | a day belongs to one month only, the one whose first day is the last not after it |
| Calendar.MonthOffsets | modules/shared/src/cron.ts:154-162 | every month starts on the day of its year that ECMA-262 lists, one later after February of a leap year |
| Calendar.DateInMonth | modules/shared/src/cron.ts:154-162 | the year, month and date of any day number are a date of the calendar, and building a day from them gives it back |
| Calendar.MakeDayFields | modules/shared/src/cron.ts:25-40 | a year, month and date survive the trip through a day number exactly when the date exists in that month |
| Calendar.NewYearWeekDay | modules/shared/src/cron.ts:164-166 | the weekday of 1 January of every year is the one the rule of Gauss gives |
| Calendar.WeekDayOfDate | modules/shared/src/cron.ts:164-166 | and it fixes the weekday of every date of the year |
| CronSyntax.ParseField | modules/shared/src/cron.ts:109-146 | the field loop computes the field: refused if any item is, otherwise the union of the items and the star flag |
| CronSyntax.ParseCron | modules/shared/src/cron.ts:43-54 | five non-empty fields within their ranges, else nothing |
| CronSyntax.IntegerMeans | modules/shared/src/cron.ts:148-152 | a number is one or more decimal digits with a value below 2 to the power 53 |
| CronSyntax.ProgressionMembers | modules/shared/src/cron.ts:143-143 | a stepped range selects exactly the values from its start to its end that are a multiple of the step away from the start |
| CronSyntax.FoldAccepts | modules/shared/src/cron.ts:109-146 | a field is accepted exactly when every item of it is |
| CronSyntax.FoldSelects | modules/shared/src/cron.ts:109-146 | a value is in an accepted field exactly when some item selects it |
| CronSyntax.FoldStars | modules/shared/src/cron.ts:121-124 | the star flag is set exactly when some item is a star, stepped or not |
| CronSyntax.ParsedIsWellFormed | modules/shared/src/cron.ts:43-54 | every accepted expression has five non-empty value sets inside their ranges |
| CronSyntax.ItemRoundTrip | modules/shared/src/cron.ts:113-143 | parsing a printed item gives back its range and step |
| CronSyntax.FieldRoundTrip | modules/shared/src/cron.ts:109-146 | parsing a printed list of items gives the set they denote |
| CronSyntax.CronRoundTrip | modules/shared/src/cron.ts:43-54 | every expression of the grammar is accepted with its intended meaning |
| CronSyntax.AcceptedIffSpelt | modules/shared/src/cron.ts:43-152 | an expression is accepted exactly when the grammar spells it, with numbers in any digits |
| CronSchedule.NextValue | modules/shared/src/cron.ts:177-182 | the least selected value from the given one up to 59, or none exists |
| CronSchedule.ResetToMonth | modules/shared/src/cron.ts:188-191 | the date becomes midnight of the first day of the month, also for the thirteenth month |
| CronSchedule.NextMatchingDay | modules/shared/src/cron.ts:154-162 | the first day of the rest of the month that the day rule admits (no day field constrained, or some constrained one holds the day), or that none is left |
| CronSchedule.ImpossibleIsQuiet | modules/shared/src/cron.ts:66-107 | an expression that constrains only the day of the month, to days no selected month ever has, never fires |
| CronSchedule.MatchingDayWithin | modules/shared/src/cron.ts:66-69 | every other expression has a matching day within eight years of any year, across a non-leap century too |
| CronSchedule.WindowFires | modules/shared/src/cron.ts:66-107 | so the cut-off after eight calendar years loses nothing |
| CronSchedule.AdvanceMonth | modules/shared/src/cron.ts:71-78 | skipping to the next selected month passes over no firing minute |
| CronSchedule.AdvanceDay | modules/shared/src/cron.ts:80-88 | skipping to the next matching day passes over no firing minute |
| CronSchedule.AdvanceHour | modules/shared/src/cron.ts:90-96 | skipping to the next selected hour passes over no firing minute |
| CronSchedule.AdvanceMinute | modules/shared/src/cron.ts:98-104 | skipping to the next selected minute passes over no firing minute and lands on one |
| CronSchedule.NextOccurrence | modules/shared/src/cron.ts:57-107 | the skipping loop terminates and equals the minute-by-minute scan: the least firing minute strictly after the start, or nothing exactly when the expression can never fire |
| CronSchedule.EitherDayField | modules/shared/src/cron.ts:164-175 | with both day fields constrained, the next occurrence is the earlier of those of the two expressions in which one of them is starred |
| CronSchedule.StarredDayField | modules/shared/src/cron.ts:164-175 | with a starred day field only the other one counts; with two, every day of the selected months does |
| CronSchedule.ValidStamps | modules/shared/src/cron.ts:25-40 | a timestamp is valid exactly when it names a calendar instant of the years 100 and later |
| CronSchedule.StampRoundTrip | modules/shared/src/cron.ts:23-30 | a spelled timestamp is read as its own fields |
| CronSchedule.StampAcceptedIff | modules/shared/src/cron.ts:23-30 | a timestamp is read exactly when it is spelled yyyy-mm-ddThh:mm:ssZ, optionally with three fraction digits |
| CronSchedule.NextCronOccurrence | modules/shared/src/cron.ts:57-107 | a result exactly for a valid instant and an accepted, satisfiable expression; it is the least whole minute strictly after the instant at which the expression fires |
| Sessions.OwnershipAgrees | services/api/src/control-plane-assign.ts:45-170 | in every run a session holds a worktree exactly when the worktree is busy with it, and no two sessions share one |
| Sessions.TerminalIsFinal | services/api/src/control-plane-assign.ts:518-556 | once ended, a session is never requeued and keeps the status it ended with |
| Sessions.SweptWasArmed | services/api/src/control-plane-assign.ts:518-556 | the deadline sweep, which does not look at the status, only ever requeues a running, unacknowledged session in the attempt and on the worktree it was armed for |
| Sessions.SweepExact | services/api/src/control-plane-assign.ts:518-556 | a sweep requeues exactly the due sessions it visits, whatever their order, and leaves the other deadlines armed |
| Sessions.FirstUsableWins | services/api/src/control-plane-assign.ts:69-105 | a queued session runs on the first usable candidate, with its attempt and its deadline |
| Sessions.StepKeepsInv | services/api/src/control-plane-cancel-local.ts:10-58 | every operation keeps ownership linked, queued sessions without worktrees and deadlines matching running attempts |
| Sessions.ProgressKeepsInvIff | services/api/src/session-transition-planner.ts:330-341 | a progress report keeps the invariant exactly when it does not set a running attempt back to queued |
| Sessions.QueuedReportLeaks | services/api/src/session-transition-planner.ts:330-341 | after a report of queued, the next assignment leaves the first worktree busy with a session that holds another |
| Sessions.ControlPlane.TryClaimWorktree | services/api/src/control-plane-worktrees.ts:26-50 | wins exactly an idle online worktree and marks it busy with the session |
| Sessions.ControlPlane.ReleaseWorktree | services/api/src/control-plane-worktree-release.ts:4-14 | idle again, and offline if its host drains or is disconnected |
| Sessions.ControlPlane.PlaceSession | services/api/src/control-plane-assign.ts:69-167 | the candidate loop: claims are given back when the account lease is refused |
| Sessions.ControlPlane.AssignQueuedSessions | services/api/src/control-plane-assign.ts:45-170 | the assignment loop over the queue, expiry included |
| Sessions.ControlPlane.EnforceAckDeadlines | services/api/src/control-plane-assign.ts:518-556 | the sweep loop; it reports exactly the visited sessions whose armed attempt was due, now queued and no longer pending |
| Sessions.ControlPlane.CancelLocal | services/api/src/control-plane-cancel-local.ts:10-58 | refuses unknown and ended sessions; a running one keeps its worktree until its host reports |
| Sessions.ControlPlane.RequeueUnackedWorktree | services/api/src/control-plane-agents.ts:324-372 | provisional rollback: the worktree is released and the session requeued only if it was running |
| Sessions.ControlPlane.OfflineHostAndRequeue | services/api/src/control-plane-worktrees.ts:53-109 | a disconnect takes every worktree of the host offline and requeues the unacknowledged sessions |
| SessionEffects.CancelEffect | services/api/src/control-plane-cancel-local.ts:28-46 | a running session becomes cancelled and keeps host and worktree, still busy for it; any other one has neither; the deadline is gone and nothing else changes |
| SessionEffects.CancelRefused | services/api/src/control-plane-cancel-local.ts:14-27 | an unknown or ended session is left alone |
| SessionEffects.HeldAfterCancel | services/api/src/control-plane-cancel-local.ts:33-40 | over any run a cancelled session keeps its worktree busy until its host reports the end of that attempt or rolls the worktree back unacknowledged |
| SessionEffects.EndReportEffect | services/api/src/control-plane-messages.ts:2235-2523 | the report of an end frees the worktree and gives a running session the reported status, an ended one keeps its own; nothing else changes |
| SessionEffects.RetryReportEffect | services/api/src/control-plane-messages.ts:2235-2523 | a retried end requeues a running session without host and worktree and frees the worktree |
| SessionEffects.StaleReportIgnored | services/api/src/session-transition-planner.ts:105-111 | a report or acknowledgement about another attempt or worktree changes nothing |
| SessionEffects.AcknowledgeEffect | services/api/src/control-plane-messages.ts:664-687 | the first acknowledgement of the current attempt disarms its deadline and changes nothing else |
| SessionEffects.AcknowledgedIsSafe | services/api/src/control-plane-assign.ts:518-556 | after it no sweep takes the session back |
| SessionEffects.TimeOutEffect | services/api/src/control-plane-running-timeout.ts:28-89 | exactly an acknowledged running session times out; it loses host and worktree, and the worktree is freed |
| SessionEffects.RollBackEffect | services/api/src/control-plane-agents.ts:324-372 | an unacknowledged worktree is given back: its session is queued if it ran and stays cancelled if it was; otherwise nothing changes |
| SessionEffects.SweepEffect | services/api/src/control-plane-assign.ts:518-556 | exactly the overdue sessions are requeued and exactly their worktrees freed, offline if the host is away |
| SessionEffects.DisconnectEffect | services/api/src/control-plane-worktrees.ts:52-102 | every worktree of the host goes offline, its unacknowledged sessions are queued, acknowledged ones keep their worktrees, and no other host is touched |
| SessionEffects.ServedInOrder | services/api/src/control-plane-assign.ts:45-170 | the queue is served in order: a first batch is placed before a second one sees any worktree |
| SessionEffects.NoneUsableWaits | services/api/src/control-plane-assign.ts:69-105 | without a usable candidate the session waits as it is and no deadline is armed |
| SessionEffects.TurnEffect | services/api/src/control-plane-assign.ts:45-68 | only queued sessions take a turn: an expired one fails, a postponed one is left alone |
| SessionEffects.InventoryEffect | services/api/src/control-plane-agents.ts:880-925 | a worktree in use is neither advertised anew nor withdrawn; an idle one takes the advertised host and state, or goes |
| HostLease.FailureIsClean | services/api/src/control-plane-agents.ts:183-254 | whenever a failed registration has returned, a replacement holds the lease, or the lease is free and no row it published is online unless someone else brought it online after the rollback listed it; of its unrecorded rows only those can be whose stamp another writer had erased |
| HostLease.ListedUnlessOutOfSight | services/api/src/control-plane-agents.ts:197-205 | in every run the rollback lists exactly those rows it wrote that it had recorded or that carry a stamp |
| HostLease.OutOfSightIsPassedOver | services/api/src/control-plane-agents.ts:183-254 | in every run no step of the rollback changes a row it wrote that it could not list |
| HostLease.RollbackLeavesExactly | services/api/src/control-plane-agents.ts:183-254 | a rollback without interference frees the lease and leaves a written row online exactly if it was online, unrecorded and without a stamp when listed |
| HostLease.OnlyHolderWrites | services/api/src/control-plane-agents.ts:1072-1299 | a registration's step changes worktree rows or the inventory only while it is the lock's connection |
| HostLease.LiveLeaseExcludes | services/api/src/db/plane-storage-locks.ts:139-156 | while a connection holds a live lease, no step of another registration changes the store unless it names that connection as the one to replace |
| HostLease.LiveLeaseKept | services/api/src/db/plane-storage-locks.ts:95-193 | over any run without such a replacement, and until the owner unlocks or disconnects, it keeps the lease and no step of another registration changes lock, rows or inventory |
| HostLease.FreeLeaseIsTaken | services/api/src/db/plane-storage-locks.ts:139-156 | an empty or disconnected lock goes to any registration that names no predecessor |
| HostLease.ReleasedLeaseIsTaken | services/api/src/db/plane-storage-locks.ts:196-242 | so does a lease right after its owner disconnects |
| HostLease.ReplacementNamesOwner | services/api/src/db/plane-storage-locks.ts:111-145 | a replacement wins exactly against the connection it names, live or not, or an empty lock |
| HostLease.ReplacedForGood | services/api/src/db/plane-storage-locks.ts:95-193 | a connection that has lost the lease never holds it again |
| HostLease.ReplacedNeverWrites | services/api/src/control-plane-agents.ts:1072-1299 | nothing a replaced registration still does has any effect on storage |
| HostLease.CommitBuildsOnReplaced | services/api/src/control-plane-agents.ts:1223-1299 | a committed document is the report merged into exactly the document it replaces, so operator settings of a concurrent edit survive; needs a baseline read from storage |
| HostLease.CachedBaseline | services/api/src/control-plane-agents.ts:1083-1093 | a baseline known only from the cache can match the version of a concurrent edit and replace it |
| HostLease.CachedCommitExact | services/api/src/control-plane-agents.ts:1223-1260 | every commit from a cached baseline met no versioned document or one of the cached version, and the settings of the replaced document survive exactly if the cached document gives the same ones to every entry that the report and the cache keep listed |
| HostLease.ErasedStampStaysOnline | services/api/src/control-plane-agent-hosts.ts:484-501 | a run in which an inventory write erases a reconciliation stamp and the failed registration leaves the row online |
| RegistrationRuns.SettingsKeptIffCacheAgrees | services/api/src/control-plane-agent-registration.ts:250-315 | a merge built from one document keeps the operator settings of another exactly when the two agree on them for the host, the registered or unreplaced repositories, and the advertised or unmatched worktrees |
| HostLease.UndisturbedRegistrationCommits | services/api/src/control-plane-agents.ts:1072-1299 | left alone, a registration that may take the lease publishes all its rows and commits the report merged into the stored document, cached or not |
| HostLeaseProgress.RetryCommits | services/api/src/control-plane-agents.ts:1223-1299 | after a first or second conflict, left alone, a registration publishes again and commits its report merged into the document it then finds |
| HostLeaseProgress.AtMostTwoRetries | services/api/src/control-plane-agents.ts:1223-1299 | in every run a version conflict is retried at most twice |
| HostLeaseProgress.ConflictEffect | services/api/src/control-plane-agents.ts:1223-1299 | a commit that meets another version stores nothing and reads again, or rolls back after the second retry |
| HostLeaseProgress.FailureRollsBack | services/api/src/control-plane-agents.ts:1147-1299 | a refused or failing write, a lost lease or reference, and giving up all lead to the rollback |
| HostLeaseProgress.LandedWrites | services/api/src/control-plane-agents.ts:1157-1165 | a write that failed to answer may have landed, and then stored what it would have stored, unrecorded |
| HostLeaseProgress.RestoreEffect | services/api/src/db/plane-storage-reconnect-rollback.ts:15-106 | a failed reconciliation gives a busy row back, offline and with the older stamp |
| HostLeaseProgress.RollbackEnds | services/api/src/control-plane-agents.ts:183-254 | left alone, a rollback ends with the lease released |
| HostLease.DoKeepsInv | services/api/src/control-plane-agents.ts:1072-1299 | every step of every registration, crash, disconnect, edit and row write keeps what the other registrations rely on |
| HostLease.PublishedRow | services/api/src/control-plane-agents.ts:1147-1156 | after publishing, a planned row carries the connection and a planned online flag, and every other row is as before |
| HostLease.HostStore.TryRegisterHost | services/api/src/db/plane-storage-locks.ts:95-193 | wins exactly on a missing lock, on the named owner when replacing, else on a disconnected one; then it holds the lease and nothing else changes |
| HostLease.HostStore.PutWorktreeFenced | services/api/src/db/plane-storage-sessions-worktrees.ts:35-71 | writes a row only for the lock's connection and never over a busy row |
| HostLease.HostStore.SetWorktreeOnlineFenced | services/api/src/db/plane-storage-sessions-worktrees-online.ts:51-105 | changes only an existing row of the lock's connection |
| HostLease.HostStore.ReleaseHostConnection | services/api/src/db/plane-storage-locks.ts:196-242 | frees the lease only for its connection and keeps the row |
| HostLease.HostStore.PutHostInventoryFenced | services/api/src/db/plane-storage-catalog.ts:1786-1834 | commits exactly under lease, version and references; a version failure is reported first |
| HostLease.HostStore.PublishWorktrees | services/api/src/control-plane-agents.ts:1147-1156 | succeeds exactly if no planned row is busy; every row it changed carries the connection |
| HostLease.HostStore.CommitWithRetries | services/api/src/control-plane-agents.ts:1223-1299 | commits the report merged into the latest edit, after at most two retries, and fails only if an edit came between every read and commit |
| HostLease.HostStore.RegisterHostDurable | services/api/src/control-plane-agents.ts:1072-1299 | refused by a live owner it does not name, accepted by a free lock; with operator edits as the only interference it commits the merge with the latest edit, retries twice, and gives up cleanly only if every attempt met an edit |
| HostLease.HostStore.Rollback | services/api/src/control-plane-agents.ts:183-254 | without interference: all own and published rows offline, every other row and the inventory unchanged, the lease freed |
| HostDrain.OfflineExactlyIfLeft | services/api/src/control-plane-agents.ts:1518-1573 | over drains and resumes that stop, lose their fence or are retried, registrations, releases, disconnects and any other row writes: with the flag clear an idle worktree is offline exactly when the history left it so |
| HostDrain.ClearMeansOnline | services/api/src/control-plane-agents.ts:1619-1682 | if the idle worktrees were online at first and no action leaves a row offline, a clear flag means that no idle worktree is offline |
| HostDrain.ResumeClearsLeft | services/api/src/control-plane-agents.ts:1619-1682 | once a resume has listed the rows under its lease, a clear flag again means that no idle worktree is offline, whatever came before |
| HostDrain.RunKeepsInv | services/api/src/control-plane-worktree-release.ts:4-14 | every step keeps the exact account of rows left offline, and of what a running resume still has to write |
| HostDrain.RegistrationHolds | services/api/src/control-plane-agents.ts:1134-1147 | a registration that holds a row leaves it idle and offline with the flag clear |
| HostDrain.ReleaseDuringResume | services/api/src/control-plane-agents.ts:1658-1678 | a release offline after the listing leaves an idle worktree offline with the flag clear |
| HostDrain.DrainExcludes | services/api/src/control-plane-agents.ts:1512-1517 | short of a resume, a registration or a disconnect, over any run a marked host stays marked and no idle row of it gets work |
| HostDrain.AssignEffect | services/api/src/db/plane-storage-host-assignment.ts:15-40 | an assignment takes exactly an idle online row of a live host whose flag is clear, and stamps it |
| HostDrain.StartEffect | services/api/src/control-plane-agents.ts:1534-1537 | a drain starts, and sets the flag, only for the lock's own connection; a resume starts only on a marked host; either may stop anywhere |
| HostDrain.FlagLostOnlyTo | services/api/src/db/plane-storage-locks.ts:479-497 | the flag is lost only to a resume of the lease holder with nothing left to write, to a registration, or to a disconnect |
| HostDrain.DisconnectEffect | services/api/src/db/plane-storage-locks.ts:196-242 | only the lock's own connection can be disconnected, and the lock then keeps it without the flag |
| HostDrain.UndisturbedDrain | services/api/src/control-plane-agents.ts:1518-1573 | left alone, a drain sets the flag and takes every idle row offline, in whatever order it visits them |
| HostDrain.UndisturbedResume | services/api/src/control-plane-agents.ts:1619-1682 | left alone, a resume brings every idle row online and clears the flag |
| HostDrain.ForeignRowStops | services/api/src/db/plane-storage-sessions-worktrees-online.ts:60-86 | a row that is gone or belongs to another connection ends the operation and changes nothing |
| HostDrain.HostStore.Drain | services/api/src/control-plane-agents.ts:1518-1573 | succeeds exactly with the lease, enough working calls and no idle row stamped by another connection; a partial drain has already set the flag |
| HostDrain.HostStore.Resume | services/api/src/control-plane-agents.ts:1619-1682 | succeeds exactly with the lease, enough working calls and no idle offline row stamped by another connection, ending with every idle worktree online and the flag clear; a failed one leaves the host draining |
| HostDrain.HostStore.SetWorktreeOnlineFenced | services/api/src/db/plane-storage-sessions-worktrees-online.ts:51-105 | the fenced row write: the lease, an existing row, and its stamp absent or the connection's own, or it fails and changes nothing |
| HostDrain.HostStore.MarkHostDraining | services/api/src/db/plane-storage-locks.ts:453-471 | sets the flag for the lock's connection only |
| HostDrain.HostStore.ClearHostDraining | services/api/src/db/plane-storage-locks.ts:479-497 | clears the flag for the lock's connection only |
| HostDrain.ResumeUndoesDrain | services/api/src/control-plane-agents.ts:1619-1682 | resuming a drained host restores it when all worktrees were online |
| Connections.ReplacedSocketIsIgnored | services/api/src/control-plane-agents.ts:1326-1348 | in every run the close of a socket matters exactly if it is the current one of its host, and never touches another connected host |
| Connections.ReplacementOutlivesOldSocket | services/api/src/control-plane-agents.ts:807-817 | after a replacement, closing the replaced socket changes nothing |
| Connections.RunKeepsInverse | services/api/src/control-plane-agents.ts:807-870 | over registrations, replacements, disconnects and failed registrations the two maps stay inverse and no connected host is marked disconnected |
| Connections.StepKeepsInverse | services/api/src/control-plane-agents.ts:408-442 | a step keeps this exactly when it does not act on another host's connection |
| Connections.ConnectEffect | services/api/src/control-plane-agents.ts:807-868 | a host takes its first connection or a replacement, whose predecessor is dropped; without leave to replace a live one stays, and no other host is touched |
| Connections.CloseEffect | services/api/src/control-plane-agents.ts:1326-1348 | in every run closing the current socket disconnects exactly its host, which may connect again at once |
| Connections.TakeBackEffect | services/api/src/control-plane-agents.ts:408-442 | a failed registration leaves its host disconnected unless another connection has taken it over |
| Connections.ConnectionTable.RegisterHost | services/api/src/control-plane-agents.ts:807-870 | refuses a second connection unless replacing, and drops the replaced one |
| Connections.ConnectionTable.DisconnectHost | services/api/src/control-plane-agents.ts:1326-1348 | ignores an unknown connection |
| Connections.ConnectionTable.RestoreRegistration | services/api/src/control-plane-agents.ts:408-442 | takes back only the failed connection |
| Archive.RetentionMeaning | services/api/src/control-plane-archive-expire.ts:8-20 | retention has elapsed exactly when some anchor is known and every known one is a full window old |
| Archive.AtMostOneOutcome | services/api/src/control-plane-archive.ts:325-408 | over every interleaving of retries and expiry reads, a record is never complete and stored at one moment and expired at another |
| Archive.TerminalIsFinal | services/api/src/control-plane-archive-expire.ts:54-98 | complete and stored, and expired, are both absorbing |
| Archive.ExpiresOnlyWhenOld | services/api/src/control-plane-archive.ts:130-163 | over every interleaving a record expires only after an agent found its last update, and the end of the session if known, a full week old and then found no logs |
| Archive.OnlyHolderPublishes | services/api/src/control-plane-archive.ts:238-249 | only the latest claimant publishes completion, under the order the record still carries |
| Archive.CapturedUploadCompletes | services/api/src/control-plane-archive-expire.ts:41-47 | once bytes are captured, no reader can expire the record: the upload completes unless re-claimed |
| Archive.UndisturbedRetryCompletes | services/api/src/control-plane-archive.ts:114-254 | an undisturbed retry ends complete and stored |
| Archive.FailureRequeues | services/api/src/control-plane-archive.ts:383-400 | a failed retry leaves the record claimable under its new order and otherwise unchanged |
| Archive.EmptyRetryOutcome | services/api/src/control-plane-archive.ts:130-163 | an undisturbed retry without bytes: an old record expires once no logs are found and stays claimed while they remain, a fresh one ends stored |
| Archive.ReaderOutcome | services/api/src/control-plane-archive-expire.ts:54-98 | a reader expires a pending record exactly if it is old by every known anchor, no logs are left and no upload has its bytes |
| Archive.ReplacementOutcome | services/api/src/control-plane-archive-replace.ts:22-61 | a stored archive is replaced exactly if the version that was read is still the stored one and the new object has one |
| Archive.LostClaimWritesNothing | services/api/src/control-plane-archive.ts:166-252 | a worker whose claim was taken over writes nothing |
| Archive.ArchiveTable.RetryOne | services/api/src/control-plane-archive.ts:355-406 | every case of one candidate, field by field: stored after an upload, also when empty and fresh; queued under the next order after a failure; expired when empty, a week old and without logs; still claimed when logs remain; untouched when not claimable |
| Archive.ArchiveTable.RetryPendingArchives | services/api/src/control-plane-archive.ts:325-408 | the sweep: every candidate ends as its own attempt decides, and no other record changes |
| Archive.ArchiveTable.ClaimRetry | services/api/src/control-plane-archive.ts:368-376 | wins exactly on the order it saw, for a record not yet stored |
| Archive.ArchiveTable.CaptureBody | services/api/src/control-plane-archive.ts:168-187 | notes the bytes only under the current claim |
| Archive.ArchiveTable.PublishCompletion | services/api/src/control-plane-archive.ts:238-249 | completes only under the current claim |
| Archive.ArchiveTable.ReleaseRetry | services/api/src/control-plane-archive.ts:391-400 | requeues only its own claim |
| Archive.ArchiveTable.PersistExpiredArchive | services/api/src/control-plane-archive-expire.ts:54-98 | expires unless the record is stored or has captured bytes |
| Markers.NoDanglingReference | services/api/src/control-plane-custom-webhooks.ts:79-162 | in every run of configuration writes and catalog deletions, with markers expiring at any moment and arbitrary clocks, no stored integration references a deleted row |
| Markers.ForeignMarkers | services/api/src/control-plane-deletion-markers.ts:8-57 | an agent changes another owner's marker only by taking it over once it has expired |
| Markers.FreeOrLive | services/api/src/db/plane-storage-deletion-markers.ts:39-120 | at any moment a marker is free or live for exactly one owner |
| Markers.MarkerExcludes | services/api/src/db/plane-storage-deletion-markers.ts:89-120 | a renewed marker keeps every other agent from taking or releasing it for half a minute |
| MarkersVersions.NoLostUpdate | services/api/src/control-plane-custom-webhooks.ts:114-162 | in every run, with integrations removed and created again under the same id, a save that replaces one had read exactly the one it replaces |
| MarkersVersions.ChangesOnlyBySave | services/api/src/control-plane-custom-webhooks.ts:138-158 | a stored integration changes only by a save of it: the next version of its generation, or version 1 of a new one, saying what the save says |
| MarkersVersions.StaleSaveRefused | services/api/src/control-plane-custom-webhooks.ts:132-158 | a save that read another version or generation, or missed a creation or removal, changes nothing |
| Markers.FenceCoversGuards | services/api/src/control-plane-delete-guards.ts:290-293 | the keys a write holds are exactly the rows whose deletion guard would find the integration |
| Markers.CollectReferenceKeys | services/api/src/control-plane-custom-webhooks.ts:435-441 | the repository and every routed provider or command |
| Markers.ValidateReferences | services/api/src/control-plane-custom-webhooks.ts:350-379 | accepts exactly when every referenced row was read |
| Markers.UndisturbedSaveStores | services/api/src/control-plane-custom-webhooks.ts:114-162 | an undisturbed write with existing references stores its configuration at the next version, or at version 1, and leaves none of its markers |
| Markers.UndisturbedDeleteRemoves | services/api/src/control-plane-command-delete.ts:21-35 | an undisturbed deletion without dependents removes the row and leaves none of its markers |
| Markers.MarkerStore.Acquire | services/api/src/db/plane-storage-deletion-markers.ts:39-68 | takes a free or expired marker only |
| Markers.MarkerStore.Renew | services/api/src/db/plane-storage-deletion-markers.ts:89-120 | renews only a live marker of the owner |
| Markers.MarkerStore.Release | services/api/src/db/plane-storage-deletion-markers.ts:70-87 | removes only the owner's marker |
| Markers.MarkerStore.AcquireAll | services/api/src/control-plane-deletion-markers.ts:18-27 | all keys or none, and no foreign live marker is touched |
| Markers.MarkerStore.ReleaseAll | services/api/src/control-plane-deletion-markers.ts:45-56 | exactly the owner's markers disappear |
| Registration.GroupByRepository | services/api/src/control-plane-agent-registration.ts:244-249 | the grouping loop yields the advertised worktrees of each repository, in order |
| RegistrationUnique.RegistrationKeepsHostUnique | services/api/src/control-plane-agent-registration.ts:230-315 | distinct advertisements keep repository ids distinct and worktree ids, names and paths unique host-wide |
| RegistrationUnique.RegistrationKeepsUnique | services/api/src/control-plane-agent-registration.ts:284-310 | the same, and every resulting worktree is advertised or was configured and is matched by no advertisement |
| RegistrationUnique.RegistrationRetains | services/api/src/control-plane-agent-registration.ts:187-228 | a configured worktree of a kept repository stays in it, unchanged, unless an advertisement matches its id, name or path |
| RegistrationRuns.LabelsFollowLatest | services/api/src/control-plane-agent-registration.ts:43-54 | over any run of PUTs and registrations, labels are those of the latest PUT, creating registration or changed snapshot, and the snapshot is the latest advertised one |
| RegistrationRuns.RestartsCounted | services/api/src/control-plane-agent-registration.ts:71-106 | the restart counter equals the number of changes between consecutive known daemon instances |
| RegistrationRuns.LookAfterRegistration | services/api/src/control-plane-agent-registration.ts:284-310 | what one registration does to a worktree that stays: labels, snapshot, or nothing if it is not advertised |
| RegistrationRuns.LookAfterPut | services/api/src/control-plane-agent-hosts.ts:409-437 | a PUT sets the labels and keeps the daemon snapshot |
| RegistrationRuns.RegistrationKeepsSettings | services/api/src/control-plane-agent-registration.ts:250-315 | operator settings of host, repositories and worktrees survive a registration; the update settings do not |
| RegistrationRuns.RunKeepsHostUnique | services/api/src/control-plane-agent-hosts.ts:359-442 | uniqueness holds after every run of accepted PUTs and registrations |
| RegistrationEffects.HostAfterRegistration | services/api/src/control-plane-agent-registration.ts:250-315 | capabilities and time are the reported ones, the version is the next one, configured pools win over reported ones, other host settings stay |
| RegistrationEffects.DaemonWithIdentity | services/api/src/control-plane-agent-registration.ts:84-106 | another instance of a known daemon is a restart at the time of the report; the same one keeps its start and its last restart |
| RegistrationEffects.DaemonWithoutIdentity | services/api/src/control-plane-agent-registration.ts:71-82 | without an identity what is known of the daemon stays, empty texts dropped, and the runtime is the reported one or stays |
| RegistrationEffects.RepositoryAfterRegistration | services/api/src/control-plane-agent-registration.ts:284-310 | a registered repository lies where the daemon says, on the reported, stored or default branch; every other one is as it was |
| RegistrationEffects.UnregisteredStaysIff | services/api/src/control-plane-agent-registration.ts:187-228 | a stored repository that is not registered stays exactly if no registered one lies at its path |
| RegistrationEffects.AdvertisedIsListed | services/api/src/control-plane-agent-registration.ts:284-300 | every worktree advertised in a registered repository is listed there under its name and path |
| RegistrationEffects.PutStoresDocument | services/api/src/control-plane-agent-hosts.ts:407-442 | a PUT stores the document at the next version and keeps what is known of the daemon |
| RegistrationEffects.PutStoresWorktree | services/api/src/control-plane-agent-hosts.ts:409-437 | every repository and worktree is stored as submitted, with the snapshot already stored for it |
| ExecConfig.ListExecConfigEdits | modules/shared/src/host-exec-config.ts:256-360 | reports exactly the edited paths, removed entries included; the list is empty exactly when nothing executable differs |
| ExecConfigMeaning.NoEditsMeans | modules/shared/src/host-exec-config.ts:256-360 | no edit is reported exactly when every executable setting is the same, empty being absent, and every script or hook that applies applies in the same place as before |
| ExecConfigMeaning.PlaceEdits | modules/shared/src/host-exec-config.ts:287-330 | a new place of a repository or worktree is reported exactly when a host, repository or worktree script or a hook applies there before or after the write |
| ExecConfigMeaning.HostKeyEdits | modules/shared/src/host-exec-config.ts:261-271 | each key of the host is reported under its own name exactly when its value is another one |
| ExecConfigMeaning.RepositoryKeyEdits | modules/shared/src/host-exec-config.ts:276-310 | so is each key of a repository |
| ExecConfigMeaning.WorktreeKeyEdits | modules/shared/src/host-exec-config.ts:311-323 | and each key of a worktree |
| ExecConfigMeaning.EntryEdits | modules/shared/src/host-exec-config.ts:276-323 | a repository that comes or goes is reported under each key for which it or a worktree of it has a value |
| ExecConfigMeaning.PoolEditsMean | modules/shared/src/host-exec-config.ts:341-358 | a pool is reported when it comes or goes, a slot when it comes, goes or moves |
| ExecConfig.RepositoryEdits | modules/shared/src/host-exec-config.ts:274-337 | exactly the edited paths of one repository and its worktrees |
| ExecConfig.PoolEdits | modules/shared/src/host-exec-config.ts:341-358 | exactly the edited paths of one pool and its slots |
| ExecConfig.IdsInOrder | modules/shared/src/host-exec-config.ts:167-179 | the ids of both lists, each once |
| ExecConfigWrite.PreserveHostExecConfig | modules/shared/src/host-exec-config.ts:391-467 | the nested loops restore omitted keys from the stored entry with the same id and clear empty ones |
| ExecConfigPatchKeys.PutSets | modules/shared/src/host-exec-config.ts:391-467 | a PUT keeps what it says, removes what it says empty, and takes what it omits from the stored host, repository or worktree with the same id; given roots and update settings are taken as they are |
| ExecConfigPatchKeys.PutKeepsOrdinary | modules/shared/src/host-exec-config.ts:391-467 | nothing but executable keys is restored |
| ExecConfigWrite.PreserveIdempotent | modules/shared/src/host-exec-config.ts:391-467 | restoring twice is restoring once exactly when no stored key is cleared and no stored value is empty |
| ExecConfigWrite.SecondPassRestores | modules/shared/src/host-exec-config.ts:415-416 | a cleared script comes back with a second pass |
| ExecConfigWrite.HasDuplicateId | modules/shared/src/host-exec-config.ts:153-165 | true exactly when a repository id, or a worktree id anywhere on the host, occurs twice |
| ExecConfigWrite.AbsoluteMeans | modules/shared/src/host-exec-config-parse.ts:38-42 | the absolute paths are those that begin with a slash, two backslashes, or a drive letter, a colon and either slash |
| ExecConfigWrite.HooksMean | modules/shared/src/host-exec-config.ts:221-234 | a document passes exactly when every hook that is set is an absolute path |
| ExecConfigWrite.ReconcileInventoryWrite | modules/shared/src/host-exec-config.ts:469-510 | without the capability a readable write is accepted exactly when nothing executable changes at any level; with it always; the result is the restored document |
| ExecConfigPatch.ApplyHostExecConfig | modules/shared/src/host-exec-config.ts:53-122 | the patch loop, stopping at an unknown repository or worktree |
| ExecConfigPatchKeys.PatchSets | modules/shared/src/host-exec-config.ts:87-121 | under every key of the host, of a repository and of a worktree the document then holds what the last entry naming the key asked for, nothing if that was empty, and what it held before if none names it; repeated ids stay as they are |
| ExecConfigPatchKeys.PatchAcceptedIff | modules/shared/src/host-exec-config.ts:38-51 | a patch is refused exactly when an entry names a repository, or a worktree of it, that is not there |
| ExecConfigPatch.OmittedKeysSurvive | modules/shared/src/host-exec-config.ts:391-467 | a PUT without executable keys gives back the stored document |
| ExecConfigPatch.TwoPathsAgree | modules/shared/src/host-exec-config.ts:53-122 | patching, and a PUT of the stripped document with the patch keys set, fail together and otherwise give the same document, empty roots being absent roots |
| ExecConfigPatch.PatchKeepsOrdinary | modules/shared/src/host-exec-config.ts:53-122 | a patch changes no ordinary field |
| ExecConfigPatch.OnlyNamedPathsReported | modules/shared/src/host-exec-config.ts:256-360 | only paths the patch names are reported as edits |
| Slots.PoolsAccepted | services/api/src/control-plane-agent-hosts.ts:372-406 | accepts exactly known pools whose slots change nothing in use and alias no path in use |
| Slots.AcceptedIffUseRespected | services/api/src/control-plane-agent-hosts.ts:372-406 | a write is accepted exactly when it takes no slot of another host, leaves every slot in use as it is, and puts no other slot at the place of one in use |
| Slots.EntriesAccepted | services/api/src/control-plane-agent-hosts.ts:372-406 | the nested check covers every configured slot |
| Slots.ProjectHostWorkspaceSlots | services/api/src/control-plane-agent-hosts.ts:97-171 | the configured slots in order, the tombstones and the removed ids |
| Slots.HostSlotsPartition | services/api/src/control-plane-agent-hosts.ts:150-171 | every slot of the host is configured, retired or removed, never two of these |
| Slots.ConfiguredSlot | services/api/src/control-plane-agent-hosts.ts:97-149 | a configured slot has its listed place, its session and error as before, and is no tombstone |
| Slots.AdvertisedSlotsOnline | services/api/src/control-plane-agent-hosts.ts:110-147 | a registration brings online exactly the slots it advertises at the same place on a connected host |
| Slots.UnmovedSlotsStayOnline | services/api/src/control-plane-agent-hosts.ts:110-147 | an operator's write keeps a slot online, with its connection, exactly if it stays where it is |
| Slots.UnlistedSlot | services/api/src/control-plane-agent-hosts.ts:150-171 | an unlisted slot is gone, or an offline tombstone while its session lasts |
| Slots.ClaimEffect | services/api/src/db/plane-storage-workspaces.ts:455-480 | a claim takes exactly an idle online slot, for its session and connection |
| Slots.ActiveSlotsSurvive | services/api/src/control-plane-agent-hosts.ts:97-171 | a slot in use keeps id, path, pool, session and status, as a tombstone if unlisted |
| Slots.InUseKeepsItsPlace | services/api/src/control-plane-agent-hosts.ts:392-404 | after an accepted write no slot of the host, configured or tombstone, spells the place of another slot in use |
| Slots.RunKeepsInv | services/api/src/control-plane-messages.ts:417-437 | in every run of writes, claims and releases a slot is busy exactly when it holds a session |
| Slots.HeldUntilReleased | services/api/src/control-plane-agent-hosts.ts:97-171 | over any run a slot keeps host, place, pool and session until its owner releases it |
| Slots.PutKeepsApartIff | services/api/src/control-plane-agent-hosts.ts:359-406 | an accepted write keeps all places of the host apart exactly when the document lists no place twice |
| Slots.NoSharedPlace | services/api/src/control-plane-agent-hosts.ts:359-406 | over runs of such documents no two slots of a host ever share a place, tombstones included |
| Slots.PlaceListedTwice | services/api/src/control-plane-agent-hosts.ts:359-406 | a run in which a document lists one place twice and two sessions hold it at once |
| Slots.SlotStore.ReleaseWorkspaceSlot | services/api/src/control-plane-messages.ts:417-437 | only the owner releases, and a released tombstone disappears |
| Slots.WriteKeepsConsistent | services/api/src/control-plane-agent-hosts.ts:174-204 | other hosts' slots are untouched and busy still means holding a session |
| Slots.SlotStore.SyncHostWorkspaceSlots | services/api/src/control-plane-agent-hosts.ts:174-204 | the table after the three loops, row by row |
| Slots.PersistRetiredWorkspaceSlot | services/api/src/control-plane-agent-hosts.ts:27-66 | under any interference the row ends retired with the reported owner, or absent, or is untouched and to be retried |
| SessionResult.PrefixGrows | modules/shared/src/session-result.ts:28-37 | every further code unit makes the UTF-8 form longer, inside a surrogate pair too |
| SessionResultText.BytesAreUtf8 | modules/shared/src/session-result.ts:28-30 | the measured length of a text is that of its UTF-8 form |
| SessionResultText.ScalarsInRange | modules/shared/src/session-result.ts:28-30 | only scalar values are encoded: no surrogate is left over |
| SessionResultText.EncodeRoundTrip | modules/shared/src/session-result.ts:28-30 | that form, which takes no more bytes than needed, decodes to the same scalar values |
| SessionResultText.JsonBytesAreJson | modules/shared/src/session-result.ts:105-105 | the measured length of a result is that of its JSON text |
| SessionResultText.EscapeRoundTrip | modules/shared/src/session-result.ts:105-105 | a text escaped for JSON reads as itself |
| SessionResult.Truncate | modules/shared/src/session-result.ts:32-37 | the longest prefix within the byte budget |
| SessionResult.NormalizeSessionResult | modules/shared/src/session-result.ts:53-108 | the collecting and shedding loops compute the normalised result |
| SessionResult.NormalizedIsValid | modules/shared/src/session-result.ts:110-151 | a result exists exactly for a non-empty summary from a known source, and always passes the validity test |
| SessionResult.SummaryMeaning | modules/shared/src/session-result.ts:57-66 | the summary is the longest fitting prefix, flagged exactly when cut or already flagged |
| SessionResult.FieldsMeaning | modules/shared/src/session-result.ts:56-82 | the source is the reported one, a branch or address is kept whole exactly if it is usable, and every limit is met |
| SessionResult.FilesFlagMeaning | modules/shared/src/session-result.ts:83-107 | the flag on the files has a reason: it came set, a name was too long, there were too many, or the text was too long |
| SessionResult.FilesMeaning | modules/shared/src/session-result.ts:83-102 | files are sorted reported names; without the flag no non-empty reported name is missing |
| SessionResult.SheddingIsMinimal | modules/shared/src/session-result.ts:103-107 | the text fits or no file is left, and the longest fitting prefix of the sorted files is kept |
| SessionResult.NormalizeTwice | modules/shared/src/session-result.ts:53-108 | normalising is idempotent exactly unless the report lists files, none usable, and says or shows that some are missing |
| SessionResult.OversizedNameLosesFlag | modules/shared/src/session-result.ts:83-102 | a report with one name over the limit: the second pass drops the flag |
| SessionResult.FitsIfFieldsFit | modules/shared/src/session-result.ts:103-107 | the text fits exactly when the fields of the report do as they are, or with every file shed and the flag added |
| SessionResult.EscapesExceedBudget | modules/shared/src/session-result.ts:103-107 | escaped text can exceed the budget although every field is within its own |
| Paging.PageMeaning | services/api/src/control-plane-id-page.ts:49-70 | a page holds exactly the rows after its cursor up to the next cursor, in order, which lies further on; there is one exactly when the page is full and rows are left |
| Paging.WalkReturnsSorted | services/api/src/control-plane-id-page.ts:49-70 | following the cursors over an unchanging table returns the sorted rows, each once |
| Paging.StableRowReturnedOnce | services/api/src/control-plane-id-page.ts:49-70 | while rows come and go between pages, a row present throughout a completed walk is returned exactly once |
| Paging.GatheredOnce | modules/shared/src/cursor-pages.ts:7-25 | the rows of all pages of a completed walk hold such a row exactly once |
| Paging.CursorsNeverRepeat | modules/shared/src/cursor-pages.ts:7-25 | cursors strictly increase, so none is handed out twice |
| Paging.CollectCursorPages | modules/shared/src/cursor-pages.ts:7-25 | never meets a repeated cursor; returns all pages exactly when the walk ends within the page limit, and then holds every lasting row once |
| Sorting.Sorted | services/api/src/control-plane-id-page.ts:58-60 | sorting distinct keys keeps exactly them, in ascending order |
| Routes.ExpandRoutePattern | scripts/cli-route-surface.ts:27-107 | the recursive parser with its shared index terminates on every input and computes the expansion or the error |
| Routes.ExpandPrinted | scripts/cli-route-surface.ts:27-107 | expanding the printed form of any syntax tree yields its denoted paths without the empty ones |
| Routes.AcceptedIsPrinted | scripts/cli-route-surface.ts:27-107 | a pattern is accepted only if it is, to its last character, the printed form of a tree that denotes the result |
| Routes.AcceptedIffPrinted | scripts/cli-route-surface.ts:27-107 | a pattern is accepted exactly when it is the printed form of a tree in which no literal run spells the parameter |
| Routes.UnclosedGroupReported | scripts/cli-route-surface.ts:61-77 | an accepted pattern behind an opening parenthesis is an unclosed group |
| Routes.StrayReported | scripts/cli-route-surface.ts:27-37 | a quantifier at the start makes no progress, a closing parenthesis leaves the rest unparsed |
| Routes.DanglingEscapeReported | scripts/cli-route-surface.ts:78-105 | an escape at the end of literal text is dangling |
| Routes.Parser.Alternation | scripts/cli-route-surface.ts:39-46 | reads alternatives and leaves the index after them |
| Routes.Parser.Concatenation | scripts/cli-route-surface.ts:48-59 | combines atoms up to a closing parenthesis, a bar or the end |
| Routes.Parser.Atom | scripts/cli-route-surface.ts:61-106 | a group, an optional group, a parameter or a literal, with the same errors |
| Routes.Parser.Literal | scripts/cli-route-surface.ts:78-105 | escapes are taken verbatim, anchors are dropped, a dangling escape is an error |
| Routes.Combine | scripts/cli-route-surface.ts:51-57 | the cross product, in order |

## Left out

- HTTP, WebSocket, object storage, database client, key management and Slack calls: only the conditions of the storage calls are modelled.
- CronSchedule.NextCronOccurrence: gives the minute number of the occurrence; the ISO text of it is not modelled.
- Sessions.OwnershipAgrees: covers prompt sessions of the in-memory plane; main-checkout runs, workspace sessions, provider-account leases and deferred terminal hooks, which keep a worktree reserved for an ended session, are not modelled. Placement plans are a parameter.
- Sessions.StepKeepsInv: assumes that terminal reports carry a terminal status and that no report sets a running session back to queued.
- HostLease.FailureIsClean: speaks about registrations that returned a failure; a crash, or an error inside the rollback itself, promises nothing. Other writers may keep, erase or renew a stamp. Only a failed reconciliation of the lease holder writes back an older one, taking the row offline (db/plane-storage-reconnect-rollback.ts); such a row is no longer counted among those the registration wrote. Workspace slots published by a registration are not part of its world.
- HostLease.HostStore.RegisterHostDurable: the stored document is the baseline; slots, reconciliation and deletion markers are left out of this sequential form.
- HostLease.UndisturbedRegistrationCommits: a registration with a cached document while none is stored is covered by HostLease.CachedCommitExact instead.
- HostLease.DoKeepsInv: rows to publish are any list, which includes the one the source reads; labels and paths of rows are left out of this world.
- HostDrain.OfflineExactlyIfLeft: drains and resumes of one host run one after another; a completed registration is one step.
- Archive.AtMostOneOutcome: the in-memory branch with claimed retries; archiving again without a claim may overwrite a record with a pending one.
- Markers.NoDanglingReference: schedules, sessions and provider accounts as further dependents, and the in-memory fingerprint fallback, are left out.
- RegistrationRuns.LabelsFollowLatest: the documents and reports of the run have unique worktree ids, names and paths.
- RegistrationUnique.RegistrationRetains: a repository whose path, but not id, is registered again is replaced and keeps nothing.
- ExecConfigWrite.ReconcileInventoryWrite: error texts are not modelled; documents are JSON values, so a key is absent or has a value.
- Slots.RunKeepsInv: the runs hold operator writes in memory; slots that a registration advertises are projected but not part of the runs.
- Slots.ActiveSlotsSurvive: assignment times and error messages of slots are left out; path spelling is any function.
- Slots.SlotStore.SyncHostWorkspaceSlots: tombstones are written by one map update instead of a loop.
- Paging.StableRowReturnedOnce: rows are their keys, keys are non-empty and distinct, collation is any strict total order; a custom comparison that disagrees with the key order is not covered.
- SessionResult.NormalizeSessionResult: a field of the wrong type is read as absent; URL validity is a parameter.
- Supersession of sessions, reconnect reconciliation, usage limits, catalog validation, authentication and the user interface: they would add members with one-branch contracts.
