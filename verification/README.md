# Attendance and enrollment system: a verified model

The repository runs attendance for one fingerprint terminal. People are enrolled on the terminal through a chain of guarded
steps, a collector owns the only connection to the terminal and copies its scans into PostgreSQL, and an API serves
reports, imports and operator actions. This project models the parts of it that keep state, and proves what they keep over
whole runs.

* **Identity** (`Identity`, `TerminalIds`, `IdentityRuns`, `IdentityTheorems`, `IdentityAtomic`, `IdentityAttribution`,
  `IdentityOutcomes`, `IdentityTerms`, `IdentityWitnesses`, `Roster`, `IdentityStore`, `Attribution`). The tables of persons, terminal accounts, enrollments, mappings and scans, and
  every operation that writes them. A run is a sequence of committing transactions; each read inside a transaction may be
  as old as any earlier state, because the code reads without locks and then commits a status-guarded update. `Identity`
  gives the effect of each operation as a function of the tables and its reads; `IdentityStore` has the operations as
  imperative methods on mutable tables, proved to have those effects and to do what `IdentityTerms` says of the rows.
* **Terminal** (`TerminalAccount`, `TerminalRemoval`). Account creation, fingerprint and account removal against a terminal
  that may ignore or misreport a write, but reads honestly or raises.
* **Commands and collector** (`DeviceOwner`, `DeviceOwnerQueue`, `CommandBus`, `Collector`). The bounded queue between the
  command threads and the owner thread, the in-flight keys of the API's command bus, and the collector's state engine.
  The first and third are step relations: an action is one locked section or one field access, and a schedule is any
  sequence of actions.
* **Backfill** (`Backfill`). Watermark, overlap and chunked inserts, interrupted anywhere, with live captures in between.
* **Small machines** (`WriteSession`, `RateLimiter`, `DeviceAlert`).
* **Reports and imports** (`Absences`, `AbsenceReports`, `PersonnelCsv`, `PersonnelCsvTheorems`).

Times are integers (microseconds) on one clock per module, and on two in `CommandBus`; `RateLimiter` and
`TerminalAccount` use real seconds. Where a property is false of the code, the code is modelled as it is, a lemma constructs a run that breaks the
property, and another says exactly when it holds.

## Where the code and its comments part

* A mapping can be left open for a person who has been deactivated: `create_verified_mapping` reads the person without a
  lock (`IdentityAtomic.OpenMappingsStayCurrentIff`, `IdentityWitnesses.StaleReadLeavesOpenMapping`).
* Late reconciliation can move the evidence of an enrollment whose window was longer than five minutes or was opened again
  during its confirmation (`IdentityAtomic.EvidenceStaysIff`, `IdentityWitnesses.ReconciliationMovesEvidence`,
  `IdentityWitnesses.ReopenedWindowStoresOldScan`).
* An in-flight key is said to be held past the caller's own timeout and to expire by a monotonic time. It expires by the
  wall clock, so whether it outlives the wait depends on how that clock is set (`CommandBus.TimedOutKeyIff`,
  `CommandBus.SetBackOutlivesWait`); left alone, the key expires no later than the wait ends, and a second command can pass
  while the first caller still waits (`CommandBus.TimedOutHoldsNothing`, `CommandBus.SecondGrantDuringFirstWait`,
  `CommandBus.TakenOverDuringWaitIff`).
* The rate limiter reads the clock before it takes its lock, so requests can be served out of the order of their readings.
  Then sweeping can change a decision and a minute can admit more than 2 * limit - 1 requests, however small the skew
  (`RateLimiter.EvictionCanChangeADecision`, `RateLimiter.EvictionIsInvisibleIff`, `RateLimiter.TwiceTheLimitIff`).
* A stored attribution can stop resolving: mappings are closed at the start of a transaction that may commit after later
  scans were stored, and a terminal clock may run ahead (`IdentityWitnesses.EarlyClosingLosesAttribution`,
  `IdentityWitnesses.FutureScanLosesAttribution`, `IdentityAttribution.AttributionsStandIff`).
* An acquire timeout of the device owner does not mean that the command was not executed
  (`DeviceOwner.TimedOutYetExecuted`, `DeviceOwner.TimeoutMeansNeverExecutedIff`).
* The terminal timing budget is too short if no read-back is configured and a delay is (`TerminalAccount.BudgetHoldsIff`).
* The monthly grid sees no scans if the scan window ends at 23:59, because its upper bound wraps to midnight
  (`Absences.ColumnAgreesIff`).
* A personnel file that spells a UUID other than canonically is not stable under a second import
  (`PersonnelCsvTheorems.SecondImportUnchangedIff`), and one row whose `active` cell cannot be read makes the whole commit
  fail instead of being reported (`PersonnelCsv.Registry.CommitCsvRows`).
* Removing a finger that is not there reports no remaining fingers even if the account has others
  (`TerminalRemoval.AbsentReportCanBeWrong`, `TerminalRemoval.RemoveFingerprint`).
* A queued fingerprint enrollment survives a reconnect (`Collector.RequestSurvivesReconnect`, `Collector.StaleRequestIff`).
* Write sessions can overlap on record, since an opener's timestamp may be older than the closing it waited for
  (`WriteSession.OverlapOnRecord`, `WriteSession.NonOverlappingIff`).
* A live capture can move the watermark past records that were never stored (`Backfill.PassedByIsLost`,
  `Backfill.CoveredThroughoutIff`).
* A recovery message that fails to send hides the next outage, and one that is dropped for want of configuration lets a
  recovery be sent without an alert (`DeviceAlert.FailedRecoveryHidesNextOutage`, `DeviceAlert.LongOutageIsAnnouncedIff`,
  `DeviceAlert.RecoveryWithoutAlert`, `DeviceAlert.AlternatesIff`).

## Model

| member | source | states |
|---|---|---|
| TerminalIds.FindNextAvailableId | app/enrollment.py:240-258 | the search loop ends and returns the least free id from 1001 on, whatever the used ids and the roster hold |
| IdentityRuns.CanReachIsPathExistence | app/enrollment.py:127-144 | reachability in the transition table is the existence of a path of allowed steps |
| IdentityRuns.AllowedIff | app/enrollment.py:127-144 | the transition table in words: one step up, over the pending fingerprint or not, asking again for the scan, retiring a confirmed one, and cancelling whatever is not yet ready |
| IdentityRuns.CommitKeeps | app/enrollment.py:372-411 | every commit, on current or stale reads, keeps the invariant of the tables and takes each row one step along the table or leaves it |
| IdentityRuns.RunKeeps | app/enrollment.py:372-411 | the invariant holds in every state of every run, and later states extend earlier ones |
| IdentityTheorems.StatusesFollowTheTable | app/enrollment.py:127-144 | between any two states of a run a status moves along a path of the table; past RESERVED and not cancelled means created with an account row; READY means confirmed by somebody and bound to a real scan of that account |
| IdentityTheorems.HoldersDiffer | app/enrollment.py:325-351 | in every state of every run two enrollments that hold a terminal id, created or only reserved, hold different ones |
| IdentityTheorems.TerminalIdsNeverRecycled | app/enrollment.py:325-351 | an id whose account was created for one enrollment is never held by another, then or later |
| IdentityTheorems.ReservationTakesLeastFreeId | app/enrollment.py:533-563 | a successful reservation takes the least id from 1001 on that no account, no enrollment but a reclaimable one, no roster entry and no legacy user has, and nobody holds it at the commit |
| IdentityOutcomes.ReservedForEligible | app/enrollment.py:446-531 | whatever its reads, a reservation that inserts a row read an active person in production scope, an active device, and no unfinished enrollment of that person on that device |
| IdentityTheorems.AccountsOnRecordAreNotReserved | app/enrollment.py:325-351 | in every run an account on record, held by somebody or not, is never reserved by a later transaction that reads the used ids once it is there, whatever its other reads |
| IdentityTheorems.OneMappingPerAccount | app/mapping.py:202-257 | at most one VERIFIED mapping per terminal account is created in a run, however checks and commits interleave |
| IdentityOutcomes.InsertedMappingOwns | app/mapping.py:118-233 | a commit that inserts a mapping inserts the enrollment's person and account, open from its controlled scan on; from that stored scan on the resolver names the person at every time |
| IdentityTheorems.ResolverNeverAmbiguous | app/db.py:125-146 | the resolver's more-than-one-match branch is unreachable |
| IdentityTheorems.DisjointFromAnyTables | app/mapping.py:202-233 | from any tables with disjoint ownership, whatever else they hold, every sequence of operations with current reads keeps it disjoint |
| IdentityTheorems.UnambiguousFromAnyTables | app/db.py:125-146 | so from such tables the more-than-one-match branch stays unreachable |
| IdentityOutcomes.StoredScansNameOwners | app/db.py:188-206 | every scan stored in any run is stored for p exactly if precisely one mapping in the tables it met owns the account at that time and it is p's |
| IdentityAttribution.ClosingKeepsAttributionIffEarlier | app/db.py:475-483 | closing a mapping leaves a scan's owner alone exactly if the scan is earlier than the closing time |
| IdentityAttribution.ClosingKeepsAttributionsIff | app/db.py:475-483 | closing any mappings at any time keeps every stored attribution exactly if no stored scan of a closed mapping is as late as that time |
| IdentityAttribution.OwnerStaysIff | app/db.py:102-146 | over every run, in which closings take the time their transaction began and reads may be old, a scan's owner stays the resolver's answer exactly if no transaction closes the owning mapping at a time no later than the scan |
| IdentityAttribution.AttributionsStandIff | app/db.py:188-206 | over every run all attributions, those stored before and those stored during it, are the resolver's answer in every state exactly if no closing is as early as a scan stored for the mapping it closes |
| IdentityAttribution.AttributionIsPermanent | app/db.py:188-206 | a stored attribution is never rewritten, and stays the resolver's answer in every later state if every later closing begins after the scan |
| IdentityTheorems.ExactScanIsEvidence | app/mapping_evidence.py:74-99 | a scan at exactly the stored time is the one evidence row |
| IdentityTheorems.EvidenceOfRow | app/mapping_evidence.py:74-99 | the evidence of a bound enrollment is the very scan whose time it stores |
| IdentityTheorems.ConfirmedScanIsTheEvidence | app/enrollment.py:1013-1034 | the scan chosen at confirmation is the resolver's answer at mark-ready, listing and mapping creation, whatever arrives in between |
| IdentityTheorems.OfferedIsCreatable | app/api/repository.py:648-676 | an enrollment offered for mapping is refused only for an inactive account or person, and nothing else can be created |
| IdentityAtomic.ReserveRefusedIffInProgress | app/enrollment.py:491-531 | an eligible reservation is refused exactly if some enrollment of that person on that device derives IN_PROGRESS |
| IdentityAtomic.ReserveHeals | app/enrollment.py:491-531 | after a reservation the new row is the only active one, and retiring stale rows changed no derived lifecycle state |
| IdentityStore.LifecycleMeans | app/enrollment.py:91-124 | the derived state of a row, told by its status, the account's flag and the VERIFIED mappings of the person on it |
| IdentityOutcomes.ActivePersonIff | app/personnel.py:243-313 | after a commit a person is active exactly if just added or reactivated, or active before and not just deactivated |
| IdentityAtomic.CommitKeepsOpenIff | app/mapping.py:178-187 | whatever the reads, a commit keeps "an open mapping has an active person and a present account" exactly if it inserts no mapping, or the person is active and the account present in the tables it meets |
| IdentityAtomic.OpenMappingsStayCurrent | app/personnel.py:254-292 | over every run with current reads an open mapping has an active person and a present account |
| IdentityAtomic.OpenMappingsStayCurrentIff | app/personnel.py:254-292 | over every run, whatever its reads, it is so in every state exactly if every mapping inserted finds its person active and its account present |
| IdentityAtomic.ReconciliationKeepsTimeIffInWindow | app/enrollment.py:1108-1173 | an accepted late reconciliation writes back the stored time exactly if that time lies in the reconstructed window |
| IdentityAtomic.EvidenceStaysIff | app/enrollment.py:1108-1173 | over every run, whatever it reads and however long its windows, a bound scan time stays exactly if no late reconciliation of the row is accepted outside the window it reconstructs |
| IdentityAtomic.EvidenceNeverMoves | app/enrollment.py:1108-1173 | in every run of ordinary transactions a bound scan time never changes again |
| IdentityWitnesses.StaleReadLeavesOpenMapping | app/mapping.py:178-233 | a run that leaves a mapping open for a deactivated person |
| IdentityWitnesses.ReconciliationMovesEvidence | app/enrollment.py:1108-1173 | a run with a ten-minute window in which reconciliation accepts another scan and moves the evidence |
| IdentityWitnesses.ReopenedWindowStoresOldScan | app/enrollment.py:992-1038 | a run in which the stored scan is older than the window the row records |
| IdentityWitnesses.EarlyClosingLosesAttribution | app/personnel.py:280-291 | a run in which a deactivation that began before a scan commits after it was stored, and the stored attribution no longer resolves |
| IdentityWitnesses.FutureScanLosesAttribution | app/db.py:188-206 | a run in which a scan later than its own ingestion loses its attribution to a closing in commit order |
| Roster.SnapshotIsExact | app/db.py:333-503 | after a snapshot the present accounts are exactly the observed ones, other devices are untouched, and no open mapping is left on an account just gone |
| Roster.SnapshotOfAccount | app/db.py:333-460 | what an accepted snapshot makes of every account: flags, uid, incarnation and the time it went missing |
| Roster.SnapshotOfMappings | app/db.py:461-503 | exactly the open VERIFIED mappings of accounts now gone end now |
| Roster.SummaryBalances | app/db.py:333-513 | accounts known and present before plus the counts are those after, the open mappings lost are those counted, and anomalies are the known uids overwritten |
| Roster.RepeatedSnapshotIsQuiet | app/db.py:333-503 | the same snapshot again counts nothing and changes nothing |
| Roster.IncarnationCountsReturns | app/db.py:333-503 | an account's incarnation is its start value plus the snapshots that brought it back |
| IdentityStore.PickNearestAttendance | app/mapping_evidence.py:48-71 | the loop returns the least candidate by distance, then by row id |
| IdentityStore.Store.ResolveControlledAttendanceId | app/mapping_evidence.py:74-99 | the windowed fetch and the pick return the account's evidence row and nothing else |
| IdentityStore.Store.ReserveNextDeviceUserId | app/enrollment.py:425-586 | succeeds exactly for a named operator, an active person in production scope, an active device and no unfinished enrollment; then finished rows are retired and one RESERVED row is added under the least free id; otherwise nothing changes |
| IdentityStore.Store.ConfirmControlledScan | app/enrollment.py:951-1051 | succeeds exactly for a pending row with a window, an active account and a scan in the window; then it binds the earliest such scan, and otherwise nothing changes |
| IdentityStore.Store.MarkReadyForMapping | app/enrollment.py:1219-1276 | succeeds exactly for a named operator and a confirmed row whose recorded scan resolves; the row is then ready, confirmed by that operator |
| IdentityStore.Store.ReconcileControlledScanEvidence | app/enrollment.py:1053-1216 | succeeds exactly if the scan is the only one of the active account in the five minutes before the window's end and no VERIFIED mapping is open or ends later; only the scan time is written |
| IdentityStore.Store.TransitionTo | app/enrollment.py:372-411 | for every target, takes an allowed step with the columns handed to it, or changes nothing |
| IdentityStore.Store.StartControlledScanWindow | app/enrollment.py:930-948 | opens a window of at least a minute for a row with an enrolled fingerprint, or again for a pending one |
| IdentityStore.Store.CreateVerifiedMapping | app/mapping.py:52-275 | exactly when it creates a mapping, which begins at the controlled scan, is open and is the person's, and retires the row; exactly when it reports the newest one of a retired row; and nothing changes otherwise |
| IdentityStore.Store.DeactivateHuman | app/personnel.py:243-313 | closes exactly the person's open mappings now and reports them, or nothing if one of them has not begun |
| IdentityStore.Store.ReconcileRosterLifecycle | app/db.py:297-513 | the two loops and their counters have the snapshot's effect and summary |
| IdentityStore.Store.SaveAttendanceLog | app/db.py:162-206 | stores a scan not yet on record, for p exactly if precisely one mapping owns the account at that time and it is p's; an unknown account is recorded as active |
| IdentityStore.Store.ResolveVerifiedEmployeeMapping | app/db.py:102-146 | looking at two rows at most names p exactly if precisely one mapping owns the account from its first instant up to its last, and it is p's |
| Attribution.AttributionReasoning | app/api/repository.py:693-758 | each diagnosis of the interval walk holds exactly if the tables say so, and the next owner named is the first one later |
| Attribution.InsideIffResolved | app/api/repository.py:731-751 | in every state of every run a scan is inside an interval exactly if the resolver names its owner |
| TerminalAccount.Terminal.GetUsers | app/enrollment.py:811-822 | a roster read raises or shows exactly what is on the terminal |
| TerminalAccount.Terminal.SetUserOn | app/enrollment.py:827-844 | a write may be ignored, take effect late, raise or return anything |
| TerminalAccount.BoundedRosterReadback | app/enrollment.py:714-748 | reads until the id shows or the attempts are used up, with a pause between two reads and none after the last |
| TerminalAccount.SeekAccount | app/enrollment.py:808-851 | the conversation with the terminal, what it learns, and the time it takes |
| TerminalAccount.CreateOrReconcile | app/enrollment.py:751-896 | success exactly means that the id was read back with privilege 0, and reconciled that set_user was never called; any other privilege is a conflict; what a success writes, and that failures write nothing |
| TerminalAccount.SetUserAtMostOnce | app/enrollment.py:824-845 | set_user is called once exactly if the first read succeeded without showing the id, and otherwise never |
| TerminalAccount.ConversationCost | app/enrollment.py:628-640 | what a request can cost for every retry count, delay and per-call timeout |
| TerminalAccount.BudgetHoldsIff | app/enrollment.py:628-640 | the budget bounds every request exactly if there is a read-back, or neither read-back nor delay |
| TerminalAccount.BudgetIsTight | app/enrollment.py:628-640 | with a read-back the slowest request uses the whole budget |
| TerminalAccount.RepeatIsIdempotent | app/enrollment.py:863-880 | a second success keeps the first creation time and the first known uid |
| TerminalRemoval.RemoveFingerprint | app/terminal_management.py:127-220 | only the account's own targeted templates are asked to go, in the order read; success means none of them is left, and the count is what is left; the count of an "already absent" reply is right exactly if all fingers were asked for or the account has none |
| TerminalRemoval.TargetsInOrder | app/terminal_management.py:164-166 | the targets are the matching templates, in the order read |
| TerminalRemoval.AbsentReportCanBeWrong | app/terminal_management.py:164-174 | the removal of finger 5 from an account with finger 0 replies "already absent, none remaining" unless a read fails, and one remains |
| TerminalRemoval.RemoveAccount | app/terminal_management.py:228-316 | refused without acknowledgement exactly if an active person holds an open mapping; success means the account was read as gone, and only then is its row switched off |
| DeviceOwner.RunKeepsInv | app/device_owner.py:118-194 | the invariant of queue, requests and executions holds after every action of every schedule |
| DeviceOwner.ExecutedUnderOwnGeneration | app/device_owner.py:166-174 | every execution of every schedule is on the connection of the generation its request was made under |
| DeviceOwner.ExecutionsAreSafe | app/device_owner.py:151-178 | executions are of distinct requests and follow the order of the queue |
| DeviceOwner.RepliesAreTruthful | app/device_owner.py:118-149 | a cancelled or queue-full caller's request was never executed, and any other reply is that of the caller's own execution |
| DeviceOwner.AbandonedInQueueNeverRuns | app/device_owner.py:158-172 | a request abandoned in the queue, cancelled or refused is never executed, then or later |
| DeviceOwner.AbandonedRunsIff | app/device_owner.py:158-174 | an abandoned request has been or can still be executed exactly if it was already, or the owner is past the abandonment check on it and the generation check is passed or will be |
| DeviceOwner.TimedOutYetExecuted | app/device_owner.py:135-146 | a schedule in which a timed-out request has been executed |
| DeviceOwner.TimeoutMeansNeverExecutedIff | app/device_owner.py:135-177 | in every schedule an acquire timeout means "never executed, then or later" exactly if the request has no execution yet and the owner is not past the checks on it |
| DeviceOwnerQueue.Owner.Submit | app/device_owner.py:124-134 | accepted exactly if there is room, last in the queue, under the current generation |
| DeviceOwnerQueue.Owner.FinishWait | app/device_owner.py:135-149 | a signaled caller gets its own answer, another abandons its request |
| DeviceOwnerQueue.Owner.DrainPending | app/device_owner.py:151-178 | empties the queue; each request gets its outcome exactly if this drain executed it, a cancellation exactly if it is of another generation, and no answer exactly if abandoned |
| DeviceOwner.TurnServesHead | app/device_owner.py:158-177 | so do the owner thread's steps, taken with nobody in between |
| DeviceOwner.OfferIs | app/device_owner.py:124-134 | an offer is refused exactly by a full queue, and waits last in it otherwise |
| DeviceOwnerQueue.Owner.CancelAllPending | app/device_owner.py:180-194 | every queued request is answered with a cancellation and none is executed |
| CommandBus.DeviceCommandBus.Begin | app/device_command_bus.py:183-229 | check-and-reserve: refused exactly if the key has an unexpired holder, otherwise the command holds it |
| CommandBus.DeviceCommandBus.ReleaseDedupeKeyForCommand | app/device_command_bus.py:122-131 | frees the key of exactly this command |
| CommandBus.DeviceCommandBus.OnMessage | app/device_command_bus.py:133-159 | an on-time response reaches its waiter, and a late one still frees the key |
| CommandBus.FreeKeepsOthers | app/device_command_bus.py:122-131 | freeing a command leaves every other holder in place |
| CommandBus.DictionariesAreInverse | app/device_command_bus.py:64-84 | the two dictionaries are inverse to each other after every schedule |
| CommandBus.AdmissionIsExact | app/device_command_bus.py:199-229 | whatever is done to the wall clock, a command is refused exactly if the one last let through under its key is neither answered nor expired |
| CommandBus.GrantsAreSeparated | app/device_command_bus.py:199-229 | two commands let through under one key are separated by the first one's response, or by its expiry when the key was next handed out |
| CommandBus.AnswersAreGenuine | app/device_command_bus.py:137-141 | an answered caller holds a response delivered for its own command |
| CommandBus.TimedOutKeyIff | app/device_command_bus.py:199-258 | a caller whose monotonic wait ran out leaves an unexpired key behind exactly if the wall clock has gained less than the timeout since the grant |
| CommandBus.TimedOutHoldsNothing | app/device_command_bus.py:228-258 | so with a wall clock that is never set back it leaves none |
| CommandBus.SetBackOutlivesWait | app/device_command_bus.py:199-258 | a schedule in which the wall clock is set back during the wait and the key outlives it |
| CommandBus.SecondGrantDuringFirstWait | app/device_command_bus.py:228-240 | a schedule in which a second command passes while the first caller still waits |
| CommandBus.TakenOverDuringWaitIff | app/device_command_bus.py:228-240 | in every schedule a waiting caller's key can pass to another command before that wait is over, with the wall clock left alone, exactly if it expires before the wait ends |
| Collector.CollectorStateEngine.Turn | app/collector.py:989-1013 | one turn of the run loop dispatches to the handler of the state, each with its modelled effect |
| Collector.CollectorStateEngine.HandleLive | app/collector.py:744-858 | the capture loop's effect for everything the generator may yield before it ends or raises |
| Collector.CaptureFollowsBackfill | app/collector.py:656-742 | capture and enrollment happen only on the connection of the current generation, and after a backfill completed on it |
| Collector.CutShortCapturesNothing | app/collector.py:700-747 | a backfill that the stop event cuts short still leads to LIVE, but nothing is captured or enrolled from then on |
| Collector.EnrollingHasRequest | app/collector.py:886-894 | the guard against a missing request or connection never fires |
| Collector.DegradedIffLastUnpublished | app/collector.py:779-851 | capture that runs on is DEGRADED exactly while the last scan was not published, and goes to enroll exactly if a request is pending |
| Collector.CaptureLeaves | app/collector.py:760-812 | a capture that stores everything leaves the request queued last, or the one that was waiting, and resets the attempts exactly if the connection was once stable |
| Collector.UnstoredScanEndsCapture | app/collector.py:814-827 | a scan that could not be stored ends the capture at once |
| Collector.CaptureFailsIff | app/collector.py:814-858 | a capture ends in BACKOFF exactly if a scan could not be stored, or the generator raised, after everything before was stored and no stop came |
| Collector.EnrollsOwnRequestIff | app/collector.py:787-851 | a capture that goes on to enroll takes a request checked on its own connection exactly if one was queued during it or was waiting from that connection |
| Collector.StaleRequestIff | app/collector.py:478-503 | in every run the request about to be carried out was checked on another connection exactly if an earlier capture left it behind when it ended in BACKOFF |
| Collector.RequestSurvivesReconnect | app/collector.py:787-793 | a run in which a request checked on one connection is carried out on the next |
| Backfill.AttendanceStore.SaveAttendanceBatch | app/db.py:208-295 | whole chunks up to the stop or the failure are stored, and inserted plus skipped is the number processed |
| Backfill.AttendanceStore.InsertChunk | app/db.py:244-281 | a chunk's records are inserted once each, duplicates are skipped, and both are counted |
| Backfill.AttendanceStore.HandleBackfilling | app/collector.py:672-716 | watermark, filter and save: the store grows by the processed part of the candidates, and malformed records are counted |
| Backfill.BackfillKeepsCovered | app/collector.py:674-713 | a backfill broken off anywhere keeps "everything older than the watermark less the overlap is stored" |
| Backfill.RunStaysCovered | app/collector.py:674-713 | so does every run of records, broken-off backfills and live captures over an ordered log, if no live capture passes an unstored record by |
| Backfill.CoveredThroughoutIff | app/collector.py:674-822 | over an ordered log it holds after every event of a run exactly if no live capture of the run passes an unstored record by |
| Backfill.ResumedBackfillCovers | app/collector.py:674-716 | one completed backfill then covers the whole log |
| Backfill.CatchUpCoversIff | app/collector.py:674-716 | from any log and store one completed backfill covers the log exactly if everything older than the watermark less the overlap was stored |
| Backfill.CoverageIffInOrder | app/db.py:148-160 | for every batch size a log is covered after every such run exactly if it is ordered up to the overlap |
| Backfill.DisorderLoses | app/db.py:148-160 | a log that is not can lose a record for good without any interruption or live capture |
| Backfill.LiveScanKeepsCoveredIff | app/collector.py:814-822 | a live scan keeps the guarantee exactly if no unstored record is older than it by more than the overlap |
| Backfill.PassedByIsLost | app/collector.py:814-822 | a live scan that does not keep it loses a record even for a completed backfill |
| WriteSession.WriteSessions.ReapExpired | app/write_session.py:67-86 | closes exactly the due rows and reports the first |
| WriteSession.WriteSessions.FetchOpenSession | app/write_session.py:89-110 | finds the unclosed row if there is one |
| WriteSession.WriteSessions.GetWriteSessionStatus | app/write_session.py:141-154 | the transaction's effect, audit and reply |
| WriteSession.WriteSessions.IsWriteSessionActive | app/write_session.py:157-171 | the transaction's effect, audit and the two flags |
| WriteSession.WriteSessions.OpenWriteSession | app/write_session.py:174-243 | the transaction's effect, with both rollbacks |
| WriteSession.WriteSessions.CloseWriteSession | app/write_session.py:246-282 | the transaction's effect; closing nothing is no error |
| WriteSession.ReadIs | app/write_session.py:141-171 | in every run a read closes as expired exactly the sessions whose time is up, and reports the one that runs |
| WriteSession.CloseIs | app/write_session.py:246-282 | in every run a close ends the session that runs, now and by the operator who closes it, and nothing else |
| WriteSession.OpenIs | app/write_session.py:174-243 | in every run what an opening inserts and audits, and that a refused one leaves everything as it was |
| WriteSession.SessionsAreAccountedFor | app/write_session.py:67-138 | at most one unclosed session; each is audited as expired once if its closer began after its expiry and never otherwise |
| WriteSession.ActivityIsExact | app/write_session.py:141-171 | activity is reported exactly for an unclosed session not expired at the transaction's own timestamp |
| WriteSession.RefusedOpenReapsNothing | app/write_session.py:189-215 | a refused opening has reaped nothing, so its rollback loses nothing |
| WriteSession.OpenSucceedsIff | app/write_session.py:184-225 | exactly when an opening succeeds |
| WriteSession.OpenThenStatus | app/write_session.py:217-282 | an opened session is what status reports until it expires by the reader's timestamp, and nothing is reported once it is closed |
| WriteSession.SessionsDoNotOverlap | app/write_session.py:189-225 | with transactions in timestamp order no session opens before the previous one closed |
| WriteSession.OverlapOnRecord | app/write_session.py:189-225 | out of timestamp order two sessions can overlap on record |
| WriteSession.KeepsNonOverlappingIff | app/write_session.py:189-225 | a transaction leaves sessions without overlap exactly if they had none and it opens none, or opens one no earlier by its own timestamp than any closing on record |
| WriteSession.NonOverlappingIff | app/write_session.py:189-225 | the sessions of a run do not overlap on record exactly if every opening in it came so |
| RateLimiter.Limiter.CheckLimit | app/api/ratelimit.py:29-54 | the decision and the buckets it leaves |
| RateLimiter.Limiter.Evict | app/api/ratelimit.py:57-65 | the loops remove exactly the expired windows and the scopes left empty |
| RateLimiter.SweepChangesDecisionIff | app/api/ratelimit.py:45-62 | one sweep changes a decision exactly if its reading has expired a used-up window that the request's own reading has not |
| RateLimiter.EvictionIsInvisibleIff | app/api/ratelimit.py:41-65 | for every trace, with readings taken before the lock, every request, however often it is repeated on the spot, gets the reply of a limiter that keeps all windows exactly if no request meets a window that an earlier served opening has expired and its own reading has not |
| RateLimiter.EvictionNeverChangesADecision | app/api/ratelimit.py:57-65 | every request of a trace without such a meeting gets the reply of a limiter that keeps all windows |
| RateLimiter.InOrderMeetsNone | app/api/ratelimit.py:41-42 | with readings in the order of service there is none |
| RateLimiter.EvictionCanChangeADecision | app/api/ratelimit.py:41-65 | for every skew up to a minute a trace of three requests in which sweeping lets a refused one through |
| RateLimiter.AdmissionsAreBounded | app/api/ratelimit.py:41-54 | any half-open sixty seconds admit at most 2 * limit - 1 requests of one client if readings come in the order of service, and at most 3 * limit - 1 if they are up to fifteen seconds out of order |
| RateLimiter.BoundIsReached | app/api/ratelimit.py:41-54 | for every limit and every such skew some trace reaches its bound |
| RateLimiter.TwiceTheLimitIff | app/api/ratelimit.py:41-54 | for every limit 2 * limit - 1 bounds all traces of a skew exactly if that skew is zero |
| RateLimiter.RetryAfterIsRight | app/api/ratelimit.py:50-52 | for every trace a refused client without competitors passes after the advised wait; above the one-second floor it passes sooner exactly if somebody else's opening with a reading that late has swept its window |
| DeviceAlert.AlertJob.RunOnce | app/device_alert.py:113-133 | one run of the job, with its three ways to deliver |
| DeviceAlert.AlertsAndRecoveriesAlternate | app/device_alert.py:74-133 | with sending configured whenever something is due, what is sent is an alert, a recovery, an alert, and so on, however many sends fail |
| DeviceAlert.AlternatesIff | app/device_alert.py:74-133 | for every history, it is so exactly if every message sent has an even number of dropped ones before it |
| DeviceAlert.AlertMeansLongOutage | app/device_alert.py:74-91 | an alert falls due only after half an hour in which every run found the scanner offline |
| DeviceAlert.LongOutageIsAlerted | app/device_alert.py:84-91 | such an outage has its alert due at every run until one goes out |
| DeviceAlert.LongOutageIsAnnouncedIff | app/device_alert.py:74-130 | for every history, an outage that has reached half an hour with nothing passed on has its alert due exactly if the run before it did not fail to send a recovery |
| DeviceAlert.RecoveryWithoutAlert | app/device_alert.py:121-130 | a history whose first message sent is a recovery |
| DeviceAlert.FailedRecoveryHidesNextOutage | app/device_alert.py:126-130 | a history in which a second long outage is not announced |
| Absences.FirstScansAgree | app/absences.py:473-484 | the month's grouped first scan is the day's windowed one, unless the window ends at 23:59 |
| Absences.OneRowEach | app/absences.py:349-351 | without overlapping absences a person has one row in the roster, with the absence a search would find |
| Absences.MonthHasCovering | app/absences.py:461-469 | the month's absences miss none that covers one of its days |
| Absences.FirstCoveringIs | app/absences.py:501-505 | the absence found covers the day, and is found exactly if there is one |
| Absences.StatusMeans | app/absences.py:279-310 | for each of the nine statuses exactly who has it on a day |
| Absences.CellMeans | app/absences.py:501-518 | and exactly whose cell of the month shows it |
| Absences.LateAndAbsentMean | app/absences.py:279-310 | exactly who is late and who is absent on a day |
| Absences.CellAgreesIff | app/absences.py:501-518 | exactly when a cell of the grid is the day's roster status with days off folded |
| Absences.GridRefinesRoster | app/absences.py:425-524 | every cell agrees with the roster of its day under the stated configuration |
| Absences.ColumnAgreesIff | app/absences.py:478-495 | for which configurations a column agrees for everybody |
| AbsenceReports.DailyRoster | app/absences.py:365-382 | the loop's statuses, totals and branch buckets |
| AbsenceReports.RosterConserves | app/absences.py:365-394 | totals add up to the rows, and branches add up to the totals |
| AbsenceReports.DailyCountIs | app/absences.py:365-382 | a branch's count is that over its own people, those without a branch under a dash |
| AbsenceReports.PersonMonth | app/absences.py:498-521 | a line holds the cell of every day and counts each once |
| AbsenceReports.MonthlyReport | app/absences.py:497-524 | the grid and its branch buckets |
| AbsenceReports.MonthConserves | app/absences.py:497-524 | counts add up to the days, and branches to the cells of the grid |
| AbsenceReports.MonthCountIs | app/absences.py:497-524 | a branch's count is that over the cells of its own people |
| PersonnelCsv.Registry.ClassifyRow | app/personnel_csv.py:194-315 | one turn of the loop, with its early continues in order |
| PersonnelCsv.Registry.ClassifyCsvRows | app/personnel_csv.py:165-320 | the verdicts of all rows and their summary |
| PersonnelCsv.Registry.CommitCsvRows | app/personnel_csv.py:350-401 | all rows are written in file order, or none if an accepted row's active value cannot be read |
| PersonnelCsvTheorems.AcceptedIff | app/personnel_csv.py:205-263 | exactly which rows are accepted |
| PersonnelCsvTheorems.VerdictIs | app/personnel_csv.py:205-315 | a row fails for the first of seven things wrong with it, and otherwise is new, unchanged field by field, or an update |
| PersonnelCsvTheorems.SeenIs | app/personnel_csv.py:220-263 | which personnel ids and references a row leaves to be noticed, even if it fails later |
| PersonnelCsvTheorems.CellsAreRead | app/personnel_csv.py:145-222 | cells are stripped, blank ones are absent, and the active column goes by its words |
| PersonnelCsvTheorems.UniqueAfterEveryRow | app/personnel_csv.py:223-237 | no duplicate personnel id after any row of a commit |
| PersonnelCsvTheorems.OnlyNamedAreTouched | app/personnel_csv.py:362-388 | nobody is removed, only named people are rewritten, and additions are the rows without a reference |
| PersonnelCsvTheorems.SecondImportUnchangedIff | app/personnel_csv.py:239-295 | a second import of an error-free file of references leaves every row unchanged exactly if it is well spelled |
| PersonnelCsvTheorems.ReimportUnchangedIff | app/personnel_csv.py:130-143 | an export comes back unchanged exactly if every exported record is clean |

## Left out

* MQTT, HTTP, server-sent events, authentication, the frontend, Telegram formatting, the health file, the native push
  listener and clock synchronisation: transport and display.
* The fingerprint library and the terminal's own firmware, beyond the honest-reads assumption stated above; `get_users`
  returning nothing is read as raising, and one terminal address is assumed.
* SQL text, log lines, notes and audit columns of the identity tables. Rows of enrollments, mappings and scans are numbered
  by insertion, terminal accounts are named by their device and user id, and the newest mapping is the last inserted.
* In the identity runs a transaction that closes mappings takes the time it began, however long ago; all other timestamps
  are taken at the commit, later than those before, where PostgreSQL's `now()` is the start of the transaction.
* `IdentityStore` has each operation without another transaction in between; the interleavings are those of the runs.
* The uniqueness and exclusion constraints of the schema are taken as given where the code relies on them: one row per
  scan, no overlapping recorded absences, unique personnel ids.
* The direct write of `active` by a personnel import is not an operation of the identity runs; it does not close mappings.
* Time zones other than a fixed offset, the Gregorian calendar, rank names, CSV quoting, the Excel import, the list of
  people missing from a file and the display-name rules (a flag says whether a name passed).
* A UUID spelling that the file parser accepts and PostgreSQL does not.
* An operator's record is assumed to exist for every write session, and an audit entry to be written once its transaction
  has committed.
* The collector's backoff delay, its counters and its roster timer; what a backfill does to the store is in `Backfill`.
* A scan between the end of a backfill and the start of live capture, or during an enrollment, is not captured live; the
  model says only when live capture may pass it by (`Backfill.LiveScanKeepsCoveredIff`) and that it is lost otherwise
  (`Backfill.PassedByIsLost`).
- DeviceOwnerQueue.Owner.DrainPending: describes the loop without other threads, because the interleavings are those of `DeviceOwner`.
- IdentityAtomic.OpenMappingsStayCurrent: is about runs with current reads, because it is false otherwise; `IdentityAtomic.OpenMappingsStayCurrentIff` says for every run exactly when it holds.
- IdentityAtomic.EvidenceNeverMoves: is about runs with current reads and windows of at most five minutes, because it is false otherwise; `IdentityAtomic.EvidenceStaysIff` says for every run exactly when it holds.
- IdentityAttribution.AttributionIsPermanent: is about runs whose closings begin after the scan, because it is false otherwise; `IdentityAttribution.OwnerStaysIff` says for every run exactly when it holds.
- Backfill.CoverageIffInOrder: starts from an empty store and has no live capture that passes a record by, because such a capture loses it whatever the log; `Backfill.CoveredThroughoutIff` has the exact condition on a run.
- RateLimiter.AdmissionsAreBounded: bounds skews of up to fifteen seconds, because a larger one leaves room for more windows; `RateLimiter.TwiceTheLimitIff` covers every skew.
- PersonnelCsvTheorems.SecondImportUnchangedIff: has no other writer between the two imports, because the code classifies and commits in separate transactions without a lock.
