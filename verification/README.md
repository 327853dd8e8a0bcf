# Verified model of the backend's stateful components

A Dafny 4.11 model of the parts of the project-management backend whose correctness is a matter of whole
runs: the email outbox and its workers, the leave ledger and the assignment check that reads it, the
discussion thread and its page cursor, the login rate limiter, the socket registry, and sessions with the
last-admin rule. `dafny verify dfyconfig.toml` checks everything. Nothing here runs the backend.

## How it is built

Each component has up to three layers. Values and functions say what one call makes of the state. Where the
source updates objects in place, classes with the same fields repeat its loops and assignments and are
proved against those functions. Runs (sequences of states, one step a database transaction or one stretch
between two awaits) carry the invariants and the main theorems.

| component | modules |
|---|---|
| outbox | `OutboxRows`, `OutboxQueue`, `OutboxRepository`, `OutboxWorker` (the code); `OutboxProtocol` (every interleaving, no timing assumption); `OutboxHistory` (each column by the history of writes); `OutboxTimed` (records land less than five minutes after their claim); `OutboxPace` (when workers earn that); `OutboxFairness`, `OutboxDrain` (progress) |
| leave | `Leave`, `LeaveStore` (the code); `LeaveMerge`, `LeaveLedger`, `LeaveRuns`, `LeaveCalendar` (what holds, in half-days); `TaskAssignment` (the check on the summary) |
| discussion | `CursorText`, `Cursor`, `CursorReading`, `Instants` (the cursor); `Keyset`, `Discussion` (one page); `ThreadReading` (a whole reading) |
| login limiter | `RateLimiter`, `LoginAttempts` |
| socket registry | `ConnectionRegistry`, `RegistryRuns` |
| accounts | `Accounts`, `AccountStore` (the code); `AccountRuns`, `AccountRules` (what holds) |

Time is an integer number of microseconds (the limiter's monotonic clock a real), dates are day numbers,
leave is counted in half-days, and identifiers are natural numbers. Clock readings, the configured backoff
base, the outcome of a send and fresh tokens are arguments.

Four findings are stated as theorems rather than hidden in hypotheses:

- `_record` writes without looking at the row, so a result that lands after the row was reclaimed can turn a
  sent email back into a pending one (`OutboxProtocol.LateRecordUndoesSent`). `OutboxTimed` and `OutboxDrain`
  assume that every record lands less than five minutes after its claim, and nothing else about time; nothing
  in `OutboxProtocol` assumes even that. `OutboxPace.PacedWorkersAreTimely` says when any number of interleaved
  workers earn the assumption.
- Timely records do not stop a finished email from being sent again: a send that hangs for five minutes can end
  after another worker has sent and recorded the row (`OutboxTimed.HungSendGoesOutAgain`). It is sent again if
  and only if such a late send happens (`OutboxTimed.NeverSentAgainIff`), and workers that keep the pace have
  none (`OutboxPace.PacedWorkersFinishOnce`).
- `next_attempt_at` never moves back if and only if `OUTBOX_RETRY_BASE_SECONDS` is not negative
  (`OutboxProtocol.NextAttemptIsMonotoneIff`); the settings do not enforce it.
- The assignment check is sound but not exact on days: a leave with a gap refuses a task that fits in the gap
  (`TaskAssignment.GapsAreRefused`; `TaskAssignment.ConflictIsExact` says what it does decide).

Where code and documentation disagree the code is followed: the schemas in `app/schemas/leave_log.py` do not
match the service (the update schema has no `days`, and the create schema's validator reads fields it does not
have), so the payload is the one the service reads.

## Model

| member | source | states |
|---|---|---|
| `OutboxRows.BackoffMonotone` | app/repositories/outbox_repository.py:16-18 | for a base delay that is not negative, more recorded failures never mean a shorter pause |
| `OutboxRows.BackoffAtLeastBase` | app/repositories/outbox_repository.py:16-18 | a pause is never shorter than the base delay, or than the cap when the base exceeds it |
| `OutboxRows.TotalBackoffClosedForm` | app/repositories/outbox_repository.py:16-18 | the pauses between n failures add up to base * (2^(n-1) - 1) until the cap is reached, and never to more than 3600 * (n - 1) |
| `OutboxRows.LateRecordKeepsStatusIff` | app/worker.py:62-82 | recording does not look at the row it writes: a finished row keeps its status exactly when the late result agrees with it |
| `OutboxQueue.RankedIsStrictlyIncreasing` | app/repositories/outbox_repository.py:30-44 | the claim order (next_attempt_at, id) is strict: every row is listed once, before all later ones |
| `OutboxQueue.FirstDueIsExactlyTheHead` | app/repositories/outbox_repository.py:30-44 | a claim takes distinct, due, unlocked rows by next_attempt_at and then id, as many as the limit allows, and whatever it leaves behind comes later than all it takes |
| `OutboxRepository.EmailOutbox.constructor` | app/models/outbox.py:15-53 | a new row is pending, with no attempts and due at once |
| `OutboxRepository.Repository.EnqueueEmail` | app/services/outbox_service.py:10-32 | exactly one row joins the table; every other row object is the one that was there |
| `OutboxRepository.Repository.SelectDue` | app/repositories/outbox_repository.py:26-44 | the selected objects are the stored rows of the claim query, in its order, each once |
| `OutboxRepository.Repository.MarkProcessing` | app/repositories/outbox_repository.py:45-51 | the in-place loop turns exactly the selected rows to processing under one stamp and leaves all others alone |
| `OutboxRepository.Repository.ClaimBatch` | app/repositories/outbox_repository.py:24-51 | query and loop together: the table afterwards is the old one with the head of the due order claimed |
| `OutboxRepository.Repository.GetForUpdate` | app/repositories/outbox_repository.py:53-56 | the row with that id, or nothing when there is none |
| `OutboxRepository.Repository.MarkSent` | app/repositories/outbox_repository.py:58-65 | the whole row after a success; `OutboxHistory.RowTellsItsHistory` says what that makes of any run |
| `OutboxRepository.Repository.MarkRetry` | app/repositories/outbox_repository.py:67-77 | the whole row after a failure with attempts left: the pause is computed from the attempts already counted up |
| `OutboxRepository.Repository.MarkFailed` | app/repositories/outbox_repository.py:79-86 | the whole row after the last failure |
| `OutboxRepository.Repository.RecordFailure` | app/repositories/outbox_repository.py:88-93 | the branch between retry and failure is taken on the attempts as they will be |
| `OutboxProtocol.UnrecordedAfter` | app/worker.py:36-108 | which sends are finished but unrecorded after each kind of step |
| `OutboxProtocol.StepConserves` | app/worker.py:62-108 | every step keeps: sends = attempts + sent marks + lost results + results in hand |
| `OutboxProtocol.StepKeepsRows` | app/repositories/outbox_repository.py:46-93 | every step keeps the row invariant (locked exactly while processing, attempts below the limit until failed, stamps agree with the last write) |
| `OutboxProtocol.StepKeepsInv` | app/repositories/outbox_repository.py:24-93 | one step of any worker keeps the whole invariant that needs no timing assumption |
| `OutboxProtocol.RunKeepsInv` | app/repositories/outbox_repository.py:24-93 | so does every interleaving of any number of workers |
| `OutboxProtocol.EveryReachableRow` | app/repositories/outbox_repository.py:46-93 | in every reachable state, with no timing assumption: locked exactly while processing; pending and processing rows have attempts left; failed rows have none; every finished send is accounted for once |
| `OutboxProtocol.NeverMovesBack` | app/repositories/outbox_repository.py:67-77 | with a base delay that is not negative rows stay and next_attempt_at does not decrease between any two states of a run |
| `OutboxProtocol.NegativeBaseMovesBack` | app/repositories/outbox_repository.py:16-18 | a run in which a negative base delay moves next_attempt_at back |
| `OutboxProtocol.NextAttemptIsMonotoneIff` | app/repositories/outbox_repository.py:67-77 | next_attempt_at never moves back between any two states of any run if and only if the configured base delay is not negative |
| `OutboxProtocol.ReclaimedRun` | app/repositories/outbox_repository.py:30-51 | a run in which a second worker reclaims, at five minutes, a row that the first still has in hand |
| `OutboxProtocol.LateRecordUndoesSent` | app/worker.py:62-82 | a record landing after a reclaim can turn a sent row back to pending: the timing hypothesis of the next group is needed |
| `OutboxHistory.RowTellsItsHistory` | app/repositories/outbox_repository.py:45-93 | in every reachable state every column of every row is what the writes so far make it: status and lock by the last write, attempts by the failures recorded, sent_at by the last success, last_error the first 2000 characters of the last failure, updated_at the last write, next_attempt_at the enqueue or the last failure plus its pause |
| `OutboxHistory.FoundExactlyWhenItMayBeTaken` | app/repositories/outbox_repository.py:30-44 | the claim query finds a row if and only if nobody has it locked and it is new, or failed with attempts left and its pause is over, or was taken five minutes ago and not reported since |
| `OutboxTimed.NoLiveHolder` | app/repositories/outbox_repository.py:30-44 | under timely records a row that is due or finished is in nobody's live hands |
| `OutboxTimed.StepKeepsExclusivity` | app/repositories/outbox_repository.py:30-51 | no step gives a row a second live holder |
| `OutboxTimed.RunKeepsTimedInv` | app/worker.py:36-108 | the exclusivity, ownership and spacing invariant holds over every timely run |
| `OutboxTimed.AtMostOneLiveHolder` | app/repositories/outbox_repository.py:24-51 | two workers never hold the same row within the five minutes |
| `OutboxTimed.FinishedRowsAreFinal` | app/worker.py:62-82 | under timely records sent and failed are absorbing: the row is never written, and so never claimed, again |
| `OutboxTimed.OnlyLateSendsFollow` | app/worker.py:92-103 | once a row is finished its further sends are exactly the late ones: those that end five minutes or more after their claim |
| `OutboxTimed.NeverSentAgainIff` | app/worker.py:92-103 | nothing is sent after it is recorded sent or failed if and only if no send of the row ends late meanwhile |
| `OutboxTimed.HungSendGoesOutAgain` | app/worker.py:92-103 | a timely run in which a sent row is sent again, by a send that hung for five minutes |
| `OutboxTimed.SendsAreBounded` | app/repositories/outbox_repository.py:88-93 | attempts never exceed the limit, a failed row has used exactly it, and sends are at most limit + lost + stranded results |
| `OutboxTimed.SpacedFailures` | app/repositories/outbox_repository.py:67-77 | failures each at least one pause apart are, first to last, at least the sum of the pauses apart |
| `OutboxTimed.FailuresAreSpreadOut` | app/repositories/outbox_repository.py:67-86 | the first and last of a row's n recorded failures are at least the n - 1 backoff pauses apart; for a failed row n is the attempt limit |
| `OutboxWorker.JobIsAPath` | app/worker.py:92-108 | one turn of the worker loop is a path of protocol steps |
| `OutboxWorker.TimelyPathExtendsRun` | app/worker.py:85-108 | a timely path continues any timely run, so facts about runs apply to what workers do |
| `OutboxWorker.BatchIsATimelyPath` | app/worker.py:85-108 | a batch that no other worker interrupts is a path of the protocol, and a timely one whenever the commit and the jobs, at most d each, fit in five minutes |
| `OutboxWorker.FirstDueIsClaimable` | app/repositories/outbox_repository.py:30-44 | whatever the claim query returns is a legal claim of the protocol |
| `OutboxWorker.RecordResult` | app/worker.py:62-82 | _record writes exactly the one row, by its result; a missing row or a failing transaction changes nothing |
| `OutboxWorker.DeliverJob` | app/worker.py:92-107 | the mutable error of a turn ends up recorded on that job's row and no other |
| `OutboxWorker.DeliverAll` | app/worker.py:91-107 | the loop leaves the table the protocol reaches by the jobs' steps in claim order |
| `OutboxWorker.ProcessBatch` | app/worker.py:85-108 | claim and loop together equal one protocol claim and one send and record a job; the count of claimed rows is returned |
| `OutboxPace.HoldComesFromAClaim` | app/worker.py:36-59 | every job in hand was issued by a claim of the run and keeps that claim's time |
| `OutboxPace.BatchMeetsTheDeadline` | app/worker.py:85-108 | in any run, whatever other workers do meanwhile: if the commit takes at most claimTook, each job at most d after the one before, and claimTook + batch * d is under five minutes, then each send and record of the batch ends in time |
| `OutboxPace.PacedWorkersAreTimely` | app/worker.py:85-108 | any interleaving of workers that keep such a pace is a timely run without late sends |
| `OutboxPace.PacedWorkersFinishOnce` | app/worker.py:85-108 | among such workers a finished row is neither written nor sent again |
| `OutboxFairness.BatchIsARound` | app/worker.py:85-108 | what process_batch does, when no record is lost, is a round of the queue |
| `OutboxFairness.RetryReentersBehind` | app/repositories/outbox_repository.py:67-77 | with a positive base delay a retried row comes back later than every row that was due |
| `OutboxFairness.AheadShrinks` | app/repositories/outbox_repository.py:30-51 | nobody overtakes: the rows ahead after a round were ahead before it and were not claimed |
| `OutboxFairness.PassedOver` | app/repositories/outbox_repository.py:30-51 | a waiting row is passed over only for a full batch of rows ahead of it |
| `OutboxFairness.BoundedWaiting` | app/repositories/outbox_repository.py:30-51 | a due row with k eligible rows ahead of it is claimed within k / limit + 1 batches |
| `OutboxDrain.NothingOpenIffFinished` | app/repositories/outbox_repository.py:58-93 | the budget (attempts left over unfinished rows) is zero exactly when every row is sent or failed |
| `OutboxDrain.StepSpendsBudget` | app/repositories/outbox_repository.py:58-93 | without enqueues no step raises the budget and each recorded result lowers it |
| `OutboxDrain.DrainsWithinBudget` | app/worker.py:92-103 | at most budget many results are ever recorded, and after that many every row is sent or failed |
| `OutboxDrain.CanDeliverOne` | app/repositories/outbox_repository.py:30-93 | from any reachable state an unfinished row can be claimed, sent and recorded in time, and the budget falls whatever the send returns |
| `OutboxDrain.EveryRunCanDrain` | app/worker.py:85-108 | whatever the sends return, every timely run extends, with no new rows and at most budget many sends, to one in which every row is sent or failed |
| `Leave.FirstDay` | app/services/leave_log_service.py:182-191 | the chosen day is among the days and none has an earlier date |
| `Leave.LastDate` | app/services/leave_log_service.py:182-191 | the end is the date of some day and none is later |
| `Leave.CalculateTotalDays` | app/services/leave_log_service.py:167-180 | the accumulating loop computes the sum of one or one half a day |
| `Leave.FindRow` | app/repositories/leave_log_day_repository.py:29-41 | the stored row of that leave and date, soft-deleted or not, and none exactly when there is none |
| `Leave.Merge` | app/services/leave_log_service.py:396-431 | stored rows keep their places, their leave and their date; others are only added behind them |
| `LeaveMerge.MergeKeepsOneRowADate` | app/services/leave_log_service.py:396-431 | after a merge there is still one row per leave and date |
| `LeaveMerge.ActiveRowsArePayload` | app/services/leave_log_service.py:392-441 | after a schedule update the leave's active rows are exactly the requested days as a date-to-slot map |
| `LeaveMerge.MergeRowByRow` | app/services/leave_log_service.py:392-441 | what becomes of each row: other leaves' rows untouched, requested dates rewritten or revived, dropped dates soft-deleted, rows added only for new dates |
| `LeaveLedger.TotalCountsUnits` | app/services/leave_log_service.py:167-180 | disjoint days last as long as the half-days they cover |
| `LeaveLedger.SameDaysSameSummary` | app/services/leave_log_service.py:167-191 | start, end and total depend only on which days there are, not on their order |
| `LeaveLedger.PeriodStartsWithItsFirstHalf` | app/services/leave_log_service.py:116-133 | a period starts with the first of its half-days, of twelve hours each, and no later than any of them |
| `LeaveLedger.SlotIsItsHalves` | app/services/leave_log_service.py:66-89 | the stored range is the day's half-days, counted from its first |
| `LeaveLedger.ApartIsNoCommonHalf` | app/repositories/leave_log_day_repository.py:43-62 | two day entries overlap if and only if some half-day is in both |
| `LeaveLedger.CreateFitsConstraints` | app/services/leave_log_service.py:206-222 | a create that passes the overlap check satisfies the unique and exclusion constraints |
| `LeaveLedger.RescheduleFitsConstraints` | app/services/leave_log_service.py:206-222 | so does an update that passes it with its own leave left out of the lookup |
| `LeaveLedger.CreateKeepsInv` | app/services/leave_log_service.py:260-316 | create keeps disjointness, uniqueness and summary agreement |
| `LeaveLedger.UpdateKeepsInv` | app/services/leave_log_service.py:342-469 | update keeps them, for every branch of the merge |
| `LeaveLedger.DeleteKeepsInv` | app/services/leave_log_service.py:471-503 | delete keeps them: parent and rows go together |
| `LeaveRuns.LeaveNeverOverlaps` | app/repositories/leave_log_day_repository.py:43-62 | over every run of create, update and delete one user's active rows never overlap, across leaves |
| `LeaveRuns.ConstraintsNeverFire` | app/models/timesheet.py:237-273 | in every reachable ledger what the service's own checks let through the database constraints accept |
| `LeaveRuns.LeaveFitsTheCalendar` | app/models/timesheet.py:266-272 | a user's active leave in any window [a, b] is at most 2 * (b - a + 1) half-days |
| `LeaveRuns.SummaryAgreesWithDays` | app/services/leave_log_service.py:167-191 | a live leave's start, end and total are the least date, greatest date and sum of its active days; a deleted leave has no active day |
| `LeaveRuns.EarliestDayStartsFirst` | app/services/leave_log_service.py:116-165 | the day with the earliest date has the least period start of all days |
| `LeaveRuns.NothingBegun` | app/services/leave_log_service.py:193-204 | if the first period of a leave is still to come, none of its active rows has begun |
| `LeaveRuns.StartedLeaveIsFrozen` | app/services/leave_log_service.py:193-254 | with no update by an admin or manager, creates, updates and deletes never change the set of active rows some half-day of which has begun |
| `LeaveCalendar.CreateIsExact` | app/services/leave_log_service.py:260-316 | a create is refused for want of an organization, then for an empty request, then because a requested half-day has begun, then because the user has one already, and for nothing else |
| `LeaveCalendar.UpdateIsExact` | app/services/leave_log_service.py:342-469 | an update is refused for a missing leave, a caller who is neither privileged nor its user before any half-day has begun, an empty schedule, a requested half-day begun (unless privileged) or taken by another of the user's leaves, in that order, and for nothing else |
| `LeaveCalendar.DeleteIsExact` | app/services/leave_log_service.py:471-503 | a delete is refused for a missing leave and for anyone but its user before any half-day has begun, and for nothing else |
| `LeaveCalendar.CreateTakesTheRequest` | app/services/leave_log_service.py:260-316 | after a create the leave takes exactly the requested half-days, with the requested columns; everything else stands |
| `LeaveCalendar.UpdateTakesTheRequest` | app/services/leave_log_service.py:375-456 | after an update the leave takes exactly the requested half-days, its type and reason are the requested ones where set and the old ones otherwise; everything else stands |
| `LeaveCalendar.DeleteFreesTheLeave` | app/services/leave_log_service.py:489-503 | after a delete the leave takes nothing, and it and its active rows bear the caller's stamp; everything else stands |
| `LeaveCalendar.CalendarIsTheLeaves` | app/repositories/leave_log_day_repository.py:43-62 | a user's taken half-days are those of the user's leaves |
| `LeaveStore.LeaveLogService.AddDays` | app/services/leave_log_service.py:296-307 | the loop adds one active row a requested day, in order, after the stored ones |
| `LeaveStore.LeaveLogService.SomeDayOverlaps` | app/services/leave_log_service.py:206-222 | the loop over the payload finds an overlap exactly when some day has one |
| `LeaveStore.LeaveLogService.CreateLeaveLog` | app/services/leave_log_service.py:260-316 | create on row objects: the new ledger on success; on a refusal, service or database, nothing changes; `LeaveCalendar.CreateIsExact` says which |
| `LeaveStore.LeaveLogService.MergeDay` | app/services/leave_log_service.py:401-431 | one turn of the merge loop rewrites or revives the stored row of that date in place, or adds one |
| `LeaveStore.LeaveLogService.MergeDays` | app/services/leave_log_service.py:401-431 | the loop performs the merge; stored row objects stay where they are |
| `LeaveStore.LeaveLogService.ActiveRows` | app/repositories/leave_log_day_repository.py:13-27 | the positions of exactly the leave's rows that are not deleted, each once |
| `LeaveStore.LeaveLogService.DropRows` | app/services/leave_log_service.py:433-441 | only listed rows whose date is not requested are soft-deleted; every other row keeps all its fields |
| `LeaveStore.LeaveLogService.Reschedule` | app/services/leave_log_service.py:392-441 | rows listed before the merge are judged by the payload after it |
| `LeaveStore.LeaveLogService.ApplyUpdate` | app/services/leave_log_service.py:392-455 | day rows and parent columns change together |
| `LeaveStore.LeaveLogService.UpdateLeaveLog` | app/services/leave_log_service.py:342-469 | update on row objects, with every refusal leaving the ledger as it was |
| `LeaveStore.LeaveLogService.DeleteLeaveLog` | app/services/leave_log_service.py:471-503 | delete on row objects: parent and active rows are soft-deleted by the caller, or nothing changes |
| `LeaveStore.ParentAfter` | app/services/leave_log_service.py:443-455 | parent columns change only for the fields the payload sets |
| `LeaveStore.FlushAccepts` | app/models/timesheet.py:237-273 | the database accepts exactly the tables that meet the check, unique and exclusion constraints |
| `TaskAssignment.TaskAssigneeService.CreateAssignee` | app/services/task_assignee.py:60-101 | a row is added exactly when no guard of the chain, in its order, refuses |
| `TaskAssignment.TaskAssigneeService.DeleteAssignee` | app/services/task_assignee.py:123-137 | refused for a missing or removed assignment, then a missing task, then a caller who may not manage it; else the row alone is marked removed, in place |
| `TaskAssignment.ConflictIsExact` | app/repositories/task_assignee_repository.py:57-82 | the summary check refuses exactly when some leave's active days reach across the task window |
| `TaskAssignment.AssignmentIsExact` | app/services/task_assignee.py:60-101 | a request is refused for the first of the eight reasons, in the service's order, and for nothing else; the last is that some leave's active days reach across the task's days |
| `TaskAssignment.AssignmentAvoidsLeave` | app/services/task_assignee.py:82-88 | a successful assignment means no active leave day on a day the task is known to be worked on (between its dates, or on the one it has), though only the summary was read |
| `TaskAssignment.GapsAreRefused` | app/repositories/task_assignee_repository.py:57-82 | the converse fails: a window inside a gap between leave days is refused |
| `CursorText.NumberReadsPrinted` | app/services/discussion_service.py:31-46 | fixed-width decimal and hexadecimal fields are read back |
| `CursorText.Base64RoundTrip` | app/services/discussion_service.py:31-46 | the lenient base64url reader returns the bytes written, for each of the three padding cases (section 5 of RFC 4648) |
| `Cursor.IsoRoundTrip` | app/services/discussion_service.py:31-46 | an ISO timestamp is read back field by field, with and without fraction, with and without offset (section 5.6 of RFC 3339) |
| `Cursor.UuidRoundTrip` | app/services/discussion_service.py:31-46 | every 128-bit id is read back from its hyphenated form (section 4 of RFC 9562) |
| `Cursor.BarSplits` | app/services/discussion_service.py:36-46 | the first bar of the raw text is the one between timestamp and id |
| `Cursor.CursorRoundTrip` | app/services/discussion_service.py:31-46 | decode(encode(t, id)) = (t, id) if and only if t carries an offset; a naive timestamp is refused |
| `Cursor.CursorsAreDistinct` | app/services/discussion_service.py:31-33 | equal cursors mean equal timestamp and id |
| `CursorReading.DateIsReadIff` | app/services/discussion_service.py:36-46 | a date is read from the ten characters that print it and from no others |
| `CursorReading.TimestampIsShown` | app/services/discussion_service.py:36-46 | a timestamp is read only from a date, a separator, a clock that shows hour, minute, second and fraction in order, and an offset or nothing |
| `CursorReading.UuidIsShown` | app/services/discussion_service.py:36-46 | an id is read only from its 32 hexadecimal digits, once prefixes, braces and hyphens are gone |
| `CursorReading.WrappedUuidIsRead` | app/services/discussion_service.py:36-46 | braces around an id or the URN prefix before it make no difference |
| `CursorReading.EitherAlphabetIsRead` | app/services/discussion_service.py:36-46 | both base64 alphabets are read and mean the same |
| `CursorReading.JunkIsSkipped` | app/services/discussion_service.py:36-46 | characters of neither base64 alphabet are skipped wherever they stand |
| `CursorReading.Base64IsReadIff` | app/services/discussion_service.py:36-46 | base64 is read if and only if its last quad is complete, or completed by its padding |
| `Instants.InstantOrdersStamps` | app/repositories/discussion_repository.py:31-33 | timestamps with one offset are ordered as they read, and equal instants are equal stamps |
| `Instants.InstantsAreElapsedTime` | app/repositories/discussion_repository.py:31-33 | instants are elapsed time: a day is 86400 seconds, clocks differ by what they show, and an offset to the east makes the instant earlier by as much |
| `Instants.LeapDaysAreCounted` | app/repositories/discussion_repository.py:31-33 | the days before a year: 365 each, and a leap day every fourth but for the centuries but for every fourth of them |
| `Keyset.RankedDescends` | app/repositories/discussion_repository.py:33-34 | the listing is strictly newest first |
| `Keyset.ListingIsUnique` | app/repositories/discussion_repository.py:33-34 | a set of rows has only one newest-first listing |
| `Keyset.PageIsExact` | app/services/discussion_service.py:102-107 | one row more than the page holds tells exactly whether more is to come, and a page leaves out only older rows |
| `Keyset.PageKeepsInv` | app/services/discussion_service.py:93-114 | one more page, on a table that has changed meanwhile, keeps the walk's invariant |
| `Keyset.WalkKeepsInv` | app/services/discussion_service.py:93-114 | so does every walk over a changing table |
| `Discussion.EncodedCursorIsItsKey` | app/services/discussion_service.py:101-110 | a cursor handed out is never empty and is read as the key of its comment |
| `Discussion.ListingIsExact` | app/services/discussion_service.py:83-114 | refusals in their order; otherwise an exact page below the cursor, and a next cursor exactly when more is to come |
| `Discussion.ThreadIsTheProjects` | app/repositories/discussion_repository.py:26-30 | a thread is the project's comments that are not deleted, each under the instant of its timestamp |
| `Discussion.PageIsTrue` | app/services/discussion_service.py:83-114 | on the columns: the call is refused exactly when the project is missing, deleted or another organization's, or the caller neither admin nor member; then for an unreadable cursor; a page has at most limit rows, all comments of the project that are not deleted |
| `ThreadReading.ReadingIsAWalk` | app/services/discussion_service.py:101-110 | following next_cursor is following keys, whatever text the cursors are |
| `ThreadReading.NothingIsRepeated` | app/repositories/discussion_repository.py:31-34 | with arbitrary posts and soft-deletes between pages, (created_at, id) strictly falls over the whole reading and no comment comes twice |
| `ThreadReading.EveryLastingCommentIsReadOnce` | app/services/discussion_service.py:93-114 | a finished reading returns every comment that was in the project and not deleted at every page at one position and no other |
| `ThreadReading.PagesHoldOnlyLiveComments` | app/repositories/discussion_repository.py:26-30 | at every page the project was open to the caller and each row a comment of the project, not deleted, keyed by its timestamp's instant |
| `ThreadReading.PagesJoinToTheThread` | app/services/discussion_service.py:93-114 | on an unchanged table the pages concatenate to all the project's comments that are not deleted, nothing else, newest first |
| `ThreadReading.NextPageExists` | app/services/discussion_service.py:101-110 | a next cursor is good for another call on any later table while the caller has access |
| `ThreadReading.PromisingPagesAreFew` | app/services/discussion_service.py:103-107 | pages that promise more are full, and limit times their number stays below the size of the thread |
| `ThreadReading.ReadingEnds` | app/services/discussion_service.py:93-114 | any reading of an unchanged table can be continued to its end, with the whole thread read in the least number of pages |
| `RateLimiter.SlidingWindowRateLimiter.Prune` | app/core/rate_limit.py:23-29 | the popleft loop drops the expired prefix; an emptied deque is removed |
| `RateLimiter.SlidingWindowRateLimiter.IsLimited` | app/core/rate_limit.py:31-33 | the answer compares the pruned deque with the limit |
| `RateLimiter.SlidingWindowRateLimiter.Check` | app/core/rate_limit.py:35-42 | status 429 exactly when limited |
| `RateLimiter.SlidingWindowRateLimiter.Record` | app/core/rate_limit.py:44-48 | prunes, then appends the hit |
| `RateLimiter.SlidingWindowRateLimiter.Reset` | app/core/rate_limit.py:50-52 | the key is forgotten and no other |
| `RateLimiter.StoredIsTrimmedHistory` | app/core/rate_limit.py:23-52 | what is stored for a key is its history since the last reset, less hits already out of the window |
| `RateLimiter.PrunedCountIsNaiveCount` | app/core/rate_limit.py:23-33 | the pruned deque is as long as the number of hits in (now - window, now] in the whole history |
| `RateLimiter.LimiterRefinesNaiveCount` | app/core/rate_limit.py:31-48 | in every run under a monotone clock the limiter answers as the naive count; deques are sorted and not empty |
| `RateLimiter.KeysAreIndependent` | app/core/rate_limit.py:23-52 | calls on other keys can be struck from a run without changing what a key stores |
| `LoginAttempts.StepKeepsBounded` | app/api/routes/auth.py:29-39 | check, fail and succeed each keep: hits in any window plus logins in flight stay bounded |
| `LoginAttempts.StepsAreExact` | app/api/routes/auth.py:29-39 | a login gets past the check exactly when fewer than max_attempts failures are in the window; a failure adds one, a success clears the key, and other keys are untouched |
| `LoginAttempts.OvershootIsBounded` | app/api/routes/auth.py:29-39 | with at most k logins in flight, the failures since the key's last successful login number at most max_attempts - 1 + k in any window; one at a time, at most max_attempts |
| `LoginAttempts.WindowWithResets` | app/api/routes/auth.py:29-39 | a window with r successful logins in it holds at most (r + 1) * (max_attempts - 1 + k) failures, whatever came before |
| `LoginAttempts.OvershootIsReached` | app/api/routes/auth.py:29-39 | the bound is attained: some run with k logins in flight records that many |
| `ConnectionRegistry.InProcessConnectionManager.Connect` | app/core/realtime.py:46-63 | the eviction loop and the append, in place; the evicted connections are returned in the order they are closed |
| `ConnectionRegistry.InProcessConnectionManager.Disconnect` | app/core/realtime.py:65-72 | removes one connection, and the list with its last one; a connection not listed changes nothing |
| `ConnectionRegistry.InProcessConnectionManager.Publish` | app/core/realtime.py:80-90 | an uninterrupted publish drops exactly the connections whose send fails |
| `ConnectionRegistry.EvictTakesTheOldest` | app/core/realtime.py:52-60 | eviction takes the user's oldest, just enough of them, and nobody else's |
| `ConnectionRegistry.ConnectIsBoundedEnqueue` | app/core/realtime.py:46-63 | a connect appends to its user's queue and keeps the latest five; every other queue stays |
| `ConnectionRegistry.DisconnectIsRemoval` | app/core/realtime.py:65-72 | a disconnect takes one connection out of one queue or does nothing |
| `RegistryRuns.StepRefinesFifo` | app/core/realtime.py:46-90 | every step of the registry is a step of each user's own bounded first-in first-out queue |
| `RegistryRuns.RunKeepsInv` | app/core/realtime.py:46-90 | cap, conservation, order and fan-out accounting hold over every interleaving |
| `RegistryRuns.EveryReachableRegistry` | app/core/realtime.py:46-72 | at most five a user and project, no empty list, arrival order, and each arrival is registered, evicted or disconnected, exactly once |
| `RegistryRuns.PublishAttemptsItsSnapshotOnce` | app/core/realtime.py:87-90 | a finished publish attempted each connection of its snapshot once and nothing else, whatever happened meanwhile |
| `RegistryRuns.SnapshotIsTheListThen` | app/core/realtime.py:87-90 | the snapshot of a publish is the project's list at the moment it began |
| `RegistryRuns.PublishLeavesTheSurvivors` | app/core/realtime.py:80-90 | an uninterrupted publish leaves the connections whose send did not fail, in order, and every other project as it was |
| `RegistryRuns.PublishDropsOnlyFailures` | app/core/realtime.py:80-85 | of a publish's steps only a failed send changes the registry, by that one connection |
| `RegistryRuns.LatestArrivalsAreHeld` | app/core/realtime.py:46-63 | while nothing is disconnected each user holds just the latest five arrivals |
| `Accounts.UpdateKeepsAnAdmin` | app/services/user_service.py:232-267 | an update that goes through leaves an admin wherever there was one |
| `Accounts.DeleteKeepsAnAdmin` | app/services/user_service.py:269-291 | so does a delete |
| `Accounts.LastAdminDeleteRefusalIsExact` | app/services/user_service.py:216-230 | a permitted delete is refused by the rule exactly when it would leave the organization without an admin |
| `Accounts.LastAdminUpdateRefusalIsExact` | app/services/user_service.py:216-230 | likewise for an update by role, status or both |
| `AccountStore.UserRow.SetFields` | app/services/user_service.py:260-261 | the loop over the set fields changes those columns and no other |
| `AccountStore.SessionRow.Revoke` | app/repositories/session_repository.py:24-27 | revoked_at is set and nothing else |
| `AccountStore.Store.IssueTokens` | app/services/auth_service.py:60-73 | one session under the fresh token, and no other row touched |
| `AccountStore.Store.RevokeAllForUser` | app/repositories/session_repository.py:29-35 | exactly the user's unrevoked sessions get the stamp |
| `AccountStore.Store.AuthorizeChange` | app/services/user_service.py:161-192 | the branches of the authorization refuse exactly what the rules for each role say |
| `AccountStore.Store.AssertNotLastAdmin` | app/services/user_service.py:216-230 | refuses exactly the last active admin of an organization |
| `AccountStore.Store.LogIn` | app/services/auth_service.py:75-90 | password login on row objects: the new state or the refusal |
| `AccountStore.Store.RefreshTokens` | app/services/auth_service.py:92-116 | rotation on row objects: an active session is revoked, and a new one issued if its account is usable; any other token changes nothing; `AccountRules.RefreshIsAcceptedIff` says which is which |
| `AccountStore.Store.LogOut` | app/services/auth_service.py:118-121 | an active session is revoked; any other token is ignored |
| `AccountStore.Store.ChangeUser` | app/services/user_service.py:232-267 | update_user with its guards in order, its field loop and its revoke-all |
| `AccountStore.Store.Delete` | app/services/user_service.py:269-291 | delete_user with its guards in order, the soft delete and the revoke-all |
| `AccountRuns.RefreshKeepsCounts` | app/services/auth_service.py:105-116 | rotation leaves the number of unrevoked sessions as it was |
| `AccountRuns.RunKeepsInv` | app/services/auth_service.py:27-121 | session invariant and login count over every run of login, refresh, logout, update and delete |
| `AccountRuns.SessionsAreCountedByLogins` | app/repositories/session_repository.py:24-35 | unrevoked sessions never exceed successful logins since the last revoke-all, and a deleted or non-active user has none |
| `AccountRuns.RevocationIsFinal` | app/repositories/session_repository.py:24-35 | no session disappears and revoked_at never changes once set |
| `AccountRuns.RefreshIsAcceptedOnce` | app/services/auth_service.py:92-116 | in every run refresh accepts each refresh token at most once |
| `AccountRuns.AnAdminIsKept` | app/repositories/user_repository.py:60-75 | over every serial run an organization that has an active, non-deleted admin keeps one |
| `AccountRules.LoginIsExact` | app/services/auth_service.py:27-90 | a login needs a known address, the right password and an account not deleted, then one in good standing; it adds one session for seven days and nothing else |
| `AccountRules.RefreshIsExact` | app/services/auth_service.py:92-116 | a refresh accepts unrevoked, unexpired sessions of accounts in good standing, revokes every unrevoked, unexpired one it is shown, and touches nothing else but the one it issues |
| `AccountRules.LogoutIsExact` | app/services/auth_service.py:118-121 | a logout revokes the session it is shown if it is unrevoked and unexpired, and touches nothing else |
| `AccountRules.RefreshIsAcceptedIff` | app/services/auth_service.py:92-116 | in any run a refresh is accepted if and only if its token was issued by an earlier login or refresh at most seven days before, has not been revoked since, and belongs to an account in good standing |
| `AccountRules.ChangeWrites` | app/services/user_service.py:254-267 | after a change each column is the requested one where set and the old one otherwise; the user's unrevoked sessions are revoked exactly when the password is set or the user is not active; nothing else changes |
| `AccountRules.ChangeStaysInBounds` | app/services/user_service.py:161-192 | managers and employees reach only themselves and not their role, status or designation; admins only users of their organization that are not super admins, make nobody one, keep their own role and status and set nobody else's password |
| `AccountRules.ChangeGoesThroughIff` | app/services/user_service.py:161-267 | a change goes through if and only if the user is there, the caller may make it, and it takes no needed admin away, names a designation of the organization, leaves an employee one, and brings the old password with a new one |
| `AccountRules.ChangeRefusals` | app/services/user_service.py:161-250 | which refusal is given, on the caller's and the user's columns |
| `AccountRules.DeleteIsExact` | app/services/user_service.py:269-291 | the refusals of a delete in their order, for nothing else; otherwise the user and the user's unrevoked sessions are stamped and nothing else changes |

## Left out

- Email senders and templates, S3 storage, the SSO clients and callback, JWT, bcrypt and PKCE: a send is an arbitrary success or failure, and tokens are fresh, distinct values. SSO login is not a step of the session runs; it issues tokens without the checks of the password login.
- Email addresses, subjects and bodies of outbox rows: no property here reads them.
- FastAPI routes, exception handlers, cookies, CORS and Pydantic schemas: only the page limit of at least 1 and distinct payload dates are taken from them.
- Row level security, migrations and SQLAlchemy sessions: only the check, unique and exclusion constraints of the leave tables are taken, and that lookups in a merge do not see unflushed rows.
- SKIP LOCKED: which rows other transactions hold is an arbitrary set, so a claim takes an arbitrary part of the due rows in the protocol and the head of the unlocked ones in the repository.
- The worker's `run` loop, its signal handling and its sleep: `ProcessBatch` is one turn of it.
- The clock is read once a service call, while the source reads it again for some stamps of the same call.
- LeaveStore.LeaveLogService.CreateLeaveLog: the database's verdict is taken before the rows are written, since a refused flush is rolled back.
- LeaveStore.LeaveLogService.UpdateLeaveLog: same; the visible state after the call is the same.
- LeaveMerge.ActiveRowsArePayload: payload dates are distinct; for a repeated new date the source adds two rows and the unique constraint refuses the flush.
- Leave.CalculateTotalDays: does not model an overflow of the NUMERIC(4, 1) column that stores the total.
- LeaveStore.LeaveLogService.ActiveRows: the query's order by leave_date is not stated; its callers take the earliest date or write each row on its own, so it does not matter.
- OutboxPace.BatchMeetsTheDeadline: that a worker ends each job at most d after the one before is assumed of its steps in the run; the loop of one worker alone is `OutboxWorker.ProcessBatch`.
- Listing of leave logs, and the visibility rules of reads.
- Discussion.ListingIsExact: the library's readers accept a few more spellings than the model does (underscores, signs and other alphabets' digits inside a UUID's digits, a separator character outside ASCII, a fraction straight after the hour or behind a colon); such a cursor is an unreadable one here. No encoded cursor uses them. Messages are listed by timestamp and id; authors, contents and the edited flag are not part of the page.
- ThreadReading.EveryLastingCommentIsReadOnce: comments are never removed from the table or restamped between pages, as in the source, which only soft-deletes; nothing else about the changes is assumed.
- Posting to the thread, read markers and unread counts.
- The WebSocket frame loop, `publish_threadsafe` and closing of evicted sockets: a publish is a snapshot followed by interleaved outcomes of its sends.
- AccountRuns.AnAdminIsKept: runs are serial; two concurrent transactions can each see the other's admin, and the code does not prevent it.
- OutboxFairness.BoundedWaiting: one worker, no lost records, a positive base delay and no rows stuck in processing at the start.
- Creation of users, role and designation rules beyond those of `update_user`, and organization management.
- Project, feature, task, activity, calendar, comment, attachment and time-log CRUD, metrics, insight snapshots, display names and offset-paginated lists: single-branch checks and projections that would only add easy members.
