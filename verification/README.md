# PulseQueue: a verified model of the job queue

PulseQueue keeps jobs in relational tables and lets any number of worker threads claim, run,
retry and dead-letter them, while reapers recover lost leases, schedulers materialise cron
occurrences, and clients submit, cancel and drain. This project models that state machine and
proves what it promises over every interleaving.

## How it is put together

- `Tables` holds the rows of `jobs`, `job_attempts` and `dead_letters`, the SQL guards, and what
  each transaction writes to one row. `TablesOk` is the consistency of the tables.
- `Protocol` is the concurrent system. Threads read the clock in one step and run a row
  transaction in a later one, hold tokens of claims that may be long out of date, die at any
  moment, and share worker ids freely. `History`, `Retry`, `Progress`, `ClaimOrder` and `Depth`
  prove the results over its runs (a claim there may take any due row, as `SKIP LOCKED` may; the
  serial claim, which takes a first one, is a special case): fencing, the attempt log, attempts
  that do not overlap, retry spacing, bounded work, the claim order, conservation. `Recovery`
  proves that every job that keeps being served ends, under every schedule, and `Abandonment` that
  no attempt is abandoned before its lease has expired.
- `Repository` is the serial repository as a class with the tables as fields, `Sweeps` the
  specification of its row-by-row transactions; `Worker` is the pool and `process_one`;
  `Handler` is the default handler.
- `RowLocks` and `Postgres` model PostgreSQL's row locks, buffered writes, commits and aborts,
  and prove that every run of them is a run of `Protocol` on the committed tables, whose steps
  `RefinedRun` names: what is proved there of all runs and reachable states carries over as it
  stands. `PostgresHistory` carries over what depends on the steps of a run: retry spacing, the
  outcome of the transient-failure handler, leases, abandonment and claim numbers. `PostgresRepository` has the
  claim and the reaper as methods.
- `Submission` interleaves the lookup, insert and second lookup of many `create_job` calls;
  `Schedules` interleaves materialisation with two-transaction pauses and resumes; `CatchUp` is
  one `materialize_due_schedules` call and the progress of repeated calls; `PostgresSchedules`
  refines `Schedules` with row locks and buffered writes, as `Postgres` does for jobs.
- `WholeQueue` puts workers, schedulers and submitting clients on one jobs table and one clock, and
  shows that each of the three modules `Protocol`, `Schedules` and `Submission` sees a run of its
  own, so their results hold together.
- `TimeText` relates the stored timestamp strings to instants. The other modules use instants.

Job and schedule ids are row positions: ids are fresh and job rows are never removed. Durations
and times are whole microseconds; `timeout`, the lease grace and `max_retries` are natural
numbers, as their validators demand (`app/models.py:31`, `app/settings.py:21`). The clock of
`Protocol` is common to all threads and never runs backwards.

Two places where the documentation and the code differ, and the code is followed:
`docs/one-pager-design.md:66` says that completions are fenced by lease ownership, but worker ids
are not unique (`Worker.SlotsClashIff`) and the unique attempt index is what stops a stale
completion whose worker id holds the job again (third clause of `Protocol.Fencing`; such states are
reachable, `History.GuardIsNotEnough`).
`docs/database-schema.md:53` says dead letters are updated if recovery repeats; no dead letter is
ever written twice (`History.RunEvolves`).

## Model

| member | source | states |
|---|---|---|
| Tables.InstallKeepsTables | app/repository.py:504-730 | any claim, success, failure, abandonment or cancellation whose SQL guard holds and whose snapshot is current keeps the tables consistent: log exactly 1..attempt_count, lease columns, dead letters, retry budget |
| Tables.InsertKeepsTables | app/repository.py:261-279 | a freshly submitted row keeps the tables consistent |
| Tables.IndexSeesStaleNumbers | app/repository.py:114-115 | the unique index aborts a write exactly when its attempt number was used before |
| Protocol.Fencing | app/repository.py:533-650 | a completion is applied iff its token is the current claim, a stale one changes no table, and it is the index that aborts it iff its worker id holds the job again |
| Protocol.CommitIsCurrent | app/repository.py:545-561 | whatever any thread commits on a row carries the row's current attempt number, budget and payload |
| Protocol.CloseKeepsRow | app/repository.py:565-579 | recording an attempt keeps claims, starts and ends of all attempts of the job in order |
| Protocol.ClaimKeepsRow | app/repository.py:505-528 | a claim comes after the end of the last attempt although its clock was read before the lock: the run_at gate |
| Protocol.StepKeepsInv | app/repository.py:504-743 | the invariant of tables, claims, times and held tokens is inductive over every step of every thread |
| Protocol.ReachableInv | app/repository.py:504-743 | it holds in every reachable state |
| History.AttemptLogIsExact | app/repository.py:584-717 | attempts are exactly 1..attempt_count, only the last may have succeeded and did iff the job did, non-terminal jobs have retries left, dead letters are exactly the jobs with max_retries + 1 attempts, with that count and error |
| History.LeaseColumns | app/repository.py:652-717 | running iff locked_by iff locked_at; status failed is unreachable |
| History.GuardIsNotEnough | app/repository.py:545-579 | for every shared worker id and every report there is a reachable state in which a stale completion passes the lease-owner guard and only the unique index aborts it |
| History.AttemptsNeverOverlap | app/repository.py:504-531 | attempt k has ended when any later attempt is claimed, and that one starts after its claim |
| History.ClaimIsRecorded | app/repository.py:504-531 | a claim leases a queued due row to its worker from its clock reading on, hands out the next attempt number with the row's budget and payload, and changes no other column or row |
| History.CompletionIsRecorded | app/repository.py:565-651 | every column of an applied completion: logged under its attempt number with the worker's own id, start, end and error, and the row succeeded with its result, requeued after its backoff, or dead-lettered by the budget |
| History.AbandonmentIsRecorded | app/repository.py:661-714 | a reaper's row step needs locked_at + timeout + grace < its reading; the attempt runs from locked_at to that reading under the lease's worker id, and the row is due at once or dead-lettered then |
| History.CancellationIsRecorded | app/repository.py:719-743 | cancel and drain end a queued job at their clock reading and change no other column, row or table |
| History.CallsReadTheClock | app/worker.py:94-100 | a handler is started and reported, and every other call begins, at the clock reading of that moment |
| History.StaleCompletionEnds | app/worker.py:99-110 | a stale completion changes no table; refused by the index, a success is reported again as the same attempt and a failure ends the thread; without a row it is dropped |
| History.StepEvolves | app/repository.py:504-743 | every step moves rows along lifecycle edges, keeps their identity columns, never changes terminal rows |
| History.RunEvolves | app/repository.py:504-743 | over whole runs rows are never removed, terminal rows and recorded attempts never change, counts never fall |
| History.ClaimsNeverRepeat | app/worker.py:90-94 | of two claims of one job in any run the later one has the larger attempt number |
| History.OneLiveClaim | app/repository.py:549-564 | two threads whose completions of one job could both be applied hold the same token |
| History.ClaimsAreBounded | app/repository.py:596-598 | a job is claimed at most max_retries + 1 times |
| History.ReaperSparesLiveLeases | app/repository.py:661-664 | no reaper, however old its clock reading, can touch a lease before its deadline |
| History.InTimeCompletionWins | app/repository.py:652-717 | a thread that still holds its token at locked_at + timeout + grace or earlier finds its claim current, whatever the others did |
| History.ClaimIsSole | app/repository.py:521-531 | the claiming thread is the only holder of its token |
| ClaimOrder.NextClaimExists | app/repository.py:509-517 | the claim's SELECT returns a row whenever one is due |
| ClaimOrder.ClaimingSorts | app/repository.py:504-531 | repeated claims at one clock reading return every due job exactly once, by priority down, run_at up, created_at up, then none; other jobs are untouched |
| ClaimOrder.DrainExists | app/repository.py:504-531 | such a series exists and has as many claims as jobs were due |
| Progress.StepMeasure | app/repository.py:504-743 | every effective step lowers the sum over jobs of the steps left; only new jobs raise it |
| Progress.WorkIsBounded | app/repository.py:504-743 | any run from the start has at most 2 * (max_retries + 1) effective steps per job submitted |
| Progress.CanFinish | app/repository.py:652-717 | from every state there is a run in which all the same jobs become terminal, even if every worker dies right after its claim |
| Recovery.PassServesAll | app/repository.py:504-717 | one reaper transaction and claims until none is left leave no job due and no lease expired at that clock reading |
| Recovery.ServedJobsEnd | app/repository.py:504-743 | a job that is served in 2 * (max_retries + 1) rounds is terminal, whatever all threads do in the rounds and however the attempts end |
| Recovery.RoundExists | app/worker.py:124-134 | from every state time, one reaper and claims make a round that serves every job |
| Retry.BackoffMonotone | app/worker.py:217-218 | waits never get shorter |
| Retry.BackoffDoubles | app/worker.py:217-218 | waits start at the base, double up to the cap and never exceed it |
| Retry.BackoffStaysAtCap | app/worker.py:217-218 | from the attempt at which the exponential reaches the cap on every wait is the cap |
| Retry.CapIsReached | app/worker.py:217-218 | with a positive base there is such an attempt |
| Retry.TotalBackoffClosedForm | app/worker.py:217-218 | below the cap the waits after attempts 1..n sum to (2^n - 1) * base |
| Retry.TotalBackoffAfterCap | app/worker.py:217-218 | with the cap reached at attempt c the waits sum to (2^(c-1) - 1) * base and the cap for each further one |
| Retry.StepKeepsSpaced | app/repository.py:599-600 | run_at of a failed job is the end of its last attempt plus the backoff, and every retry was claimed after it, kept by every step |
| Retry.FailedJobsAreDueByCap | app/worker.py:208-227 | in every run with one configuration a failed job is due exactly its backoff, and so at most the cap, after the end of its attempt |
| Retry.RetriesAreSpaced | app/worker.py:208-227 | in every run with one configuration attempt n + 1 is claimed no earlier than the end of failed attempt n plus backoff n |
| Retry.DeadLetteringTakesTime | app/worker.py:217-227 | without abandoned attempts dead-lettering comes at least the sum of all waits after the first claim |
| Retry.CappedDeadLetteringTakesTime | app/worker.py:217-227 | which is (2^(c-1) - 1) * base and the cap for each further retry when the cap is reached at attempt c |
| Abandonment.StepKeepsLate | app/repository.py:661-706 | every abandoned attempt starts at its claim and ends after claim + timeout + grace, kept by every step |
| Abandonment.AbandonedAttemptsAreLate | app/repository.py:661-706 | so in every run with one lease grace |
| Retry.TransientFailureOutcome | app/worker.py:89-113 | in every run without timeouts, crashes and database errors a fail job with k failures and m retries can only end succeeded after max(k,0)+1 attempts if k <= m, or dead-lettered after m+1 if k > m, with exactly that log |
| Handler.RetriesHelpOnlyTransientFailures | app/handler.py:9-31 | a later attempt succeeds where an earlier one failed iff the payload is a fail action whose failures are used up in between |
| Handler.ComputedSum | app/handler.py:25-29 | the compute action stores its argument, its attempt and the sum of the squares below the argument, zero for one that is not positive |
| Handler.ErrorsNameTheAttempt | app/handler.py:15-19 | the error of a failing attempt names the attempt, so no two attempts have the same error |
| Sweeps.SweepIsExact | app/repository.py:652-743 | a reaper or drain rewrites a row, with its attempt and dead letter, iff it matched at the start; nothing recorded for other jobs changes |
| Sweeps.SweepNeverAborts | app/repository.py:692-706 | the reaper's attempt INSERT never hits the unique index |
| Sweeps.ReaperIsExact | app/repository.py:652-717 | afterwards no running job is past locked_at + timeout + grace at the reaper's reading; exactly those that were are abandoned at that reading, every column stated |
| Sweeps.DrainIsExact | app/repository.py:732-743 | every queued job is cancelled at the drain's clock reading; everything else stays |
| Sweeps.ExpiredCount | app/repository.py:658-717 | the reaper's return value is the number of expired leases |
| Sweeps.SweepIsRun | app/repository.py:652-743 | the serial reaper and drain transactions are runs of row steps of the protocol |
| Sweeps.SerialClaimIsStep | app/repository.py:504-531 | the serial claim is a row step of the protocol and hands out the token of the next attempt |
| Depth.CountsSumToTotal | app/repository.py:745-767 | the six status counts sum to the number of jobs |
| Depth.QueuedSplits | app/repository.py:753-766 | in one snapshot queued = due + scheduled |
| Depth.CountIsCardinality | app/repository.py:749-752 | the counts by status are numbers of rows |
| Depth.DueIsCardinality | app/repository.py:753-756 | the due count is the number of queued rows with run_at <= now |
| Depth.StepMovesOneJob | app/repository.py:504-743 | conservation: a row step takes one from a count and adds one to another along a lifecycle edge |
| Depth.DrainMovesAllQueued | app/repository.py:732-743 | drain moves exactly the queued jobs to cancelled and changes no other count |
| Repository.JobRepository.InsertJob | app/repository.py:280-296 | inserts the row unless a unique index refuses it |
| Repository.JobRepository.FindByKey | app/repository.py:358-361 | finds a row of the key iff there is one |
| Repository.JobRepository.CreateJob | app/repository.py:243-303 | undisturbed create_job: a row with the columns of the request is added iff the key is free, due from the requested run_at, or now, on; a taken key returns its job or the conflict; the empty key fails when taken |
| Repository.JobRepository.CreateJobsBatch | app/repository.py:305-351 | appends one row per request in order, with the request's columns and due from its run_at, or now, on, and returns their ids |
| Repository.JobRepository.ClaimNextJob | app/repository.py:504-531 | claims a first row of the due order, or nothing iff nothing is due |
| Repository.JobRepository.MarkSucceeded | app/repository.py:533-582 | ends as the row transaction does: applied, no row, or aborted with the tables restored |
| Repository.JobRepository.MarkFailedAttempt | app/repository.py:584-650 | likewise, with retry or dead-lettering decided by the worker's snapshot |
| Repository.JobRepository.RecoverStaleJobs | app/repository.py:652-717 | the loop abandons exactly the expired leases at its reading, leaves all other jobs alone and returns their number |
| Repository.JobRepository.CancelJob | app/repository.py:719-730 | cancels the job at its clock reading iff it is queued, and returns its row |
| Repository.JobRepository.DrainQueue | app/repository.py:732-743 | cancels all queued jobs at its clock reading and returns how many there were |
| Repository.JobRepository.GetQueueDepth | app/repository.py:745-767 | the loop's counts are the numbers of rows of the snapshot by status, due and scheduled, and add up |
| Repository.JobRepository.CreateSchedule | app/repository.py:376-409 | refuses exactly the invalid expressions; the first run is the first occurrence after the clock |
| Repository.JobRepository.SetScheduleEnabled | app/repository.py:421-440 | undisturbed toggle: a resume restarts from the clock, a pause keeps next_run_at |
| Repository.JobRepository.DeleteSchedule | app/repository.py:442-445 | removes the schedule iff it exists |
| Repository.JobRepository.SelectDueSchedules | app/repository.py:452-460 | the most overdue enabled schedules, in order, at most the limit |
| Repository.JobRepository.MaterializeDueSchedules | app/repository.py:447-502 | adds the missing occurrences of that selection with the columns of their templates, moves each selected schedule to the first occurrence after it and keeps its template, and returns the number of jobs added |
| Worker.ProcessedEffect | app/worker.py:89-113 | an undisturbed process_one always gets its completion applied |
| Worker.ProcessedIsRecorded | app/worker.py:89-113 | one call leaves exactly what its handler did: a timeout, a result or an error under the next attempt number, and the row succeeded, requeued after its wait or dead-lettered |
| Worker.FailJobEnds | app/worker.py:89-113 | repeated process_one on a fail job needs exactly min(max(k,0),m)+1 calls and leaves the stated outcome and log |
| Worker.RoundsMakeProgress | app/worker.py:124-134 | undisturbed rounds keep the tables consistent and take at least two steps off the work left per job claimed |
| Worker.SlotsClashIff | app/worker.py:115-125 | two threads share a slot, hence a worker id, iff a live slot lies above the live count and within the desired concurrency |
| Worker.WorkerPool.EnsureThreads | app/worker.py:115-122 | keeps the live threads and starts the slots from the live count on |
| Worker.WorkerPool.ProcessOne | app/worker.py:89-113 | claims the first due job, runs the handler once and records its timeout, result or error, every column stated; the busy count is restored |
| Worker.WorkerPool.WorkerLoop | app/worker.py:124-134 | the loop serves the first due job in every round until it is stopped or its slot lies above the desired concurrency, and does nothing only when none is due |
| RowLocks.CommitPublishesAll | app/postgres_repository.py:618-671 | a commit publishes every buffered row with its attempt and dead letter |
| RowLocks.CommitKeepsOthers | app/postgres_repository.py:618-671 | and nothing about any other job |
| Postgres.FinishRefines | app/postgres_repository.py:516-671 | a COMMIT is a run of row steps of the protocol, the claim's UPDATE by id included |
| Postgres.ViolationRefines | app/postgres_repository.py:582-596 | a unique violation ends only completions, like an aborted serial one |
| Postgres.StepKeepsPgInv | app/postgres_repository.py:516-783 | locked rows keep passing the test under which they were locked, buffered writes stay valid, in every step |
| Postgres.PgRefinesProtocol | app/postgres_repository.py:516-783 | every run of locking transactions, aborts included, is the run of row steps that its steps stand for, on the committed tables |
| Postgres.LockedRowStaysClaimable | app/postgres_repository.py:534-542 | the UPDATE needs no status check: the locked row is still queued and due |
| Postgres.PassedOverIsBeingTaken | app/postgres_repository.py:521-530 | a better due job is passed over only while another claim, a cancel or a drain holds its lock |
| Postgres.UncontendedClaimIsSerial | app/postgres_repository.py:516-544 | with no due row locked the claim picks what the serial SELECT picks |
| Postgres.OpenClaimsDiffer | app/postgres_repository.py:516-544 | two claims that may both commit have different jobs |
| PostgresHistory.LockingStepsEnd | app/postgres_repository.py:516-783 | a step of a locking transaction stands only for commits on the rows it wrote, its return, or the interruption of mark_succeeded |
| PostgresHistory.ConditionsCarryOver | app/postgres_repository.py:516-783 | a condition that each locking step carries over to its row steps holds throughout the refined run |
| PostgresHistory.PgRetriesAreSpaced | app/postgres_repository.py:618-671 | with one configuration attempt n + 1 is claimed no earlier than the end of failed attempt n plus backoff n there as well |
| PostgresHistory.PgDeadLetteringTakesTime | app/postgres_repository.py:618-671 | and dead-lettering comes no earlier than the sum of all waits after the first claim |
| PostgresHistory.PgFailedJobsAreDueByCap | app/postgres_repository.py:618-671 | and a failed job is due again at most the cap after its attempt |
| PostgresHistory.PgTransientFailureOutcome | app/worker.py:89-113 | the outcome and the log of a fail job are the same on every run of locking transactions |
| PostgresHistory.PgInTimeCompletionWins | app/postgres_repository.py:673-752 | a lease outlives every run of locking transactions up to its deadline, a rolled-back mark_succeeded included |
| PostgresHistory.PgAbandonedAttemptsAreLate | app/postgres_repository.py:673-752 | no attempt is abandoned before claim + timeout + grace there either |
| PostgresHistory.PgClaimsNeverRepeat | app/postgres_repository.py:516-544 | of two committed claims of one job the later has the larger attempt number |
| PostgresRepository.ReaperTakesUnlockedStaleRows | app/postgres_repository.py:673-752 | an undisturbed reaper abandons at its reading exactly the expired leases that nobody has locked |
| PostgresRepository.StaleWritesCount | app/postgres_repository.py:673-752 | and counts them |
| PostgresRepository.PostgresJobRepository.SelectForClaim | app/postgres_repository.py:521-533 | locks the first unlocked due row, or returns none iff all due rows are locked |
| PostgresRepository.PostgresJobRepository.UpdateClaimed | app/postgres_repository.py:534-542 | buffers the running version of the row, whatever its status |
| PostgresRepository.PostgresJobRepository.CommitTransaction | app/postgres_repository.py:617-671 | the loop publishes all buffered writes and releases the locks |
| PostgresRepository.PostgresJobRepository.ClaimNextJob | app/postgres_repository.py:516-544 | undisturbed, it has the effect of the guarded claim on the first unlocked row |
| PostgresRepository.PostgresJobRepository.RecoverStaleJobs | app/postgres_repository.py:673-752 | undisturbed, it publishes the abandonment of the expired unlocked leases at its reading, leaves all other jobs alone and returns their number |
| Submission.StepKeepsInv | app/repository.py:250-303 | in every step the keyed rows are exactly the entries of the atomic object and decided calls keep its reply |
| Submission.OneAtomicStep | app/repository.py:250-303 | each call takes effect as one atomic get-or-insert in one of its steps |
| Submission.RepliesAreAtomic | app/repository.py:296-302 | for non-empty keys every call returns the reply of its atomic call |
| Submission.OneJobPerKey | app/repository.py:167-170 | one job per key; calls with its fingerprint return it, all others conflict |
| Submission.RefusedCallIsAtomicIffKeyed | app/repository.py:296-302 | after a unique violation the reply is the atomic one iff the key is not empty |
| Submission.EmptyKeyIsNotIdempotent | app/repository.py:251-298 | a second submission with the empty key always raises |
| Submission.ProtocolIsOtherWork | app/repository.py:504-743 | all other steps of the system leave keys and fingerprints alone |
| Schedules.OccurrenceIsInsert | app/repository.py:465-486 | a materialised occurrence is a new job of the protocol |
| Schedules.DeletedSchedulesAreSilent | app/repository.py:442-500 | after its deletion a schedule adds no job in any run, whatever had been read before |
| Schedules.UndisturbedToggle | app/repository.py:421-440 | the two transactions with nothing in between: a resume starts at the first occurrence after the clock reading, a pause keeps next_run_at, no other column changes |
| Schedules.WriteToggleIsGood | app/repository.py:421-440 | a pause or resume, however stale its read, leaves no uncovered occurrence after the latest resume |
| Schedules.MaterializeIsGood | app/repository.py:461-500 | materialising covers the occurrence and moves to the next one |
| Schedules.StepKeepsInv | app/repository.py:376-502 | coverage, uniqueness and truth of the occurrences are kept by every step |
| Schedules.OccurrencesExactlyOnce | app/repository.py:421-502 | every occurrence strictly between the latest resume reading and next_run_at has exactly one job, in every interleaving |
| Schedules.JobsAreOccurrences | app/repository.py:461-486 | every job of a schedule is a true occurrence after the creation, not in the future, and has the payload, priority, retries and timeout of the creation |
| PostgresSchedules.StepRefines | app/postgres_repository.py:456-514 | every step of the locking materialiser is a run of row steps on the committed tables |
| PostgresSchedules.StepKeepsPgInv | app/postgres_repository.py:456-514 | a locked schedule stays due and its buffered job and new version stay right until the commit |
| PostgresSchedules.PgRefinesSchedules | app/postgres_repository.py:429-514 | every run of locking materialisers, pauses, resumes and deletions is a run of Schedules |
| PostgresSchedules.PgOccurrencesExactlyOnce | app/postgres_repository.py:429-514 | so occurrences are gap-free and exactly once there as well |
| PostgresSchedules.PgJobsAreOccurrences | app/postgres_repository.py:429-514 | and every job of a schedule is a true occurrence with its template |
| CatchUp.DueOccurrencesAreInstants | app/scheduling.py:10-15 | the occurrences walked by next_cron_run are all the named instants up to now |
| CatchUp.RowStep | app/repository.py:461-500 | each iteration finds its schedule as the SELECT returned it, adds its occurrence unless it is there, and moves it on |
| CatchUp.SelectedMoveOn | app/repository.py:488-500 | each selected schedule keeps its template and pause flag, its last run is the occurrence, its next one the first occurrence after it; other schedules stay |
| CatchUp.OccurrencesInserted | app/repository.py:465-486 | each selected occurrence has its job afterwards and existing rows stay |
| CatchUp.NewRowsAreOccurrences | app/repository.py:465-486 | each new row is such an occurrence with its template's columns |
| CatchUp.CallLowersTotal | app/repository.py:447-502 | a call lowers the total number of due occurrences by exactly min(limit, due schedules) |
| CatchUp.CatchUpTerminates | app/repository.py:447-502 | at a fixed clock at most as many calls find something as occurrences were due; then none is due |
| CatchUp.CallIsRun | app/repository.py:447-502 | the serial call is a run of the interleaved system |
| WholeQueue.StepProjects | app/repository.py:243-743 | a step of a worker, scheduler or client is a step of its own module and, on the same tables, steps of the environment of the others |
| WholeQueue.RunProjects | app/repository.py:243-743 | every run of the whole queue is a run of the job protocol, of the schedules and of the submissions |
| WholeQueue.OccurrenceWorkedOnce | app/repository.py:447-502 | in the whole queue each occurrence between the latest resume and next_run_at has one job, with the template of the schedule's creation, attempted at most max_retries + 1 times with an exact log |
| WholeQueue.SubmittedOnce | app/repository.py:250-303 | in the whole queue a non-empty key has one job, returned to every call with its fingerprint, and that job's log is exact |
| TimeText.DaysAreGregorian | app/repository.py:31-34 | the days before a year follow the Gregorian leap rule |
| TimeText.FieldOrderIsTimeOrder | app/repository.py:31-34 | comparing calendar fields is comparing instants, leap years included |
| TimeText.TextShape | app/repository.py:31-34 | the strings have 25 or 32 characters, with their marks at fixed places and the UTC offset at the end |
| TimeText.FractionOrder | app/repository.py:31-34 | a string without a fraction sorts before one with it, because '+' sorts before '.' |
| TimeText.TextOrderIsTimeOrder | app/repository.py:31-34 | for all UTC datetimes of the years 1 to 9999 text order is time order, whatever the lengths of the strings |
| TimeText.EqualTextIsEqualTime | app/repository.py:174-177 | equal texts are equal instants, so the unique occurrence index is one on instants |
| TimeText.RoundTrip | app/repository.py:37-40 | parse_db_time undoes to_db_time |
| TimeText.FilterIsOnInstants | app/repository.py:511-516 | run_at <= now on the strings is run_at <= now on the instants |
| TimeText.OrderingIsOnInstants | app/repository.py:511-516 | the ORDER BY on the strings is the one on the instants |

## Left out

- RetriesAreSpaced: only for runs with one backoff configuration, because a patch may change it between attempts.
- FailedJobsAreDueByCap: runs with one backoff configuration, likewise.
- AbandonedAttemptsAreLate: runs with one lease grace, because the setting may change between reapers.
- TransientFailureOutcome: runs without timeouts, crashes and database errors in mark_succeeded, because each of these records a failure that the handler did not cause.
- PgTransientFailureOutcome: likewise.
- CreateJob: the calls without interference, because Submission models them apart.
- SetScheduleEnabled: the two transactions without interference, because Schedules models them apart.
- ProcessOne: without steps of other threads in between, because Protocol models those.
- WorkerLoop: without steps of other threads in between; the desired concurrency is a reading per round, and the poll, scheduler and reaper intervals and the stop event are not modelled.
- SelectForClaim: the SELECT sees the committed rows and the locks of one moment; that a READ COMMITTED statement works on a snapshot that is slightly older, and rechecks only rows it locks, is not modelled.
- PostgresRepository.PostgresJobRepository.ClaimNextJob: without other statements in between, because Postgres models those.
- PostgresRepository.PostgresJobRepository.RecoverStaleJobs: likewise.
- WholeQueue: puts the row-step modules together; that the locking job transactions and the locking materialisers can run on one PostgreSQL database is proved for each of them alone.
- Deadlocks between drains: a drain that is the victim is a `Rollback` like any other.
- Conversion of naive or non-UTC datetimes, and ISO forms that isoformat does not write for UTC.
- Rounding of `now.timestamp() + backoff` and of float durations; everything is whole microseconds.
- Fingerprints are opaque strings; SHA-256, JSON and pydantic validation are not modelled.
- Handler arguments that fail to convert, and payloads that the handler changes while it runs.
- croniter itself: `next_cron_run` is any function that returns the first occurrence after its argument.
- Runtime configuration, heartbeats, metrics, list endpoints, the HTTP API and the dashboard: easy members.
- GetQueueDepth: the counts of one snapshot, while the source runs its two queries at different moments.
- Mutual exclusion of handler executions: a timed-out handler keeps running; delivery is at least once.
