/**
 The rows of PulseQueue's job tables, and what one transaction writes to one row.

 A job's id is its position in `jobs`: ids are fresh and rows are never removed.
 `job_attempts` and `dead_letters` are maps keyed by the columns of their unique
 index and primary key, so a clash on the key is a clash on the index.
 */
module Tables {

  datatype Option<+T> = None | Some(value: T)

  // Microseconds since a fixed instant, UTC. Module TimeText relates them to the stored strings.
  type Time = int

  type JobId = nat

  datatype Status = Queued | Running | Succeeded | Failed | DeadLettered | Cancelled

  datatype AttemptStatus = AttemptSucceeded | AttemptFailed | AttemptTimedOut | AttemptAbandoned

  // The payload's "action" and the one argument the handler reads.
  datatype Payload =
    | Echo(value: string)
    | Fail(failuresBeforeSuccess: int)
    | Sleep(seconds: int)
    | Compute(n: int)
    | Unsupported(action: string)

  datatype HandlerResult =
    | Echoed(payload: Payload, attempt: int)
    | Recovered(attempt: int)
    | Slept(seconds: int, attempt: int)
    | Computed(n: int, sumOfSquares: int, attempt: int)

  datatype Job = Job(
    idempotencyKey: Option<string>,
    fingerprint: Option<string>,
    scheduleId: Option<nat>,
    scheduledFor: Option<Time>,
    status: Status,
    payload: Payload,
    result: Option<HandlerResult>,
    priority: int,
    maxRetries: nat,
    timeout: nat,
    attemptCount: nat,
    lastError: Option<string>,
    runAt: Time,
    lockedBy: Option<string>,
    lockedAt: Option<Time>,
    createdAt: Time,
    updatedAt: Time,
    finishedAt: Option<Time>)

  datatype Attempt = Attempt(
    workerId: string,
    status: AttemptStatus,
    startedAt: Time,
    finishedAt: Time,
    error: Option<string>)

  datatype DeadLetter = DeadLetter(
    payload: Payload,
    lastError: Option<string>,
    attemptCount: nat,
    deadLetteredAt: Time)

  datatype Db = Db(
    jobs: seq<Job>,
    attempts: map<(JobId, nat), Attempt>,
    deadLetters: map<JobId, DeadLetter>)

  predicate NoDuplicates<T(==)>(s: seq<T>) {
    forall i, k :: 0 <= i < k < |s| ==> s[i] != s[k]
  }

  const EMPTY_DB := Db([], map[], map[])

  predicate Terminal(status: Status) {
    status == Succeeded || status == DeadLettered || status == Cancelled || status == Failed
  }

  // ---------------------------------------------------------------- guards

  // WHERE status = 'queued' AND run_at <= now
  predicate Due(job: Job, now: Time) {
    job.status == Queued && job.runAt <= now
  }

  // WHERE status = 'running' AND locked_by = worker
  predicate HeldBy(job: Job, worker: string) {
    job.status == Running && job.lockedBy == Some(worker)
  }

  // The reaper's selection and its lease test.
  predicate Stale(job: Job, now: Time, grace: nat) {
    job.status == Running && job.lockedAt.Some? && now - job.lockedAt.value > job.timeout + grace
  }

  // ORDER BY priority DESC, run_at ASC, created_at ASC: `a` comes strictly before `b`.
  predicate Before(a: Job, b: Job) {
    a.priority > b.priority
    || (a.priority == b.priority
        && (a.runAt < b.runAt || (a.runAt == b.runAt && a.createdAt < b.createdAt)))
  }

  // Row `j` may be the first row of the claim's SELECT; ties may go either way.
  predicate IsNextClaim(jobs: seq<Job>, now: Time, j: JobId) {
    && j < |jobs|
    && Due(jobs[j], now)
    && forall k :: 0 <= k < |jobs| && Due(jobs[k], now) ==> !Before(jobs[k], jobs[j])
  }

  // ---------------------------------------------------------------- row writes

  /** The new version of one job row, with the attempt record and the dead letter that
      the same transaction inserts. */
  datatype RowWrite = RowWrite(
    job: Job,
    attempt: Option<(nat, Attempt)>,
    deadLetter: Option<DeadLetter>)

  function ClaimWrite(job: Job, worker: string, now: Time): RowWrite {
    RowWrite(
      job.(status := Running, lockedBy := Some(worker), lockedAt := Some(now), updatedAt := now),
      None, None)
  }

  function SucceedWrite(job: Job, worker: string, attemptNo: nat, startedAt: Time, now: Time,
                        result: HandlerResult): RowWrite {
    RowWrite(
      job.(status := Succeeded, result := Some(result), attemptCount := attemptNo, lastError := None,
           lockedBy := None, lockedAt := None, updatedAt := now, finishedAt := Some(now)),
      Some((attemptNo, Attempt(worker, AttemptSucceeded, startedAt, now, None))),
      None)
  }

  // `maxRetries` and `payload` come from the worker's snapshot of the row, as in the source.
  function FailWrite(job: Job, maxRetries: nat, payload: Payload, worker: string, attemptNo: nat,
                     startedAt: Time, now: Time, error: string, timedOut: bool, backoff: nat): RowWrite {
    var willRetry := attemptNo <= maxRetries;
    RowWrite(
      job.(status := if willRetry then Queued else DeadLettered,
           attemptCount := attemptNo, lastError := Some(error),
           runAt := if willRetry then now + backoff else now,
           lockedBy := None, lockedAt := None, updatedAt := now,
           finishedAt := if willRetry then None else Some(now)),
      Some((attemptNo,
            Attempt(worker, if timedOut then AttemptTimedOut else AttemptFailed, startedAt, now, Some(error)))),
      if willRetry then None else Some(DeadLetter(payload, Some(error), attemptNo, now)))
  }

  const LEASE_EXPIRED := "worker lease expired before the attempt was committed"

  function ReapWrite(job: Job, now: Time): RowWrite
    requires job.lockedBy.Some? && job.lockedAt.Some?
  {
    var attemptNo := job.attemptCount + 1;
    var willRetry := attemptNo <= job.maxRetries;
    RowWrite(
      job.(status := if willRetry then Queued else DeadLettered,
           attemptCount := attemptNo, lastError := Some(LEASE_EXPIRED), runAt := now,
           lockedBy := None, lockedAt := None, updatedAt := now,
           finishedAt := if willRetry then None else Some(now)),
      Some((attemptNo,
            Attempt(job.lockedBy.value, AttemptAbandoned, job.lockedAt.value, now, Some(LEASE_EXPIRED)))),
      if willRetry then None else Some(DeadLetter(job.payload, Some(LEASE_EXPIRED), attemptNo, now)))
  }

  function CancelWrite(job: Job, now: Time): RowWrite {
    RowWrite(job.(status := Cancelled, updatedAt := now, finishedAt := Some(now)), None, None)
  }

  // The INSERT into job_attempts would violate the unique index (job_id, attempt_no).
  predicate Clashes(db: Db, j: JobId, w: RowWrite) {
    w.attempt.Some? && (j, w.attempt.value.0) in db.attempts
  }

  // The tables once the write of row `j` is committed.
  function Install(db: Db, j: JobId, w: RowWrite): Db
    requires j < |db.jobs|
  {
    Db(db.jobs[j := w.job],
       if w.attempt.Some? then db.attempts[(j, w.attempt.value.0) := w.attempt.value.1] else db.attempts,
       if w.deadLetter.Some? then db.deadLetters[j := w.deadLetter.value] else db.deadLetters)
  }

  // ---------------------------------------------------------------- operations on one row

  /** What a transaction does to one row. A completion carries the attempt number, the retry
      budget and the payload of the worker's snapshot, which may be out of date. */
  datatype Op =
    | ClaimOp(worker: string, now: Time)
    | SucceedOp(worker: string, attemptNo: nat, startedAt: Time, now: Time, result: HandlerResult)
    | FailOp(worker: string, attemptNo: nat, maxRetries: nat, payload: Payload, startedAt: Time, now: Time,
             error: string, timedOut: bool, backoff: nat)
    | ReapOp(now: Time, grace: nat)
    | CancelOp(now: Time)

  // The condition that the SELECT or the guarded UPDATE tests on the row.
  predicate Guard(job: Job, op: Op) {
    match op
    case ClaimOp(_, now) => Due(job, now)
    case SucceedOp(worker, _, _, _, _) => HeldBy(job, worker)
    case FailOp(worker, _, _, _, _, _, _, _, _) => HeldBy(job, worker)
    case ReapOp(now, grace) => Stale(job, now, grace) && job.lockedBy.Some?
    case CancelOp(_) => job.status == Queued
  }

  function WriteOf(job: Job, op: Op): RowWrite
    requires op.ReapOp? ==> job.lockedBy.Some? && job.lockedAt.Some?
  {
    match op
    case ClaimOp(worker, now) => ClaimWrite(job, worker, now)
    case SucceedOp(worker, no, started, now, result) => SucceedWrite(job, worker, no, started, now, result)
    case FailOp(worker, no, maxRetries, payload, started, now, error, timedOut, backoff) =>
      FailWrite(job, maxRetries, payload, worker, no, started, now, error, timedOut, backoff)
    case ReapOp(now, _) => ReapWrite(job, now)
    case CancelOp(now) => CancelWrite(job, now)
  }

  /** How a one-row transaction ends. `NoRow`: the guarded UPDATE matched no row and the
      transaction was rolled back. `Aborted`: the attempt INSERT hit the unique index and the
      connection was closed without COMMIT. Either way no table changes. */
  datatype Outcome = Applied(write: RowWrite) | NoRow | Aborted

  function Execute(db: Db, j: JobId, op: Op): Outcome {
    if j >= |db.jobs| || !Guard(db.jobs[j], op) then NoRow
    else
      var w := WriteOf(db.jobs[j], op);
      if Clashes(db, j, w) then Aborted else Applied(w)
  }

  function After(db: Db, j: JobId, op: Op): Db {
    var o := Execute(db, j, op);
    if o.Applied? then Install(db, j, o.write) else db
  }

  // ---------------------------------------------------------------- new rows

  // A row as the three INSERT statements of the repository create it.
  predicate FreshRow(job: Job) {
    && job.status == Queued && job.result == None && job.attemptCount == 0 && job.lastError == None
    && job.lockedBy == None && job.lockedAt == None && job.finishedAt == None
    && (job.scheduleId.Some? <==> job.scheduledFor.Some?)
    && (job.idempotencyKey.Some? ==> job.fingerprint.Some?)
  }

  predicate KeyTaken(jobs: seq<Job>, key: string) {
    exists i :: 0 <= i < |jobs| && jobs[i].idempotencyKey == Some(key)
  }

  predicate OccurrenceTaken(jobs: seq<Job>, schedule: nat, at: Time) {
    exists i :: 0 <= i < |jobs| && jobs[i].scheduleId == Some(schedule) && jobs[i].scheduledFor == Some(at)
  }

  // Neither unique index on jobs refuses the row.
  predicate Insertable(jobs: seq<Job>, job: Job) {
    && (job.idempotencyKey.Some? ==> !KeyTaken(jobs, job.idempotencyKey.value))
    && (job.scheduleId.Some? && job.scheduledFor.Some? ==>
          !OccurrenceTaken(jobs, job.scheduleId.value, job.scheduledFor.value))
  }

  // ---------------------------------------------------------------- the table invariant

  ghost predicate JobOk(db: Db, j: JobId)
    requires j < |db.jobs|
  {
    var job := db.jobs[j];
    && job.status != Failed
    && (job.status == Running <==> job.lockedBy.Some?)
    && (job.status == Running <==> job.lockedAt.Some?)
    && (Terminal(job.status) <==> job.finishedAt.Some?)
    && (job.status == Succeeded <==> job.result.Some?)
    && (job.status == Running ==> job.lockedAt == Some(job.updatedAt))
    && (Terminal(job.status) ==> job.finishedAt == Some(job.updatedAt))
    && (job.status == DeadLettered || job.status == Succeeded || job.attemptCount <= job.maxRetries)
    && (job.status == Succeeded ==> 1 <= job.attemptCount <= job.maxRetries + 1)
    && (job.status == DeadLettered ==> job.attemptCount == job.maxRetries + 1)
    && AttemptsOk(db, j)
    && DeadLetterOk(db, j)
  }

  // The attempt log of `j` is exactly 1..attempt_count; only the last may have succeeded. The
  // row was last updated when the last attempt ended; an abandoned attempt is retried at once.
  ghost predicate AttemptsOk(db: Db, j: JobId)
    requires j < |db.jobs|
  {
    var job := db.jobs[j];
    && (forall n: nat :: (j, n) in db.attempts <==> 1 <= n <= job.attemptCount)
    && (forall n: nat :: (j, n) in db.attempts ==>
          && (db.attempts[(j, n)].status == AttemptSucceeded <==> n == job.attemptCount && job.status == Succeeded)
          && (db.attempts[(j, n)].status == AttemptSucceeded <==> db.attempts[(j, n)].error == None))
    && (job.attemptCount > 0 && job.status != Running && job.status != Cancelled ==>
          db.attempts[(j, job.attemptCount)].finishedAt == job.updatedAt)
    && (job.attemptCount > 0 && job.status == Queued && db.attempts[(j, job.attemptCount)].status == AttemptAbandoned ==>
          job.runAt == job.updatedAt)
    && job.lastError == (if job.attemptCount == 0 || job.status == Succeeded then None
                         else db.attempts[(j, job.attemptCount)].error)
  }

  ghost predicate DeadLetterOk(db: Db, j: JobId)
    requires j < |db.jobs|
  {
    var job := db.jobs[j];
    && (j in db.deadLetters <==> job.status == DeadLettered)
    && (j in db.deadLetters ==>
          && db.deadLetters[j].attemptCount == job.attemptCount
          && db.deadLetters[j].lastError == job.lastError
          && db.deadLetters[j].payload == job.payload
          && job.finishedAt == Some(db.deadLetters[j].deadLetteredAt)
          && (j, job.attemptCount) in db.attempts
          && db.attempts[(j, job.attemptCount)].finishedAt == db.deadLetters[j].deadLetteredAt)
  }

  ghost predicate TablesOk(db: Db) {
    && (forall j :: 0 <= j < |db.jobs| ==> JobOk(db, j))
    && (forall k :: k in db.attempts ==> k.0 < |db.jobs|)
    && (forall j :: j in db.deadLetters ==> j < |db.jobs|)
  }

  // ---------------------------------------------------------------- what keeps the tables

  /** What the SQL does not test: the snapshot that a completion carries is the current one.
      The lease protocol has to establish it for every completion that is applied. */
  predicate Current(job: Job, op: Op) {
    && (op.SucceedOp? || op.FailOp? ==> op.attemptNo == job.attemptCount + 1)
    && (op.FailOp? ==> op.maxRetries == job.maxRetries && op.payload == job.payload)
  }

  lemma InstallKeepsRow(db: Db, j: JobId, op: Op)
    requires TablesOk(db) && j < |db.jobs|
    requires Guard(db.jobs[j], op) && Current(db.jobs[j], op)
    ensures JobOk(Install(db, j, WriteOf(db.jobs[j], op)), j)
  {
    assert JobOk(db, j);
  }

  // Every current write keeps the attempt log, the dead letters and the lease columns consistent.
  lemma InstallKeepsTables(db: Db, j: JobId, op: Op)
    requires TablesOk(db) && j < |db.jobs|
    requires Guard(db.jobs[j], op) && Current(db.jobs[j], op)
    ensures TablesOk(Install(db, j, WriteOf(db.jobs[j], op)))
  {
    var after := Install(db, j, WriteOf(db.jobs[j], op));
    InstallKeepsRow(db, j, op);
    forall i | 0 <= i < |after.jobs|
      ensures JobOk(after, i)
    {
      if i != j {
        assert JobOk(db, i);
        assert forall n: nat :: (i, n) in after.attempts <==> (i, n) in db.attempts;
      }
    }
  }

  lemma InsertKeepsTables(db: Db, job: Job)
    requires TablesOk(db) && FreshRow(job)
    ensures TablesOk(db.(jobs := db.jobs + [job]))
  {
    var after := db.(jobs := db.jobs + [job]);
    forall i | 0 <= i < |after.jobs|
      ensures JobOk(after, i)
    {
      if i < |db.jobs| {
        assert JobOk(db, i);
      }
    }
  }

  /** A row write has nothing to clash with when its attempt number is the next one, and must
      clash when the number was used before: the unique index sees exactly the stale numbers. */
  lemma IndexSeesStaleNumbers(db: Db, j: JobId, op: Op)
    requires TablesOk(db) && j < |db.jobs| && Guard(db.jobs[j], op)
    requires op.SucceedOp? || op.FailOp? ==> 1 <= op.attemptNo <= db.jobs[j].attemptCount + 1
    ensures Execute(db, j, op).Aborted? <==>
            (op.SucceedOp? || op.FailOp?) && op.attemptNo <= db.jobs[j].attemptCount
  {
    assert JobOk(db, j);
  }
}
