/**
 The serial (SQLite) repository. Each method runs its transaction on the table fields; `now` is
 the clock reading that the method takes before it begins. Rolling back restores the tables.
 */
module Repository {
  import opened Tables
  import opened Sweeps
  import Depth
  import History
  import ClaimOrder
  import CatchUp
  import Submission
  import Sch = Schedules

  // The request of create_jobs_batch, as far as the row depends on it.
  datatype JobCreate = JobCreate(payload: Payload, priority: int, runAt: Option<Time>)

  function NewRow(request: JobCreate, maxRetries: nat, timeout: nat, key: Option<string>, fingerprint: Option<string>,
                  now: Time): (row: Job)
    ensures key.Some? ==> fingerprint.Some? ==> FreshRow(row)
    ensures key.None? ==> FreshRow(row)
  {
    Job(key, fingerprint, None, None, Queued, request.payload, None, request.priority, maxRetries, timeout, 0, None,
        if request.runAt.Some? then request.runAt.value else now, None, None, now, now, None)
  }

  datatype QueueDepth = QueueDepth(
    queued: nat, running: nat, succeeded: nat, failed: nat, deadLettered: nat, cancelled: nat,
    total: nat, dueQueued: nat, scheduledQueued: int)

  // At most one row has the key, so the lookup has one answer.
  predicate UniqueKeys(jobs: seq<Job>) {
    forall i, k :: 0 <= i < k < |jobs| && jobs[i].idempotencyKey.Some? ==> jobs[i].idempotencyKey != jobs[k].idempotencyKey
  }

  class JobRepository {
    var jobs: seq<Job>
    var attempts: map<(JobId, nat), Attempt>
    var deadLetters: map<JobId, DeadLetter>
    var schedules: Sch.Schedules

    function Tables(): Db
      reads this
    {
      Db(jobs, attempts, deadLetters)
    }

    ghost predicate Valid()
      reads this
    {
      TablesOk(Tables())
    }

    constructor ()
      ensures Tables() == EMPTY_DB && schedules == [] && Valid()
    {
      jobs, attempts, deadLetters, schedules := [], map[], map[], [];
    }

    // ------------------------------------------------------------ submission

    // The INSERT of create_job; refused by the unique index on idempotency_key.
    method InsertJob(row: Job) returns (inserted: bool)
      requires FreshRow(row)
      modifies this`jobs
      ensures inserted <==> Insertable(old(jobs), row)
      ensures jobs == if inserted then old(jobs) + [row] else old(jobs)
      ensures old(Valid()) ==> Valid()
    {
      inserted := Insertable(jobs, row);
      if inserted {
        if Valid() {
          InsertKeepsTables(Tables(), row);
        }
        jobs := jobs + [row];
      }
    }

    // get_job_by_idempotency_key; the row's id and fingerprint.
    method FindByKey(key: string) returns (found: Option<(JobId, Option<string>)>)
      ensures found.None? <==> !KeyTaken(jobs, key)
      ensures found.Some? ==>
                && found.value.0 < |jobs| && jobs[found.value.0].idempotencyKey == Some(key)
                && found.value.1 == jobs[found.value.0].fingerprint
    {
      for i := 0 to |jobs|
        invariant forall k :: 0 <= k < i ==> jobs[k].idempotencyKey != Some(key)
      {
        if jobs[i].idempotencyKey == Some(key) {
          return Some((i, jobs[i].fingerprint));
        }
      }
      return None;
    }

    // create_job when nothing happens between its transactions; Submission models them apart.
    method CreateJob(request: JobCreate, maxRetries: nat, timeout: nat, key: Option<string>, fingerprint: string, now: Time)
        returns (reply: Submission.Reply)
      modifies this`jobs
      ensures jobs == old(jobs) || jobs == old(jobs) + [NewRow(request, maxRetries, timeout, key, Some(fingerprint), now)]
      ensures jobs != old(jobs) <==> key.None? || !KeyTaken(old(jobs), key.value)
      ensures jobs != old(jobs) ==> reply == Submission.Got(|old(jobs)|) && FreshRow(jobs[|old(jobs)|])
      ensures jobs != old(jobs) ==>
                var row := jobs[|old(jobs)|];
                && row.payload == request.payload && row.priority == request.priority
                && row.maxRetries == maxRetries && row.timeout == timeout
                && row.idempotencyKey == key && row.fingerprint == Some(fingerprint)
                && row.scheduleId == None && row.createdAt == now && row.updatedAt == now
                && forall t :: Due(row, t) <==> (if request.runAt.Some? then request.runAt.value else now) <= t
      ensures jobs == old(jobs) && key.value != "" && UniqueKeys(jobs) ==>
                forall i: nat :: i < |jobs| && jobs[i].idempotencyKey == key ==>
                  reply == if jobs[i].fingerprint == Some(fingerprint) then Submission.Got(i) else Submission.Conflict
      ensures jobs == old(jobs) && key.value == "" ==> reply == Submission.IntegrityError
      ensures old(Valid()) ==> Valid()
    {
      var k := if key.Some? then key.value else "";
      if k != "" {
        var existing := FindByKey(k);
        match existing {
          case Some((id, found)) => return if found == Some(fingerprint) then Submission.Got(id) else Submission.Conflict;
          case None =>
        }
      }
      var row := NewRow(request, maxRetries, timeout, key, Some(fingerprint), now);
      var inserted := InsertJob(row);
      if inserted {
        return Submission.Got(|jobs| - 1);
      }
      // refused although the first lookup found nothing: only the empty key gets here undisturbed
      if k != "" {
        var existing := FindByKey(k);
        match existing {
          case Some((id, found)) => return if found == Some(fingerprint) then Submission.Got(id) else Submission.Conflict;
          case None => return Submission.Conflict;
        }
      }
      return Submission.IntegrityError;
    }

    method CreateJobsBatch(requests: seq<JobCreate>, maxRetries: nat, timeout: nat, now: Time) returns (ids: seq<JobId>)
      modifies this`jobs
      ensures old(Valid()) ==> Valid()
      ensures |jobs| == |old(jobs)| + |requests| && jobs[..|old(jobs)|] == old(jobs)
      ensures |ids| == |requests|
      ensures forall i :: 0 <= i < |requests| ==>
                ids[i] == |old(jobs)| + i && jobs[ids[i]] == NewRow(requests[i], maxRetries, timeout, None, None, now)
      ensures forall i :: 0 <= i < |requests| ==>
                var row := jobs[|old(jobs)| + i];
                && FreshRow(row) && row.payload == requests[i].payload && row.priority == requests[i].priority
                && row.maxRetries == maxRetries && row.timeout == timeout
                && row.idempotencyKey == None && row.fingerprint == None
                && row.scheduleId == None && row.createdAt == now && row.updatedAt == now
                && forall t :: Due(row, t) <==> (if requests[i].runAt.Some? then requests[i].runAt.value else now) <= t
    {
      ids := [];
      var rows: seq<Job> := [];
      for i := 0 to |requests|
        invariant |rows| == |ids| == i
        invariant forall k :: 0 <= k < i ==>
                    ids[k] == |jobs| + k && rows[k] == NewRow(requests[k], maxRetries, timeout, None, None, now)
      {
        ids := ids + [|jobs| + i];
        rows := rows + [NewRow(requests[i], maxRetries, timeout, None, None, now)];
      }
      if Valid() {
        InsertManyKeepsTables(Tables(), rows);
      }
      jobs := jobs + rows;
    }

    // ------------------------------------------------------------ claim

    method ClaimNextJob(worker: string, now: Time) returns (claimed: Option<JobId>)
      modifies this`jobs
      ensures claimed.None? ==> jobs == old(jobs) && forall k :: 0 <= k < |jobs| ==> !Due(jobs[k], now)
      ensures claimed.Some? ==>
                && IsNextClaim(old(jobs), now, claimed.value)
                && Tables() == After(old(Tables()), claimed.value, ClaimOp(worker, now))
      ensures old(Valid()) ==> Valid()
    {
      ghost var before := Tables();
      if forall k :: 0 <= k < |jobs| ==> !Due(jobs[k], now) {
        return None;
      }
      ghost var k: nat :| k < |jobs| && Due(jobs[k], now);
      ClaimOrder.NextClaimExists(jobs, now, k);
      var j: nat :| j < |jobs| && IsNextClaim(jobs, now, j);
      if jobs[j].status == Queued {
        jobs := jobs[j := jobs[j].(status := Running, lockedBy := Some(worker), lockedAt := Some(now), updatedAt := now)];
      }
      if TablesOk(before) {
        InstallKeepsTables(before, j, ClaimOp(worker, now));
      }
      return Some(j);
    }

    // ------------------------------------------------------------ completion

    method MarkSucceeded(j: JobId, worker: string, attemptNo: nat, startedAt: Time, now: Time, result: HandlerResult)
        returns (o: Outcome)
      modifies this`jobs, this`attempts
      ensures o == Execute(old(Tables()), j, SucceedOp(worker, attemptNo, startedAt, now, result))
      ensures Tables() == After(old(Tables()), j, SucceedOp(worker, attemptNo, startedAt, now, result))
      ensures o.NoRow? <==> j >= |old(jobs)| || old(jobs)[j].status != Running || old(jobs)[j].lockedBy != Some(worker)
      ensures o.Aborted? <==> !o.NoRow? && (j, attemptNo) in old(attempts)
      ensures old(Valid()) && (o.Applied? ==> attemptNo == old(jobs)[j].attemptCount + 1) ==> Valid()
    {
      ghost var db := Tables();
      var before := jobs;
      if j >= |jobs| || !(jobs[j].status == Running && jobs[j].lockedBy == Some(worker)) {
        return NoRow;
      }
      jobs := jobs[j := jobs[j].(status := Succeeded, result := Some(result), attemptCount := attemptNo,
                                 lastError := None, lockedBy := None, lockedAt := None,
                                 updatedAt := now, finishedAt := Some(now))];
      if (j, attemptNo) in attempts {
        jobs := before;
        return Aborted;
      }
      var attempt := Attempt(worker, AttemptSucceeded, startedAt, now, None);
      attempts := attempts[(j, attemptNo) := attempt];
      if TablesOk(db) && attemptNo == db.jobs[j].attemptCount + 1 {
        InstallKeepsTables(db, j, SucceedOp(worker, attemptNo, startedAt, now, result));
      }
      return Applied(RowWrite(jobs[j], Some((attemptNo, attempt)), None));
    }

    // `maxRetries` and `payload` are those of the job dictionary that the worker passes in.
    method MarkFailedAttempt(j: JobId, maxRetries: nat, payload: Payload, worker: string, attemptNo: nat,
                             startedAt: Time, now: Time, error: string, timedOut: bool, backoff: nat)
        returns (o: Outcome)
      modifies this`jobs, this`attempts, this`deadLetters
      ensures o == Execute(old(Tables()), j,
                           FailOp(worker, attemptNo, maxRetries, payload, startedAt, now, error, timedOut, backoff))
      ensures Tables() == After(old(Tables()), j,
                                FailOp(worker, attemptNo, maxRetries, payload, startedAt, now, error, timedOut, backoff))
      ensures o.NoRow? <==> j >= |old(jobs)| || old(jobs)[j].status != Running || old(jobs)[j].lockedBy != Some(worker)
      ensures o.Aborted? <==> !o.NoRow? && (j, attemptNo) in old(attempts)
      ensures (old(Valid()) &&
               (o.Applied? ==>
                  && attemptNo == old(jobs)[j].attemptCount + 1
                  && maxRetries == old(jobs)[j].maxRetries
                  && payload == old(jobs)[j].payload)) ==> Valid()
    {
      ghost var db := Tables();
      ghost var op := FailOp(worker, attemptNo, maxRetries, payload, startedAt, now, error, timedOut, backoff);
      var before := jobs;
      var willRetry := attemptNo <= maxRetries;
      var nextStatus := if willRetry then Queued else DeadLettered;
      var nextRunAt := if willRetry then now + backoff else now;
      var finishedAt := if willRetry then None else Some(now);
      if j >= |jobs| || !(jobs[j].status == Running && jobs[j].lockedBy == Some(worker)) {
        return NoRow;
      }
      jobs := jobs[j := jobs[j].(status := nextStatus, attemptCount := attemptNo, lastError := Some(error),
                                 runAt := nextRunAt, lockedBy := None, lockedAt := None,
                                 updatedAt := now, finishedAt := finishedAt)];
      if (j, attemptNo) in attempts {
        jobs := before;
        return Aborted;
      }
      if TablesOk(db) && Current(db.jobs[j], op) {
        InstallKeepsTables(db, j, op);
      }
      var attempt := Attempt(worker, if timedOut then AttemptTimedOut else AttemptFailed, startedAt, now, Some(error));
      attempts := attempts[(j, attemptNo) := attempt];
      if willRetry {
        return Applied(RowWrite(jobs[j], Some((attemptNo, attempt)), None));
      }
      var letter := DeadLetter(payload, Some(error), attemptNo, now);
      deadLetters := deadLetters[j := letter];
      return Applied(RowWrite(jobs[j], Some((attemptNo, attempt)), Some(letter)));
    }

    // ------------------------------------------------------------ reaper

    // The unique index must not refuse the attempt: it would abort the reaper's whole batch.
    method RecordAbandoned(j: JobId, attemptNo: nat, attempt: Attempt)
      requires (j, attemptNo) !in attempts
      modifies this`attempts
      ensures attempts == old(attempts)[(j, attemptNo) := attempt]
    {
      attempts := attempts[(j, attemptNo) := attempt];
    }

    method RecoverStaleJobs(now: Time, grace: nat) returns (recovered: nat)
      requires Valid()
      modifies this`jobs, this`attempts, this`deadLetters
      ensures Valid()
      ensures Tables() == Sweep(old(Tables()), |old(jobs)|, ReapOp(now, grace))
      ensures recovered == Matching(old(jobs), |old(jobs)|, ReapOp(now, grace))
      ensures recovered == |set j | 0 <= j < |old(jobs)| && Expired(old(jobs)[j], now, grace)|
      ensures forall j: JobId :: j < |old(jobs)| && Expired(old(jobs)[j], now, grace) ==>
                AbandonedAt(old(Tables()), Tables(), j, now)
      ensures |jobs| == |old(jobs)|
      ensures forall j: JobId :: j < |old(jobs)| && !Expired(old(jobs)[j], now, grace) ==> jobs[j] == old(jobs)[j]
    {
      recovered := 0;
      var rows := jobs;
      ghost var before := Tables();
      ghost var op := ReapOp(now, grace);
      for j := 0 to |rows|
        invariant before == old(Tables()) && rows == before.jobs && |jobs| == |rows|
        invariant Tables() == Sweep(before, j, op)
        invariant recovered == Matching(rows, j, op)
      {
        SweepVisits(before, j, op);
        var row := rows[j];
        if row.status == Running && row.lockedAt.Some? && now - row.lockedAt.value > row.timeout + grace {
          var attemptNo := row.attemptCount + 1;
          var willRetry := attemptNo <= row.maxRetries;
          if jobs[j].status == Running && jobs[j].lockedBy == row.lockedBy && jobs[j].lockedAt == row.lockedAt {
            jobs := jobs[j := jobs[j].(status := if willRetry then Queued else DeadLettered,
                                       attemptCount := attemptNo, lastError := Some(LEASE_EXPIRED), runAt := now,
                                       lockedBy := None, lockedAt := None, updatedAt := now,
                                       finishedAt := if willRetry then None else Some(now))];
            RecordAbandoned(j, attemptNo, Attempt(row.lockedBy.value, AttemptAbandoned, row.lockedAt.value, now,
                                                  Some(LEASE_EXPIRED)));
            if !willRetry {
              deadLetters := deadLetters[j := DeadLetter(row.payload, Some(LEASE_EXPIRED), attemptNo, now)];
            }
            recovered := recovered + 1;
          }
        }
      }
      SweepKeepsUnvisited(before, |rows|, op);
      ReaperIsExact(before, now, grace);
      ExpiredCount(before, now, grace);
    }

    // ------------------------------------------------------------ cancel and drain

    // Returns the row as it is afterwards, cancelled or not, if there is one.
    method CancelJob(j: JobId, now: Time) returns (job: Option<Job>)
      modifies this`jobs
      ensures Tables() == After(old(Tables()), j, CancelOp(now))
      ensures job == if j < |old(jobs)| then Some(jobs[j]) else None
      ensures j < |old(jobs)| && old(jobs)[j].status == Queued ==>
                && History.SameIdentity(old(jobs)[j], job.value)
                && job.value.status == Cancelled && job.value.updatedAt == now && job.value.finishedAt == Some(now)
      ensures j < |old(jobs)| && old(jobs)[j].status != Queued ==> jobs == old(jobs)
      ensures old(Valid()) ==> Valid()
    {
      ghost var before := Tables();
      if j < |jobs| && jobs[j].status == Queued {
        jobs := jobs[j := jobs[j].(status := Cancelled, updatedAt := now, finishedAt := Some(now))];
        if TablesOk(before) {
          InstallKeepsTables(before, j, CancelOp(now));
        }
      }
      job := if j < |jobs| then Some(jobs[j]) else None;
    }

    // One UPDATE of every queued row; the row count is returned.
    method DrainQueue(now: Time) returns (moved: nat)
      requires Valid()
      modifies this`jobs
      ensures Valid()
      ensures Tables() == Sweep(old(Tables()), |old(jobs)|, CancelOp(now))
      ensures moved == Depth.Count(old(jobs), Queued)
      ensures |jobs| == |old(jobs)|
      ensures forall j :: 0 <= j < |jobs| && old(jobs)[j].status == Queued ==>
                jobs[j].status == Cancelled && jobs[j].updatedAt == now && jobs[j].finishedAt == Some(now)
      ensures forall j :: 0 <= j < |jobs| && old(jobs)[j].status != Queued ==> jobs[j] == old(jobs)[j]
    {
      moved := 0;
      ghost var before := Tables();
      for j := 0 to |jobs|
        invariant |jobs| == |before.jobs| && attempts == before.attempts && deadLetters == before.deadLetters
        invariant Tables() == Sweep(before, j, CancelOp(now))
        invariant moved == Matching(before.jobs, j, CancelOp(now))
      {
        SweepVisits(before, j, CancelOp(now));
        if jobs[j].status == Queued {
          jobs := jobs[j := jobs[j].(status := Cancelled, updatedAt := now, finishedAt := Some(now))];
          moved := moved + 1;
        }
      }
      SweepKeepsUnvisited(before, |before.jobs|, CancelOp(now));
      Depth.DrainMovesAllQueued(before, now);
      DrainIsExact(before, now);
    }

    // ------------------------------------------------------------ queue depth

    // GetQueueDepth's counts, in one snapshot of the tables.
    method GetQueueDepth(now: Time) returns (d: QueueDepth)
      ensures d.queued == |Depth.WithStatus(jobs, Queued)| && d.running == |Depth.WithStatus(jobs, Running)|
      ensures d.succeeded == |Depth.WithStatus(jobs, Succeeded)| && d.failed == |Depth.WithStatus(jobs, Failed)|
      ensures d.deadLettered == |Depth.WithStatus(jobs, DeadLettered)| && d.cancelled == |Depth.WithStatus(jobs, Cancelled)|
      ensures d.total == |jobs|
      ensures d.queued + d.running + d.succeeded + d.failed + d.deadLettered + d.cancelled == d.total
      ensures d.dueQueued == |Depth.QueuedUpTo(jobs, now)| && d.scheduledQueued == |Depth.QueuedAfter(jobs, now)|
      ensures d.dueQueued + d.scheduledQueued == d.queued
    {
      var counts: map<Status, nat> := 
        map[Queued := 0, Running := 0, Succeeded := 0, Failed := 0, DeadLettered := 0, Cancelled := 0];
      var total, due := 0, 0;
      forall st: Status
        ensures st in counts && counts[st] == 0
      {
        match st case Queued => case Running => case Succeeded => case Failed => case DeadLettered => case Cancelled =>
      }
      for i := 0 to |jobs|
        invariant forall st: Status :: st in counts && counts[st] == Depth.Count(jobs[..i], st)
        invariant total == i && due == Depth.CountDue(jobs[..i], now)
      {
        assert jobs[..i + 1][..i] == jobs[..i];
        counts := counts[jobs[i].status := counts[jobs[i].status] + 1];
        total := total + 1;
        if Due(jobs[i], now) {
          due := due + 1;
        }
      }
      assert jobs[..|jobs|] == jobs;
      Depth.CountsSumToTotal(jobs);
      Depth.QueuedSplits(jobs, now);
      Depth.DueIsCardinality(jobs, now);
      Depth.ScheduledIsCardinality(jobs, now);
      forall st: Status
        ensures Depth.Count(jobs, st) == |Depth.WithStatus(jobs, st)|
      {
        Depth.CountIsCardinality(jobs, st);
      }
      var scheduled := counts[Queued] - due;
      d := QueueDepth(counts[Queued], counts[Running], counts[Succeeded], counts[Failed], counts[DeadLettered],
                      counts[Cancelled], total, due, if scheduled > 0 then scheduled else 0);
    }

    // ------------------------------------------------------------ schedules

    method CreateSchedule(cron: Sch.Cron, expression: string, payload: Payload, priority: int, maxRetries: nat,
                          timeout: nat, now: Time) returns (id: Option<nat>)
      modifies this`schedules
      ensures id.None? <==> !cron.valid(expression)
      ensures id.None? ==> schedules == old(schedules)
      ensures id.Some? ==>
                && id.value == |old(schedules)|
                && schedules == old(schedules) + [Some(Sch.Schedule(expression, payload, priority, maxRetries, timeout, true,
                                                                    cron.next(expression, now), None, now, now))]
    {
      if !cron.valid(expression) {
        return None;
      }
      var nextRunAt := cron.next(expression, now);
      id := Some(|schedules|);
      schedules := schedules + [Some(Sch.Schedule(expression, payload, priority, maxRetries, timeout, true, nextRunAt,
                                                  None, now, now))];
    }

    method DeleteSchedule(id: nat) returns (deleted: bool)
      modifies this`schedules
      ensures deleted <==> id < |old(schedules)| && old(schedules)[id].Some?
      ensures schedules == if deleted then old(schedules)[id := None] else old(schedules)
    {
      deleted := id < |schedules| && schedules[id].Some?;
      if deleted {
        schedules := schedules[id := None];
      }
    }

    // set_schedule_enabled when nothing happens between its two transactions; Schedules models
    // them apart.
    method SetScheduleEnabled(cron: Sch.Cron, id: nat, enabled: bool, now: Time) returns (found: bool)
      modifies this`schedules
      ensures found <==> id < |old(schedules)| && old(schedules)[id].Some?
      ensures !found ==> schedules == old(schedules)
      ensures found ==>
                var sc := old(schedules)[id].value;
                var next := if enabled then cron.next(sc.expression, now) else sc.nextRunAt;
                schedules == old(schedules)[id := Some(sc.(enabled := enabled, updatedAt := now, nextRunAt := next))]
    {
      if id >= |schedules| || schedules[id].None? {
        return false;
      }
      var current := schedules[id].value;
      var nextRunAt := if enabled then cron.next(current.expression, now) else current.nextRunAt;
      schedules := schedules[id := Some(schedules[id].value.(enabled := enabled, nextRunAt := nextRunAt, updatedAt := now))];
      return true;
    }

    // SELECT ... WHERE enabled AND next_run_at <= now ORDER BY next_run_at LIMIT limit
    method SelectDueSchedules(now: Time, limit: nat) returns (sel: seq<nat>)
      ensures CatchUp.IsSelection(schedules, now, limit, sel)
    {
      sel := [];
      while |sel| < limit && exists d: nat :: d < |schedules| && Sch.DueSchedule(schedules, d, now) && d !in sel
        invariant CatchUp.IsSelection(schedules, now, |sel|, sel) && |sel| <= limit
        decreases limit - |sel|
      {
        ghost var d0: nat :| d0 < |schedules| && Sch.DueSchedule(schedules, d0, now) && d0 !in sel;
        MostOverdueExists(schedules, now, sel, |schedules|, d0);
        var d: nat :| d < |schedules| && MostOverdue(schedules, now, sel, d);
        sel := sel + [d];
      }
    }

    method MaterializeDueSchedules(cron: Sch.Cron, now: Time, limit: nat) returns (materialized: nat, ghost sel: seq<nat>)
      modifies this`jobs, this`schedules
      ensures old(Valid()) ==> Valid()
      ensures CatchUp.IsSelection(old(schedules), now, limit, sel)
      ensures (jobs, schedules) == CatchUp.MaterializeRows(cron, old(jobs), old(schedules), sel, now)
      ensures materialized == |jobs| - |old(jobs)|
      ensures CatchUp.OccurrencesAdded(old(jobs), old(schedules), sel, now, jobs)
      ensures |schedules| == |old(schedules)|
      ensures forall i :: 0 <= i < |sel| ==>
                schedules[sel[i]].Some? && CatchUp.MovedOn(cron, old(schedules)[sel[i]].value, schedules[sel[i]].value, now)
      ensures forall d: nat :: d < |schedules| && d !in sel ==> schedules[d] == old(schedules)[d]
    {
      materialized := 0;
      var rows := SelectDueSchedules(now, limit);
      sel := rows;
      var snapshot := schedules;
      for i := 0 to |rows|
        invariant snapshot == old(schedules) && (old(Valid()) ==> Valid())
        invariant CatchUp.AllLive(snapshot, rows) && CatchUp.AllLive(snapshot, rows[..i])
        invariant (jobs, schedules) == CatchUp.MaterializeRows(cron, old(jobs), snapshot, rows[..i], now)
        invariant materialized == |jobs| - |old(jobs)|
      {
        CatchUp.RowStep(cron, old(jobs), snapshot, rows, i, now);
        var row := snapshot[rows[i]].value;
        var inserted := InsertJob(Sch.OccurrenceRow(row, rows[i], now));
        if inserted {
          materialized := materialized + 1;
        }
        schedules := schedules[rows[i] := Some(schedules[rows[i]].value.(
          lastRunAt := Some(row.nextRunAt), nextRunAt := cron.next(row.expression, row.nextRunAt), updatedAt := now))];
      }
      assert rows[..|rows|] == rows;
      CatchUp.SelectedMoveOn(cron, old(jobs), snapshot, rows, now);
      CatchUp.CallAddsOccurrences(cron, old(jobs), snapshot, rows, now);
    }
  }

  lemma {:induction false} InsertManyKeepsTables(db: Db, rows: seq<Job>)
    requires TablesOk(db) && forall i :: 0 <= i < |rows| ==> FreshRow(rows[i])
    ensures TablesOk(db.(jobs := db.jobs + rows))
    decreases |rows|
  {
    if rows == [] {
      assert db.jobs + rows == db.jobs;
    } else {
      InsertKeepsTables(db, rows[0]);
      InsertManyKeepsTables(db.(jobs := db.jobs + [rows[0]]), rows[1..]);
      assert db.jobs + rows == (db.jobs + [rows[0]]) + rows[1..];
    }
  }

  predicate MostOverdue(schedules: Sch.Schedules, now: Time, sel: seq<nat>, d: nat) {
    && Sch.DueSchedule(schedules, d, now) && d !in sel
    && forall e: nat :: e < |schedules| && Sch.DueSchedule(schedules, e, now) && e !in sel ==>
         schedules[d].value.nextRunAt <= schedules[e].value.nextRunAt
  }

  lemma {:induction false} MostOverdueExists(schedules: Sch.Schedules, now: Time, sel: seq<nat>, n: nat, d0: nat)
    requires n == |schedules|
    requires Sch.DueSchedule(schedules, d0, now) && d0 !in sel
    ensures exists d: nat :: d < |schedules| && MostOverdue(schedules, now, sel, d)
  {
    var d: nat := d0;
    for k := 0 to |schedules|
      invariant Sch.DueSchedule(schedules, d, now) && d !in sel
      invariant forall e: nat :: e < k && Sch.DueSchedule(schedules, e, now) && e !in sel ==>
                  schedules[d].value.nextRunAt <= schedules[e].value.nextRunAt
    {
      if Sch.DueSchedule(schedules, k, now) && k !in sel && schedules[k].value.nextRunAt < schedules[d].value.nextRunAt {
        d := k;
      }
    }
    assert MostOverdue(schedules, now, sel, d);
  }
}
