/**
 The worker pool: thread slots, and process_one on the serial repository with nothing between
 its transactions. Module Protocol covers the interleavings.
 */
module Worker {
  import opened Tables
  import opened Retry
  import opened Repository
  import Protocol
  import Handler
  import Progress
  import History

  // One call of process_one: its three clock readings, and whether the handler runs out of time.
  datatype Round = Round(worker: string, now: Time, startedAt: Time, endedAt: Time, timesOut: bool)

  // _run_with_timeout and _record_failure: what the worker reports about attempt `attemptNo`.
  function Report(cfg: Config, payload: Payload, attemptNo: nat, timesOut: bool): Protocol.Verdict {
    if timesOut then Protocol.Raised("attempt timed out", true, Backoff(cfg, attemptNo))
    else VerdictOf(cfg, payload, attemptNo)
  }

  function CompletionOp(cfg: Config, job: Job, r: Round): Op {
    var no := job.attemptCount + 1;
    match Report(cfg, job.payload, no, r.timesOut)
    case Returned(result) => SucceedOp(r.worker, no, r.startedAt, r.endedAt, result)
    case Raised(error, timedOut, backoff) =>
      FailOp(r.worker, no, job.maxRetries, job.payload, r.startedAt, r.endedAt, error, timedOut, backoff)
  }

  // The tables after one undisturbed call that claims job `j`.
  function Processed(cfg: Config, db: Db, j: JobId, r: Round): Db
    requires j < |db.jobs|
  {
    After(After(db, j, ClaimOp(r.worker, r.now)), j, CompletionOp(cfg, db.jobs[j], r))
  }

  lemma ProcessedEffect(cfg: Config, db: Db, j: JobId, r: Round)
    requires TablesOk(db) && j < |db.jobs| && Due(db.jobs[j], r.now)
    ensures var claimed := After(db, j, ClaimOp(r.worker, r.now));
            && TablesOk(claimed) && |claimed.jobs| == |db.jobs|
            && Execute(claimed, j, CompletionOp(cfg, db.jobs[j], r)).Applied?
            && Current(claimed.jobs[j], CompletionOp(cfg, db.jobs[j], r))
            && TablesOk(Processed(cfg, db, j, r)) && Processed(cfg, db, j, r).jobs[j].status != Running
  {
    assert JobOk(db, j);
    InstallKeepsTables(db, j, ClaimOp(r.worker, r.now));
    var claimed := After(db, j, ClaimOp(r.worker, r.now));
    assert JobOk(claimed, j);
    InstallKeepsTables(claimed, j, CompletionOp(cfg, db.jobs[j], r));
  }

  /** What one call of process_one leaves behind for the job that it claimed: the attempt under the
      next number, from the start to the end of the handler, and the row that its outcome gives. A
      handler that runs out of time, returns and raises are three outcomes. */
  ghost predicate AttemptRecorded(cfg: Config, db: Db, j: JobId, r: Round, db': Db) {
    && History.OnlyRow(db, db', j)
    && db.jobs[j].status == Queued && db.jobs[j].runAt <= r.now
    && var (was, job, no) := (db.jobs[j], db'.jobs[j], db.jobs[j].attemptCount + 1);
       && (j, no) !in db.attempts
       && job.attemptCount == no && job.updatedAt == r.endedAt && job.lockedBy == None && job.lockedAt == None
       && (r.timesOut ==> AttemptFailedWith(cfg, db, j, r, db', AttemptTimedOut, "attempt timed out"))
       && (!r.timesOut ==>
             match Handler.ExecuteJob(was.payload, no)
             case Done(result) =>
               && db'.attempts == db.attempts[(j, no) := Attempt(r.worker, AttemptSucceeded, r.startedAt, r.endedAt, None)]
               && job.status == Succeeded && job.result == Some(result) && job.lastError == None
               && job.finishedAt == Some(r.endedAt) && job.runAt == was.runAt && db'.deadLetters == db.deadLetters
             case JobExecutionError(message) => AttemptFailedWith(cfg, db, j, r, db', AttemptFailed, message))
  }

  // A failed attempt: retried after its wait while retries are left, dead-lettered afterwards.
  ghost predicate AttemptFailedWith(cfg: Config, db: Db, j: JobId, r: Round, db': Db, status: AttemptStatus, error: string)
    requires j < |db.jobs| && j < |db'.jobs|
  {
    var (was, job, no) := (db.jobs[j], db'.jobs[j], db.jobs[j].attemptCount + 1);
    && db'.attempts == db.attempts[(j, no) := Attempt(r.worker, status, r.startedAt, r.endedAt, Some(error))]
    && job.result == None && job.lastError == Some(error)
    && (no <= was.maxRetries ==>
          && job.status == Queued && job.runAt == r.endedAt + Backoff(cfg, no) && job.finishedAt == None
          && db'.deadLetters == db.deadLetters)
    && (no > was.maxRetries ==>
          && job.status == DeadLettered && job.runAt == r.endedAt && job.finishedAt == Some(r.endedAt)
          && db'.deadLetters == db.deadLetters[j := DeadLetter(was.payload, Some(error), no, r.endedAt)])
  }

  lemma TimeoutIsRecorded(cfg: Config, db: Db, j: JobId, r: Round)
    requires TablesOk(db) && j < |db.jobs| && Due(db.jobs[j], r.now) && r.timesOut
    ensures AttemptRecorded(cfg, db, j, r, Processed(cfg, db, j, r))
  {
    ProcessedEffect(cfg, db, j, r);
    assert JobOk(db, j);
  }

  lemma ReturnIsRecorded(cfg: Config, db: Db, j: JobId, r: Round)
    requires TablesOk(db) && j < |db.jobs| && Due(db.jobs[j], r.now) && !r.timesOut
    requires Handler.ExecuteJob(db.jobs[j].payload, db.jobs[j].attemptCount + 1).Done?
    ensures AttemptRecorded(cfg, db, j, r, Processed(cfg, db, j, r))
  {
    ProcessedEffect(cfg, db, j, r);
    assert JobOk(db, j);
  }

  lemma ErrorIsRecorded(cfg: Config, db: Db, j: JobId, r: Round)
    requires TablesOk(db) && j < |db.jobs| && Due(db.jobs[j], r.now) && !r.timesOut
    requires Handler.ExecuteJob(db.jobs[j].payload, db.jobs[j].attemptCount + 1).JobExecutionError?
    ensures AttemptRecorded(cfg, db, j, r, Processed(cfg, db, j, r))
  {
    ProcessedEffect(cfg, db, j, r);
    assert JobOk(db, j);
  }

  /** Whatever the handler does, one undisturbed call records exactly that. */
  lemma ProcessedIsRecorded(cfg: Config, db: Db, j: JobId, r: Round)
    requires TablesOk(db) && j < |db.jobs| && Due(db.jobs[j], r.now)
    ensures AttemptRecorded(cfg, db, j, r, Processed(cfg, db, j, r))
  {
    if r.timesOut {
      TimeoutIsRecorded(cfg, db, j, r);
    } else if Handler.ExecuteJob(db.jobs[j].payload, db.jobs[j].attemptCount + 1).Done? {
      ReturnIsRecorded(cfg, db, j, r);
    } else {
      ErrorIsRecorded(cfg, db, j, r);
    }
  }

  // ---------------------------------------------------------------- the fail job, end to end

  /** Undisturbed calls that claim `j`, each no earlier than its run_at. */
  ghost predicate Worked(cfg: Config, db: Db, j: JobId, rounds: seq<Round>, db': Db)
    requires j < |db.jobs|
    decreases |rounds|
  {
    if rounds == [] then db' == db
    else
      && Due(db.jobs[j], rounds[0].now) && !rounds[0].timesOut
      && |Processed(cfg, db, j, rounds[0]).jobs| == |db.jobs|
      && Worked(cfg, Processed(cfg, db, j, rounds[0]), j, rounds[1..], db')
  }

  // The number of attempts of a `fail` job with `k` failures and `m` retries.
  function AttemptsNeeded(k: int, m: nat): nat {
    if k > m then m + 1 else if k > 0 then k + 1 else 1
  }

  predicate FailOutcome(job: Job, count: nat) {
    job.payload.Fail? &&
    var (k, m) := (job.payload.failuresBeforeSuccess, job.maxRetries);
    && job.attemptCount == count
    && job.status == (if count < AttemptsNeeded(k, m) then Queued else if k <= m then Succeeded else DeadLettered)
  }

  // One undisturbed call adds one attempt, and it is what the handler does on it.
  lemma OneRoundLogs(cfg: Config, db: Db, j: JobId, r: Round)
    requires TablesOk(db) && j < |db.jobs|
    requires Due(db.jobs[j], r.now) && !r.timesOut
    ensures var after := Processed(cfg, db, j, r);
            && |after.jobs| == |db.jobs|
            && after.jobs[j].payload == db.jobs[j].payload && after.jobs[j].maxRetries == db.jobs[j].maxRetries
            && after.jobs[j].attemptCount == db.jobs[j].attemptCount + 1
            && LogExtends(db, after, j)
  {
    ProcessedEffect(cfg, db, j, r);
    assert JobOk(db, j) && JobOk(Processed(cfg, db, j, r), j);
  }

  lemma OneFailRound(cfg: Config, db: Db, j: JobId, r: Round)
    requires TablesOk(db) && j < |db.jobs|
    requires Due(db.jobs[j], r.now) && !r.timesOut
    requires FailOutcome(db.jobs[j], db.jobs[j].attemptCount)
    ensures var after := Processed(cfg, db, j, r);
            TablesOk(after) && |after.jobs| == |db.jobs| && FailOutcome(after.jobs[j], db.jobs[j].attemptCount + 1)
  {
    ProcessedEffect(cfg, db, j, r);
    assert JobOk(db, j);
  }

  /** process_one, repeated on a `fail` job with k failures and m retries, needs
      min(max(k, 0), m) + 1 calls: before the last one the job is queued again, and the last one
      leaves it succeeded if k <= m and dead-lettered otherwise; every attempt is in the log. */
  lemma {:induction false} FailJobEnds(cfg: Config, db: Db, j: JobId, rounds: seq<Round>, db': Db)
    requires TablesOk(db) && j < |db.jobs|
    requires FailOutcome(db.jobs[j], db.jobs[j].attemptCount)
    requires Worked(cfg, db, j, rounds, db')
    ensures TablesOk(db') && j < |db'.jobs|
    ensures db'.jobs[j].payload == db.jobs[j].payload && db'.jobs[j].maxRetries == db.jobs[j].maxRetries
    ensures FailOutcome(db'.jobs[j], db.jobs[j].attemptCount + |rounds|)
    ensures LogExtends(db, db', j)
    decreases |rounds|
  {
    if rounds != [] {
      var mid := Processed(cfg, db, j, rounds[0]);
      OneFailRound(cfg, db, j, rounds[0]);
      OneRoundLogs(cfg, db, j, rounds[0]);
      FailJobEnds(cfg, mid, j, rounds[1..], db');
      LogTransitive(db, mid, db', j);
    } else {
      assert JobOk(db, j);
    }
  }

  // The log of `j` in `db'` continues that in `db` with what the handler does on each attempt.
  ghost predicate LogExtends(db: Db, db': Db, j: JobId)
    requires j < |db.jobs| && j < |db'.jobs|
  {
    && (forall n: nat :: (j, n) in db'.attempts <==> 1 <= n <= db'.jobs[j].attemptCount)
    && (forall n: nat :: (j, n) in db'.attempts && db.jobs[j].attemptCount < n ==>
          Matches(db'.attempts[(j, n)], db.jobs[j].payload, n))
    && (forall n: nat :: (j, n) in db.attempts ==> (j, n) in db'.attempts && db'.attempts[(j, n)] == db.attempts[(j, n)])
  }

  lemma LogTransitive(db: Db, mid: Db, db': Db, j: JobId)
    requires j < |db.jobs| && j < |mid.jobs| && j < |db'.jobs|
    requires mid.jobs[j].payload == db.jobs[j].payload
    requires LogExtends(db, mid, j) && LogExtends(mid, db', j)
    ensures LogExtends(db, db', j)
  {
  }

  // ---------------------------------------------------------------- the worker loop

  // A round claims a first job of the due order, and none only if nothing is due.
  predicate RightPick(db: Db, now: Time, pick: Option<JobId>) {
    && (pick.Some? ==> IsNextClaim(db.jobs, now, pick.value))
    && (pick.None? ==> forall k :: 0 <= k < |db.jobs| ==> !Due(db.jobs[k], now))
  }

  function RoundOf(cfg: Config, db: Db, r: Round, pick: Option<JobId>): Db {
    if pick.Some? && pick.value < |db.jobs| then Processed(cfg, db, pick.value, r) else db
  }

  /** The first rounds, as many as there are picks, lead from `db` to `db'`: each claims its pick, a
      first job of the due order, or finds nothing. */
  ghost predicate Serves(cfg: Config, db: Db, rounds: seq<Round>, picks: seq<Option<JobId>>, db': Db)
    decreases |picks|
  {
    if picks == [] then db' == db
    else
      && rounds != [] && RightPick(db, rounds[0].now, picks[0])
      && Serves(cfg, RoundOf(cfg, db, rounds[0], picks[0]), rounds[1..], picks[1..], db')
  }

  function CountPicks(picks: seq<Option<JobId>>): nat {
    if picks == [] then 0 else (if picks[0].Some? then 1 else 0) + CountPicks(picks[1..])
  }

  lemma {:induction false} ServeOneMore(cfg: Config, db: Db, rounds: seq<Round>, picks: seq<Option<JobId>>, mid: Db,
                                        pick: Option<JobId>)
    requires |picks| < |rounds| && Serves(cfg, db, rounds, picks, mid) && RightPick(mid, rounds[|picks|].now, pick)
    ensures Serves(cfg, db, rounds, picks + [pick], RoundOf(cfg, mid, rounds[|picks|], pick))
    ensures CountPicks(picks + [pick]) == CountPicks(picks) + (if pick.Some? then 1 else 0)
    decreases |picks|
  {
    if picks == [] {
      assert [pick][1..] == [];
    } else {
      ServeOneMore(cfg, RoundOf(cfg, db, rounds[0], picks[0]), rounds[1..], picks[1..], mid, pick);
      assert (picks + [pick])[1..] == picks[1..] + [pick];
    }
  }

  /** Undisturbed rounds keep the tables consistent and lower the measure of the work left by at
      least two for each job they claim: the claim and the completion. */
  lemma {:induction false} RoundsMakeProgress(cfg: Config, db: Db, rounds: seq<Round>, picks: seq<Option<JobId>>, db': Db)
    requires TablesOk(db) && Serves(cfg, db, rounds, picks, db')
    ensures TablesOk(db') && |db'.jobs| == |db.jobs|
    ensures Progress.Total(db'.jobs) + 2 * CountPicks(picks) <= Progress.Total(db.jobs)
    decreases |picks|
  {
    if picks != [] {
      if picks[0].Some? {
        RoundMakesProgress(cfg, db, picks[0].value, rounds[0]);
      }
      RoundsMakeProgress(cfg, RoundOf(cfg, db, rounds[0], picks[0]), rounds[1..], picks[1..], db');
    }
  }

  lemma RoundMakesProgress(cfg: Config, db: Db, j: JobId, r: Round)
    requires TablesOk(db) && j < |db.jobs| && Due(db.jobs[j], r.now)
    ensures TablesOk(Processed(cfg, db, j, r)) && |Processed(cfg, db, j, r).jobs| == |db.jobs|
    ensures Progress.Total(Processed(cfg, db, j, r).jobs) + 2 <= Progress.Total(db.jobs)
  {
    ProcessedEffect(cfg, db, j, r);
    var claimed := After(db, j, ClaimOp(r.worker, r.now));
    var after := Processed(cfg, db, j, r);
    assert JobOk(db, j);
    Progress.TotalOfUpdate(db.jobs, j, claimed.jobs[j]);
    Progress.TotalOfUpdate(claimed.jobs, j, after.jobs[j]);
  }

  // ---------------------------------------------------------------- the pool

  // range(current + 1, desired + 1)
  function NewSlots(current: nat, desired: nat): seq<nat> {
    if desired <= current then [] else NewSlots(current, desired - 1) + [desired]
  }

  lemma {:induction false} NewSlotsAre(current: nat, desired: nat)
    ensures |NewSlots(current, desired)| == if current < desired then desired - current else 0
    ensures forall k :: 0 <= k < |NewSlots(current, desired)| ==> NewSlots(current, desired)[k] == current + 1 + k
  {
    if current < desired {
      NewSlotsAre(current, desired - 1);
    }
  }

  /** New threads are numbered from the number of live ones, so two threads get the same slot,
      and with it the same worker id, exactly if a live slot lies above the number of live
      threads and within the desired concurrency. */
  lemma SlotsClashIff(live: seq<nat>, desired: nat)
    requires NoDuplicates(live)
    ensures NoDuplicates(live + NewSlots(|live|, desired)) <==> forall s :: s in live ==> s <= |live| || desired < s
  {
    var all := live + NewSlots(|live|, desired);
    NewSlotsAre(|live|, desired);
    if exists s :: s in live && |live| < s <= desired {
      var s :| s in live && |live| < s <= desired;
      var i :| 0 <= i < |live| && live[i] == s;
      assert all[i] == all[s - 1];
    } else {
      forall i, k | 0 <= i < k < |all|
        ensures all[i] != all[k]
      {
        if i < |live| <= k {
          assert all[i] in live;
        }
      }
    }
  }

  // Three slots, scaled down to one and up to three again while slot 3 is busy with a job: slots 2
  // and 3 may leave their loops only between jobs, so slot 2 has ended, slot 3 has not, and the
  // one new thread is numbered 3.
  lemma SlotThreeTwice()
    ensures [1, 3] + NewSlots(2, 3) == [1, 3, 3]
  {
  }

  class WorkerPool {
    var threads: seq<nat>
    var busyWorkers: nat
    const cfg: Config

    constructor (cfg: Config)
      ensures threads == [] && busyWorkers == 0 && this.cfg == cfg
    {
      threads, busyWorkers := [], 0;
      this.cfg := cfg;
    }

    // _ensure_threads_locked; `live` are the slots of the threads that are still alive.
    method EnsureThreads(live: seq<nat>, desired: nat)
      modifies this`threads
      ensures threads == live + NewSlots(|live|, desired)
    {
      threads := live;
      var index := |live| + 1;
      while index <= desired
        invariant |live| + 1 <= index && (index <= desired + 1 || index == |live| + 1)
        invariant threads == live + NewSlots(|live|, index - 1)
      {
        threads := threads + [index];
        index := index + 1;
      }
      assert desired <= |live| ==> NewSlots(|live|, desired) == NewSlots(|live|, |live|);
    }

    method RecordFailure(repo: JobRepository, j: JobId, job: Job, attemptNo: nat, r: Round, error: string, timedOut: bool)
        returns (o: Outcome)
      modifies repo`jobs, repo`attempts, repo`deadLetters
      ensures var op := FailOp(r.worker, attemptNo, job.maxRetries, job.payload, r.startedAt, r.endedAt, error, timedOut,
                               Backoff(cfg, attemptNo));
              && o == Execute(old(repo.Tables()), j, op) && repo.Tables() == After(old(repo.Tables()), j, op)
              && (old(repo.Valid()) && (o.Applied? ==> Current(old(repo.jobs)[j], op)) ==> repo.Valid())
    {
      var backoff := Backoff(cfg, attemptNo);
      o := repo.MarkFailedAttempt(j, job.maxRetries, job.payload, r.worker, attemptNo, r.startedAt, r.endedAt, error,
                                  timedOut, backoff);
    }

    // The handler of the claimed row and what its outcome makes of it; `job` is the worker's snapshot.
    method RunAndRecord(repo: JobRepository, j: JobId, job: Job, r: Round) returns (o: Outcome)
      modifies repo`jobs, repo`attempts, repo`deadLetters
      ensures o == Execute(old(repo.Tables()), j, CompletionOp(cfg, job, r))
      ensures repo.Tables() == After(old(repo.Tables()), j, CompletionOp(cfg, job, r))
      ensures old(repo.Valid()) && (o.Applied? ==> Current(old(repo.jobs)[j], CompletionOp(cfg, job, r))) ==> repo.Valid()
    {
      var attemptNo := job.attemptCount + 1;
      if r.timesOut {
        o := RecordFailure(repo, j, job, attemptNo, r, "attempt timed out", true);
      } else {
        match Handler.ExecuteJob(job.payload, attemptNo) {
          case Done(result) =>
            o := repo.MarkSucceeded(j, r.worker, attemptNo, r.startedAt, r.endedAt, result);
          case JobExecutionError(message) =>
            o := RecordFailure(repo, j, job, attemptNo, r, message, false);
        }
      }
    }

    method ProcessOne(repo: JobRepository, r: Round) returns (processed: Option<JobId>)
      requires repo.Valid()
      modifies this`busyWorkers, repo`jobs, repo`attempts, repo`deadLetters
      ensures repo.Valid() && busyWorkers == old(busyWorkers)
      ensures RightPick(old(repo.Tables()), r.now, processed)
      ensures repo.Tables() == RoundOf(cfg, old(repo.Tables()), r, processed)
      ensures processed.Some? ==> AttemptRecorded(cfg, old(repo.Tables()), processed.value, r, repo.Tables())
    {
      ghost var before := repo.Tables();
      processed := repo.ClaimNextJob(r.worker, r.now);
      if processed.None? {
        return;
      }
      var j := processed.value;
      ghost var claimed := repo.Tables();
      ProcessedEffect(cfg, before, j, r);
      ProcessedIsRecorded(cfg, before, j, r);
      busyWorkers := busyWorkers + 1;
      var o := RunAndRecord(repo, j, repo.jobs[j], r);
      assert repo.Tables() == After(claimed, j, CompletionOp(cfg, before.jobs[j], r));
      busyWorkers := busyWorkers - 1;
    }

    /** The loop of the thread in slot `slot`, as far as it processes jobs, until it is stopped: it
        leaves as soon as the desired concurrency, read before each round, is below its slot. */
    method WorkerLoop(repo: JobRepository, slot: nat, desired: seq<nat>, rounds: seq<Round>)
        returns (done: nat, ghost picks: seq<Option<JobId>>)
      requires repo.Valid() && |desired| == |rounds|
      modifies this`busyWorkers, repo`jobs, repo`attempts, repo`deadLetters
      ensures repo.Valid() && busyWorkers == old(busyWorkers)
      ensures |picks| <= |rounds| && forall i :: 0 <= i < |picks| ==> slot <= desired[i]
      ensures |picks| < |rounds| ==> desired[|picks|] < slot
      ensures done == CountPicks(picks)
      ensures Serves(cfg, old(repo.Tables()), rounds, picks, repo.Tables())
    {
      done, picks := 0, [];
      for i := 0 to |rounds|
        invariant repo.Valid() && busyWorkers == old(busyWorkers)
        invariant |picks| == i && done == CountPicks(picks)
        invariant forall k :: 0 <= k < i ==> slot <= desired[k]
        invariant Serves(cfg, old(repo.Tables()), rounds, picks, repo.Tables())
      {
        if desired[i] < slot {
          return;
        }
        ghost var mid := repo.Tables();
        var processed := ProcessOne(repo, rounds[i]);
        if processed.Some? {
          done := done + 1;
        }
        ServeOneMore(cfg, old(repo.Tables()), rounds, picks, mid, processed);
        picks := picks + [processed];
      }
    }
  }
}
