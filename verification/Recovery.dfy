/**
 Recovery under every schedule: as long as reapers and workers keep coming round, each job ends,
 whatever else happens in between and however the attempts end.
 */
module Recovery {
  import opened Tables
  import opened Protocol
  import opened Progress
  import opened RowLocks
  import Sweeps
  import ClaimOrder
  import History

  // At the reading `now` the job waits for somebody: for a worker, or for a reaper.
  predicate Overdue(job: Job, now: Time, grace: nat) {
    Due(job, now) || Stale(job, now, grace)
  }

  // ---------------------------------------------------------------- what serves a job

  lemma PassServesRow(db: Db, now: Time, grace: nat, picks: seq<(JobId, string)>, db': Db, j: JobId)
    requires TablesOk(db) && j < |db.jobs|
    requires ClaimOrder.Drains(Sweeps.Sweep(db, |db.jobs|, ReapOp(now, grace)), now, picks, db')
    ensures j < |db'.jobs| && !Overdue(db'.jobs[j], now, grace)
  {
    var mid := Sweeps.Sweep(db, |db.jobs|, ReapOp(now, grace));
    Sweeps.ReaperOnRow(db, now, grace, j);
    ClaimOrder.OnlyPicksChange(mid, now, picks, db');
    if Due(mid.jobs[j], now) {
      var i := ClaimOrder.EveryDueIsPicked(mid, now, picks, db', j);
      assert db'.jobs[j] == ClaimWrite(mid.jobs[j], picks[i].1, now).job;
    }
  }

  /** A whole recover_stale_jobs followed by claims until none is left serves every job: nothing
      is overdue at that reading any more. */
  lemma PassServesAll(db: Db, now: Time, grace: nat, picks: seq<(JobId, string)>, db': Db)
    requires TablesOk(db) && ClaimOrder.Drains(Sweeps.Sweep(db, |db.jobs|, ReapOp(now, grace)), now, picks, db')
    ensures |db'.jobs| == |db.jobs| && forall j :: 0 <= j < |db.jobs| ==> !Overdue(db'.jobs[j], now, grace)
  {
    Sweeps.SweepKeepsUnvisited(db, |db.jobs|, ReapOp(now, grace));
    ClaimOrder.OnlyPicksChange(Sweeps.Sweep(db, |db.jobs|, ReapOp(now, grace)), now, picks, db');
    forall j | 0 <= j < |db.jobs|
      ensures !Overdue(db'.jobs[j], now, grace)
    {
      PassServesRow(db, now, grace, picks, db', j);
    }
  }

  // Every unfinished job is overdue at a late enough reading.
  lemma {:induction false} LateEnough(db: Db, grace: nat, n: nat) returns (late: Time)
    requires TablesOk(db) && n <= |db.jobs|
    ensures forall j, now :: 0 <= j < n && late <= now && !Terminal(db.jobs[j].status) ==> Overdue(db.jobs[j], now, grace)
  {
    late := 0;
    if n > 0 {
      var before := LateEnough(db, grace, n - 1);
      var job := db.jobs[n - 1];
      assert JobOk(db, n - 1);
      var own := if job.status == Running then job.lockedAt.value + job.timeout + grace + 1 else job.runAt;
      late := if before <= own then own else before;
    }
  }

  // ---------------------------------------------------------------- what it costs

  lemma StepUsesStep(s: Sys, e: Event, j: JobId)
    requires Inv(s) && Enabled(s, e) && j < |s.db.jobs|
    ensures j < |Do(s, e).db.jobs|
    ensures Do(s, e).db.jobs[j] == s.db.jobs[j] || Potential(Do(s, e).db.jobs[j]) < Potential(s.db.jobs[j])
  {
    if e.Commit? && e.j == j && Execute(s.db, j, OpOf(s.calls[e.t]).value).Applied? {
      CommitIsCurrent(s, e.t, j);
      assert JobOk(s.db, j);
      WriteUsesStep(s.db.jobs[j], OpOf(s.calls[e.t]).value);
    }
  }

  // Over any run a row is as it was, or its job has fewer steps left.
  lemma {:induction false} RunUsesSteps(s: Sys, es: seq<Event>, s': Sys, j: JobId)
    requires Inv(s) && Run(s, es, s') && j < |s.db.jobs|
    ensures Inv(s') && j < |s'.db.jobs|
    ensures s'.db.jobs[j] == s.db.jobs[j] || Potential(s'.db.jobs[j]) < Potential(s.db.jobs[j])
    decreases |es|
  {
    if es != [] {
      StepUsesStep(s, es[0], j);
      StepKeepsInv(s, es[0]);
      RunUsesSteps(Do(s, es[0]), es[1..], s', j);
    }
  }

  lemma StepsLeft(s: Sys, j: JobId)
    requires Inv(s) && j < |s.db.jobs|
    ensures 0 <= Potential(s.db.jobs[j]) <= 2 * (s.db.jobs[j].maxRetries + 1)
    ensures Potential(s.db.jobs[j]) == 0 <==> Terminal(s.db.jobs[j].status)
  {
    assert JobOk(s.db, j);
  }

  // ---------------------------------------------------------------- rounds

  /** A round: some run of the protocol to `end`, with whatever steps of whatever threads. */
  datatype Round = Round(now: Time, es: seq<Event>, end: Sys)

  /** Each round serves job `j`: unless it is finished, it is overdue at the round's reading when
      the round begins, and not any more when it ends. */
  ghost predicate Served(s: Sys, rounds: seq<Round>, s': Sys, j: JobId, grace: nat)
    decreases |rounds|
  {
    if rounds == [] then s' == s
    else
      var r := rounds[0];
      && Run(s, r.es, r.end) && j < |s.db.jobs| && j < |r.end.db.jobs|
      && (Terminal(s.db.jobs[j].status) || Overdue(s.db.jobs[j], r.now, grace))
      && !Overdue(r.end.db.jobs[j], r.now, grace)
      && Served(r.end, rounds[1..], s', j, grace)
  }

  /** Every job that is served ends: after at most 2 * (max_retries + 1) rounds it is terminal,
      whatever clients, workers and other reapers do in the rounds, in whichever order, with
      whichever results and crashes, and on tables to which jobs are added all the time. */
  lemma {:induction false} ServedJobsEnd(s: Sys, rounds: seq<Round>, s': Sys, j: JobId, grace: nat)
    requires Inv(s) && j < |s.db.jobs| && Served(s, rounds, s', j, grace)
    ensures Inv(s') && j < |s'.db.jobs| && s'.db.jobs[j].maxRetries == s.db.jobs[j].maxRetries
    ensures Potential(s.db.jobs[j]) <= |rounds| ==> Terminal(s'.db.jobs[j].status)
    ensures 2 * (s.db.jobs[j].maxRetries + 1) <= |rounds| ==> Terminal(s'.db.jobs[j].status)
    decreases |rounds|
  {
    StepsLeft(s, j);
    if rounds != [] {
      var r := rounds[0];
      RunUsesSteps(s, r.es, r.end, j);
      History.RunEvolves(s, r.es, r.end);
      StepsLeft(r.end, j);
      ServedJobsEnd(r.end, rounds[1..], s', j, grace);
    }
  }

  // ---------------------------------------------------------------- such rounds exist

  // Three steps of thread `t`: it reads the clock, claims row `j` and is gone.
  lemma ClaimAndDie(s: Sys, t: Thread, worker: string, j: JobId) returns (es: seq<Event>, s': Sys)
    requires t !in s.calls && IsNextClaim(s.db.jobs, s.clock, j)
    ensures Run(s, es, s') && t !in s'.calls && s'.clock == s.clock
    ensures s'.db == After(s.db, j, ClaimOp(worker, s.clock))
  {
    var s1 := Do(s, Begin(t, Claiming(worker, s.clock)));
    var s2 := Do(s1, Commit(t, j));
    s' := Do(s2, Return(t));
    OneStep(s, Begin(t, Claiming(worker, s.clock)));
    OneStep(s1, Commit(t, j));
    OneStep(s2, Return(t));
    RunConcat(s, [Begin(t, Claiming(worker, s.clock))], s1, [Commit(t, j)], s2);
    es := [Begin(t, Claiming(worker, s.clock))] + [Commit(t, j)];
    RunConcat(s, es, s2, [Return(t)], s');
    es := es + [Return(t)];
  }

  lemma {:induction false} DrainIsRun(s: Sys, t: Thread, picks: seq<(JobId, string)>, db': Db)
      returns (es: seq<Event>, s': Sys)
    requires t !in s.calls && ClaimOrder.Drains(s.db, s.clock, picks, db')
    ensures Run(s, es, s') && s'.db == db'
    decreases |picks|
  {
    if picks == [] {
      es, s' := [], s;
    } else {
      var first, m := ClaimAndDie(s, t, picks[0].1, picks[0].0);
      var rest;
      rest, s' := DrainIsRun(m, t, picks[1..], db');
      RunConcat(s, first, m, rest, s');
      es := first + rest;
    }
  }

  // A reaper's transaction between two clock readings.
  lemma ReapIsRun(s: Sys, t: Thread, grace: nat) returns (es: seq<Event>, s': Sys)
    requires t !in s.calls
    ensures Run(s, es, s') && t !in s'.calls && s'.clock == s.clock
    ensures s'.db == Sweeps.Sweep(s.db, |s.db.jobs|, ReapOp(s.clock, grace))
  {
    var begin, op := Begin(t, Reaping(s.clock, grace)), ReapOp(s.clock, grace);
    var s1 := Do(s, begin);
    OneStep(s, begin);
    Sweeps.SweepIsRun(s1, t, |s.db.jobs|);
    var s2 := s1.(db := Sweeps.Sweep(s.db, |s.db.jobs|, op));
    s' := Do(s2, Return(t));
    OneStep(s2, Return(t));
    es := Sweeps.SweepEvents(s.db, |s.db.jobs|, op, t);
    RunConcat(s, [begin], s1, es, s2);
    RunConcat(s, [begin] + es, s2, [Return(t)], s');
    es := [begin] + es + [Return(t)];
  }

  /** From every state there is a round that serves every job at once: time passes, one reaper
      runs, and workers claim until nothing is due. */
  lemma RoundExists(s: Sys, grace: nat) returns (r: Round)
    requires Inv(s)
    ensures Run(s, r.es, r.end) && |r.end.db.jobs| == |s.db.jobs|
    ensures forall j :: 0 <= j < |s.db.jobs| ==>
              && (Terminal(s.db.jobs[j].status) || Overdue(s.db.jobs[j], r.now, grace))
              && !Overdue(r.end.db.jobs[j], r.now, grace)
  {
    var late := LateEnough(s.db, grace, |s.db.jobs|);
    var now := if s.clock <= late then late else s.clock;
    var t := FreshThread(s.calls, s.calls.Keys);
    var s1 := Do(s, Tick(now));
    OneStep(s, Tick(now));
    var reap, s2 := ReapIsRun(s1, t, grace);
    var picks, db' := ClaimOrder.DrainExists(s2.db, now, "worker", set j | 0 <= j < |s2.db.jobs| && Due(s2.db.jobs[j], now));
    var claims, s3 := DrainIsRun(s2, t, picks, db');
    RunConcat(s, [Tick(now)], s1, reap, s2);
    RunConcat(s, [Tick(now)] + reap, s2, claims, s3);
    PassServesAll(s.db, now, grace, picks, db');
    r := Round(now, [Tick(now)] + reap + claims, s3);
  }
}
