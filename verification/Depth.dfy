/**
 Status counts: what queue_depth reports, and how steps move jobs between them.
 */
module Depth {
  import opened Tables
  import opened Protocol
  import Sweeps
  import History

  function Count(jobs: seq<Job>, status: Status): nat {
    if jobs == [] then 0
    else Count(jobs[..|jobs| - 1], status) + (if jobs[|jobs| - 1].status == status then 1 else 0)
  }

  function CountDue(jobs: seq<Job>, now: Time): nat {
    if jobs == [] then 0
    else CountDue(jobs[..|jobs| - 1], now) + (if Due(jobs[|jobs| - 1], now) then 1 else 0)
  }

  // Queued jobs whose run_at is still to come.
  function CountScheduled(jobs: seq<Job>, now: Time): nat {
    if jobs == [] then 0
    else CountScheduled(jobs[..|jobs| - 1], now) +
         (if jobs[|jobs| - 1].status == Queued && now < jobs[|jobs| - 1].runAt then 1 else 0)
  }

  ghost function WithStatus(jobs: seq<Job>, status: Status): set<int> {
    set j | 0 <= j < |jobs| && jobs[j].status == status
  }

  ghost function QueuedUpTo(jobs: seq<Job>, now: Time): set<int> {
    set j | 0 <= j < |jobs| && jobs[j].status == Queued && jobs[j].runAt <= now
  }

  ghost function QueuedAfter(jobs: seq<Job>, now: Time): set<int> {
    set j | 0 <= j < |jobs| && jobs[j].status == Queued && now < jobs[j].runAt
  }

  // The counts are numbers of rows: GROUP BY status, and the rows with run_at <= now.
  lemma {:induction false} CountIsCardinality(jobs: seq<Job>, status: Status)
    ensures Count(jobs, status) == |WithStatus(jobs, status)|
  {
    if jobs == [] {
      assert WithStatus(jobs, status) == {};
    } else {
      var n := |jobs| - 1;
      CountIsCardinality(jobs[..n], status);
      Sweeps.OneMoreRow(WithStatus(jobs[..n], status), WithStatus(jobs, status), n);
    }
  }

  lemma {:induction false} DueIsCardinality(jobs: seq<Job>, now: Time)
    ensures CountDue(jobs, now) == |QueuedUpTo(jobs, now)|
  {
    if jobs == [] {
      assert QueuedUpTo(jobs, now) == {};
    } else {
      var n := |jobs| - 1;
      DueIsCardinality(jobs[..n], now);
      Sweeps.OneMoreRow(QueuedUpTo(jobs[..n], now), QueuedUpTo(jobs, now), n);
    }
  }

  lemma {:induction false} ScheduledIsCardinality(jobs: seq<Job>, now: Time)
    ensures CountScheduled(jobs, now) == |QueuedAfter(jobs, now)|
  {
    if jobs == [] {
      assert QueuedAfter(jobs, now) == {};
    } else {
      var n := |jobs| - 1;
      ScheduledIsCardinality(jobs[..n], now);
      Sweeps.OneMoreRow(QueuedAfter(jobs[..n], now), QueuedAfter(jobs, now), n);
    }
  }

  /** Every job is counted under exactly one status. */
  lemma {:induction false} CountsSumToTotal(jobs: seq<Job>)
    ensures Count(jobs, Queued) + Count(jobs, Running) + Count(jobs, Succeeded) + Count(jobs, Failed)
            + Count(jobs, DeadLettered) + Count(jobs, Cancelled) == |jobs|
  {
    if jobs != [] {
      CountsSumToTotal(jobs[..|jobs| - 1]);
    }
  }

  /** In one snapshot the queued jobs are the due ones and the scheduled ones. */
  lemma {:induction false} QueuedSplits(jobs: seq<Job>, now: Time)
    ensures CountDue(jobs, now) + CountScheduled(jobs, now) == Count(jobs, Queued)
  {
    if jobs != [] {
      QueuedSplits(jobs[..|jobs| - 1], now);
    }
  }

  lemma {:induction false} CountOfUpdate(jobs: seq<Job>, j: nat, job: Job, status: Status)
    requires j < |jobs|
    ensures Count(jobs[j := job], status) == Count(jobs, status)
            - (if jobs[j].status == status then 1 else 0) + (if job.status == status then 1 else 0)
  {
    var n := |jobs| - 1;
    if j < n {
      CountOfUpdate(jobs[..n], j, job, status);
      assert jobs[j := job][..n] == jobs[..n][j := job];
    } else {
      assert jobs[j := job][..n] == jobs[..n];
    }
  }

  /** Conservation: a committed row step moves one job along an edge of the lifecycle, so one
      count loses one and another gains one; a new job is counted as queued; nothing else moves. */
  lemma StepMovesOneJob(s: Sys, e: Event, status: Status)
    requires Inv(s) && Enabled(s, e)
    ensures e.Insert? ==> Count(Do(s, e).db.jobs, status) == Count(s.db.jobs, status) + (if status == Queued then 1 else 0)
    ensures e.Commit? && e.j < |s.db.jobs| ==>
              && History.Edge(s.db.jobs[e.j].status, Do(s, e).db.jobs[e.j].status)
              && Count(Do(s, e).db.jobs, status) == Count(s.db.jobs, status)
                 - (if s.db.jobs[e.j].status == status then 1 else 0)
                 + (if Do(s, e).db.jobs[e.j].status == status then 1 else 0)
    ensures !e.Insert? && !e.Commit? ==> Do(s, e).db == s.db
  {
    History.StepEvolves(s, e);
    match e
    case Insert(row) =>
      assert (s.db.jobs + [row])[..|s.db.jobs|] == s.db.jobs;
    case Commit(t, j) =>
      if j < |s.db.jobs| {
        CountOfUpdate(s.db.jobs, j, Do(s, e).db.jobs[j], status);
        assert Do(s, e).db.jobs == s.db.jobs[j := Do(s, e).db.jobs[j]];
      }
    case _ =>
  }

  lemma {:induction false} MatchingCancelIsQueued(jobs: seq<Job>, n: nat, now: Time)
    requires n <= |jobs|
    ensures Sweeps.Matching(jobs, n, CancelOp(now)) == Count(jobs[..n], Queued)
  {
    if n > 0 {
      MatchingCancelIsQueued(jobs, n - 1, now);
      assert jobs[..n][..n - 1] == jobs[..n - 1];
    }
  }

  lemma {:induction false} CountsAfterSweep(db: Db, n: nat, now: Time, status: Status)
    requires TablesOk(db) && n <= |db.jobs|
    ensures var after := Sweeps.Sweep(db, n, CancelOp(now));
            Count(after.jobs, status) == Count(db.jobs, status)
              + (if status == Cancelled then Sweeps.Matching(db.jobs, n, CancelOp(now)) else 0)
              - (if status == Queued then Sweeps.Matching(db.jobs, n, CancelOp(now)) else 0)
  {
    if n > 0 {
      var mid := Sweeps.Sweep(db, n - 1, CancelOp(now));
      CountsAfterSweep(db, n - 1, now, status);
      Sweeps.SweepVisits(db, n - 1, CancelOp(now));
      if Guard(db.jobs[n - 1], CancelOp(now)) {
        CountOfUpdate(mid.jobs, n - 1, CancelWrite(mid.jobs[n - 1], now).job, status);
      }
    }
  }

  /** drain_queue returns exactly the number of jobs that it moved from queued to cancelled, and
      no other count changes. */
  lemma DrainMovesAllQueued(db: Db, now: Time)
    requires TablesOk(db)
    ensures var after := Sweeps.Sweep(db, |db.jobs|, CancelOp(now));
            var moved := Sweeps.Matching(db.jobs, |db.jobs|, CancelOp(now));
            && moved == Count(db.jobs, Queued)
            && Count(after.jobs, Queued) == 0
            && Count(after.jobs, Cancelled) == Count(db.jobs, Cancelled) + moved
            && forall status :: status != Queued && status != Cancelled ==> Count(after.jobs, status) == Count(db.jobs, status)
  {
    MatchingCancelIsQueued(db.jobs, |db.jobs|, now);
    assert db.jobs[..|db.jobs|] == db.jobs;
    CountsAfterSweep(db, |db.jobs|, now, Queued);
    forall status
      ensures status != Queued && status != Cancelled ==>
                Count(Sweeps.Sweep(db, |db.jobs|, CancelOp(now)).jobs, status) == Count(db.jobs, status)
    {
      CountsAfterSweep(db, |db.jobs|, now, status);
    }
    CountsAfterSweep(db, |db.jobs|, now, Cancelled);
  }
}
