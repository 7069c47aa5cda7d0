/**
 Transactions of the serial repository that visit every row: the lease reaper and drain_queue.
 */
module Sweeps {
  import opened Tables
  import opened Protocol
  import opened RowLocks
  import History

  predicate IsSweep(op: Op) {
    op.ReapOp? || op.CancelOp?
  }

  // The tables after the rows below `n` have been visited, in table order.
  function Sweep(db: Db, n: nat, op: Op): Db {
    if n == 0 then db else After(Sweep(db, n - 1, op), n - 1, op)
  }

  function Matching(jobs: seq<Job>, n: nat, op: Op): nat
    requires n <= |jobs|
  {
    if n == 0 then 0 else Matching(jobs, n - 1, op) + (if Guard(jobs[n - 1], op) then 1 else 0)
  }

  lemma {:induction false} SweepKeepsUnvisited(db: Db, n: nat, op: Op)
    requires TablesOk(db) && IsSweep(op) && n <= |db.jobs|
    ensures TablesOk(Sweep(db, n, op)) && |Sweep(db, n, op).jobs| == |db.jobs|
    ensures forall j: JobId :: n <= j ==> SameFor(db, Sweep(db, n, op), j)
  {
    if n > 0 {
      var mid := Sweep(db, n - 1, op);
      SweepKeepsUnvisited(db, n - 1, op);
      if Execute(mid, n - 1, op).Applied? {
        InstallKeepsTables(mid, n - 1, op);
        forall j: JobId | n <= j
          ensures SameFor(db, Sweep(db, n, op), j)
        {
          assert SameFor(db, mid, j);
          InstallKeepsOthers(mid, n - 1, WriteOf(mid.jobs[n - 1], op), j);
        }
      }
    }
  }

  // No visited row can abort the transaction: the reaper's attempt number is never taken.
  lemma SweepNeverAborts(db: Db, j: JobId, op: Op)
    requires TablesOk(db) && IsSweep(op) && j < |db.jobs|
    ensures Execute(db, j, op) == (if Guard(db.jobs[j], op) then Applied(WriteOf(db.jobs[j], op)) else NoRow)
    ensures !Guard(After(db, j, op).jobs[j], op)
  {
    assert JobOk(db, j);
  }

  // Row `j` is as it was when the transaction began until the sweep visits it.
  lemma SweepVisits(db: Db, j: JobId, op: Op)
    requires TablesOk(db) && IsSweep(op) && j < |db.jobs|
    ensures var mid := Sweep(db, j, op);
            && |mid.jobs| == |db.jobs| && mid.jobs[j] == db.jobs[j]
            && (db.jobs[j].status == Running ==> db.jobs[j].lockedBy.Some? && db.jobs[j].lockedAt.Some?)
            && (j, db.jobs[j].attemptCount + 1) !in mid.attempts
            && Sweep(db, j + 1, op) == if Guard(db.jobs[j], op) then Install(mid, j, WriteOf(db.jobs[j], op)) else mid
  {
    SweepKeepsUnvisited(db, j, op);
    assert SameFor(db, Sweep(db, j, op), j) && JobOk(db, j);
    SweepNeverAborts(Sweep(db, j, op), j, op);
  }

  /** A sweep is exact: a row is rewritten, with its attempt record and dead letter, if and only
      if it matched when the transaction began; everything recorded for other jobs stays. */
  lemma {:induction false} SweepIsExact(db: Db, n: nat, op: Op, j: JobId)
    requires TablesOk(db) && IsSweep(op) && j < n <= |db.jobs|
    ensures SameFor(if Guard(db.jobs[j], op) then Install(db, j, WriteOf(db.jobs[j], op)) else db, Sweep(db, n, op), j)
    ensures |Sweep(db, n, op).jobs| == |db.jobs| && !Guard(Sweep(db, n, op).jobs[j], op)
  {
    var mid := Sweep(db, n - 1, op);
    SweepKeepsUnvisited(db, n - 1, op);
    SweepNeverAborts(mid, n - 1, op);
    if j < n - 1 {
      SweepIsExact(db, n - 1, op, j);
      if Guard(mid.jobs[n - 1], op) {
        InstallKeepsOthers(mid, n - 1, WriteOf(mid.jobs[n - 1], op), j);
      }
    } else {
      assert SameFor(db, mid, j);
    }
  }

  // A running job whose lease, timeout and grace have passed at `now`.
  predicate Expired(job: Job, now: Time, grace: nat) {
    job.status == Running && job.lockedAt.Some? && job.lockedAt.value + job.timeout + grace < now
  }

  /** Job `j` was abandoned at `now`: the attempt runs from the claim to `now` under the worker id of
      the lease, the job is due again at once or dead-lettered at `now`. */
  ghost predicate AbandonedAt(db: Db, after: Db, j: JobId, now: Time) {
    && j < |db.jobs| && j < |after.jobs| && History.SameIdentity(db.jobs[j], after.jobs[j])
    && var (was, job, no) := (db.jobs[j], after.jobs[j], db.jobs[j].attemptCount + 1);
       var error := Some("worker lease expired before the attempt was committed");
       && was.lockedBy.Some? && was.lockedAt.Some?
       && (j, no) !in db.attempts && (j, no) in after.attempts
       && after.attempts[(j, no)] ==
          Attempt(was.lockedBy.value, AttemptAbandoned, was.lockedAt.value, now, error)
       && job.attemptCount == no && job.lastError == error && job.result == None
       && job.runAt == now && job.updatedAt == now && job.lockedBy == None && job.lockedAt == None
       && (was.attemptCount < was.maxRetries ==> job.status == Queued && job.finishedAt == None && j !in after.deadLetters)
       && (was.attemptCount >= was.maxRetries ==>
             && job.status == DeadLettered && job.finishedAt == Some(now) && j in after.deadLetters
             && after.deadLetters[j] == DeadLetter(was.payload, error, no, now))
  }

  lemma ReaperOnRow(db: Db, now: Time, grace: nat, j: JobId)
    requires TablesOk(db) && j < |db.jobs|
    ensures var after := Sweep(db, |db.jobs|, ReapOp(now, grace));
            && |after.jobs| == |db.jobs| && !Expired(after.jobs[j], now, grace)
            && (Expired(db.jobs[j], now, grace) ==> AbandonedAt(db, after, j, now))
            && (!Expired(db.jobs[j], now, grace) ==> SameFor(db, after, j))
  {
    var op := ReapOp(now, grace);
    SweepKeepsUnvisited(db, |db.jobs|, op);
    SweepIsExact(db, |db.jobs|, op, j);
    assert JobOk(db, j) && JobOk(Sweep(db, |db.jobs|, op), j);
  }

  // The reaper's return value is the number of expired leases.
  lemma ExpiredCount(db: Db, now: Time, grace: nat)
    requires TablesOk(db)
    ensures Matching(db.jobs, |db.jobs|, ReapOp(now, grace)) == |set j | 0 <= j < |db.jobs| && Expired(db.jobs[j], now, grace)|
  {
    MatchingIsCount(db.jobs, |db.jobs|, ReapOp(now, grace));
    forall j | 0 <= j < |db.jobs|
      ensures Guard(db.jobs[j], ReapOp(now, grace)) <==> Expired(db.jobs[j], now, grace)
    {
      assert JobOk(db, j);
    }
    assert Matched(db.jobs, |db.jobs|, ReapOp(now, grace)) == set j | 0 <= j < |db.jobs| && Expired(db.jobs[j], now, grace);
  }

  /** After recover_stale_jobs no running job is older than its timeout plus the grace at the
      reaper's clock reading; exactly the jobs that were have been abandoned at that reading. */
  lemma ReaperIsExact(db: Db, now: Time, grace: nat)
    requires TablesOk(db)
    ensures var after := Sweep(db, |db.jobs|, ReapOp(now, grace));
            && TablesOk(after) && |after.jobs| == |db.jobs|
            && (forall j :: 0 <= j < |after.jobs| ==> !Expired(after.jobs[j], now, grace))
            && (forall j: JobId :: j < |db.jobs| && !Expired(db.jobs[j], now, grace) ==> SameFor(db, after, j))
            && (forall j: JobId :: j < |db.jobs| && Expired(db.jobs[j], now, grace) ==> AbandonedAt(db, after, j, now))
  {
    SweepKeepsUnvisited(db, |db.jobs|, ReapOp(now, grace));
    forall j: JobId | j < |db.jobs|
      ensures var after := Sweep(db, |db.jobs|, ReapOp(now, grace));
              && !Expired(after.jobs[j], now, grace)
              && (Expired(db.jobs[j], now, grace) ==> AbandonedAt(db, after, j, now))
              && (!Expired(db.jobs[j], now, grace) ==> SameFor(db, after, j))
    {
      ReaperOnRow(db, now, grace, j);
    }
  }

  /** drain_queue ends every queued job at its clock reading; everything else stays. */
  lemma DrainIsExact(db: Db, now: Time)
    requires TablesOk(db)
    ensures var after := Sweep(db, |db.jobs|, CancelOp(now));
            && TablesOk(after) && |after.jobs| == |db.jobs|
            && after.attempts == db.attempts && after.deadLetters == db.deadLetters
            && (forall j :: 0 <= j < |db.jobs| && db.jobs[j].status != Queued ==> after.jobs[j] == db.jobs[j])
            && (forall j :: 0 <= j < |db.jobs| && db.jobs[j].status == Queued ==>
                  && History.SameIdentity(db.jobs[j], after.jobs[j])
                  && after.jobs[j].status == Cancelled
                  && after.jobs[j].updatedAt == now && after.jobs[j].finishedAt == Some(now)
                  && after.jobs[j].runAt == db.jobs[j].runAt && after.jobs[j].attemptCount == db.jobs[j].attemptCount)
  {
    var op := CancelOp(now);
    SweepKeepsUnvisited(db, |db.jobs|, op);
    DrainKeepsLogs(db, |db.jobs|, now);
    forall j: JobId | j < |db.jobs|
      ensures var after := Sweep(db, |db.jobs|, op);
              after.jobs[j] == if Guard(db.jobs[j], op) then WriteOf(db.jobs[j], op).job else db.jobs[j]
    {
      SweepIsExact(db, |db.jobs|, op, j);
    }
  }

  lemma {:induction false} DrainKeepsLogs(db: Db, n: nat, now: Time)
    ensures Sweep(db, n, CancelOp(now)).attempts == db.attempts
    ensures Sweep(db, n, CancelOp(now)).deadLetters == db.deadLetters
  {
    if n > 0 {
      DrainKeepsLogs(db, n - 1, now);
    }
  }

  // A set of rows grows with the last row exactly if that one belongs to it.
  lemma OneMoreRow(before: set<int>, after: set<int>, n: int)
    requires n !in before && before <= after && after <= before + {n}
    ensures |after| == |before| + (if n in after then 1 else 0)
  {
    if n in after {
      assert after == before + {n};
    } else {
      assert after == before;
    }
  }

  ghost function Matched(jobs: seq<Job>, n: nat, op: Op): set<int>
    requires n <= |jobs|
  {
    set j | 0 <= j < n && Guard(jobs[j], op)
  }

  // The count of a sweep is the number of rows that matched.
  lemma {:induction false} MatchingIsCount(jobs: seq<Job>, n: nat, op: Op)
    requires n <= |jobs|
    ensures Matching(jobs, n, op) == |Matched(jobs, n, op)|
  {
    if n == 0 {
      assert Matched(jobs, n, op) == {};
    } else {
      MatchingIsCount(jobs, n - 1, op);
      OneMoreRow(Matched(jobs, n - 1, op), Matched(jobs, n, op), n - 1);
    }
  }

  function SweepEvents(db: Db, n: nat, op: Op, t: Thread): seq<Event> {
    if n == 0 then []
    else SweepEvents(db, n - 1, op, t) +
         (if Execute(Sweep(db, n - 1, op), n - 1, op).Applied? then [Commit(t, n - 1)] else [])
  }

  /** The serial reaper and drain are runs of row steps of the protocol. */
  lemma {:induction false} SweepIsRun(s: Sys, t: Thread, n: nat)
    requires t in s.calls && (s.calls[t].Reaping? || s.calls[t].Draining?) && n <= |s.db.jobs|
    ensures Run(s, SweepEvents(s.db, n, OpOf(s.calls[t]).value, t), s.(db := Sweep(s.db, n, OpOf(s.calls[t]).value)))
  {
    var op := OpOf(s.calls[t]).value;
    if n > 0 {
      SweepIsRun(s, t, n - 1);
      var m := s.(db := Sweep(s.db, n - 1, op));
      if Execute(m.db, n - 1, op).Applied? {
        var s' := Do(m, Commit(t, n - 1));
        assert s' == s.(db := Sweep(s.db, n, op));
        assert [Commit(t, n - 1)][1..] == [];
        assert Run(s', [], s');
        RunConcat(s, SweepEvents(s.db, n - 1, op, t), m, [Commit(t, n - 1)], s');
      } else {
        assert SweepEvents(s.db, n, op, t) == SweepEvents(s.db, n - 1, op, t);
      }
    }
  }

  /** The serial claim is one row step of the protocol. */
  lemma SerialClaimIsStep(s: Sys, t: Thread, j: JobId)
    requires t in s.calls && s.calls[t].Claiming? && IsNextClaim(s.db.jobs, s.calls[t].now, j)
    ensures Enabled(s, Commit(t, j))
    ensures Do(s, Commit(t, j)).db == After(s.db, j, ClaimOp(s.calls[t].worker, s.calls[t].now))
    ensures Do(s, Commit(t, j)).calls[t] == Claimed(TokenFor(s.db.jobs[j], j, s.calls[t].worker))
  {
  }
}
