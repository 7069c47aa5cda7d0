/**
 Termination of the work on a job, and reachability of a finished queue.
 */
module Progress {
  import opened Tables
  import opened Protocol
  import ClaimOrder

  // The number of steps that a job can still take part in.
  function Potential(job: Job): int {
    match job.status
    case Queued => 2 * (job.maxRetries - job.attemptCount) + 2
    case Running => 2 * (job.maxRetries - job.attemptCount) + 1
    case _ => 0
  }

  function Total(jobs: seq<Job>): int {
    if jobs == [] then 0 else Total(jobs[..|jobs| - 1]) + Potential(jobs[|jobs| - 1])
  }

  // What the jobs could do when they were created: two steps for each attempt of the budget.
  function Budget(jobs: seq<Job>): int {
    if jobs == [] then 0 else Budget(jobs[..|jobs| - 1]) + 2 * (jobs[|jobs| - 1].maxRetries + 1)
  }

  lemma {:induction false} TotalOfUpdate(jobs: seq<Job>, j: nat, job: Job)
    requires j < |jobs|
    ensures Total(jobs[j := job]) == Total(jobs) - Potential(jobs[j]) + Potential(job)
  {
    var n := |jobs| - 1;
    if j < n {
      TotalOfUpdate(jobs[..n], j, job);
      assert jobs[j := job][..n] == jobs[..n][j := job];
    } else {
      assert jobs[j := job][..n] == jobs[..n];
    }
  }

  lemma {:induction false} BudgetOfUpdate(jobs: seq<Job>, j: nat, job: Job)
    requires j < |jobs| && job.maxRetries == jobs[j].maxRetries
    ensures Budget(jobs[j := job]) == Budget(jobs)
  {
    var n := |jobs| - 1;
    if j < n {
      BudgetOfUpdate(jobs[..n], j, job);
      assert jobs[j := job][..n] == jobs[..n][j := job];
    } else {
      assert jobs[j := job][..n] == jobs[..n];
    }
  }

  lemma {:induction false} TotalIsNat(db: Db, n: nat)
    requires TablesOk(db) && n <= |db.jobs|
    ensures 0 <= Total(db.jobs[..n])
  {
    if n > 0 {
      TotalIsNat(db, n - 1);
      assert JobOk(db, n - 1);
      assert db.jobs[..n][..n - 1] == db.jobs[..n - 1];
    }
  }

  // A row write uses up at least one of the steps that its job has left.
  lemma WriteUsesStep(job: Job, op: Op)
    requires Guard(job, op) && Current(job, op) && (op.ReapOp? ==> job.lockedAt.Some?)
    requires job.attemptCount <= job.maxRetries
    ensures WriteOf(job, op).job.maxRetries == job.maxRetries
    ensures 0 <= Potential(WriteOf(job, op).job) < Potential(job)
  {
  }

  // The step changes a table other than by adding a job.
  predicate Effective(s: Sys, e: Event)
    requires Enabled(s, e)
  {
    !e.Insert? && Do(s, e).db != s.db
  }

  /** Every claim, success, failure, timeout, abandonment, cancellation or drain that changes a
      table lowers the measure; nothing else but a new job changes it. */
  lemma StepMeasure(s: Sys, e: Event)
    requires Inv(s) && Enabled(s, e)
    ensures Effective(s, e) ==> Total(Do(s, e).db.jobs) < Total(s.db.jobs)
    ensures !Effective(s, e) && !e.Insert? ==> Total(Do(s, e).db.jobs) == Total(s.db.jobs)
    ensures e.Insert? ==> Total(Do(s, e).db.jobs) == Total(s.db.jobs) + 2 * (e.row.maxRetries + 1)
    ensures Budget(Do(s, e).db.jobs) == Budget(s.db.jobs) + (if e.Insert? then 2 * (e.row.maxRetries + 1) else 0)
  {
    if e.Insert? {
      assert (s.db.jobs + [e.row])[..|s.db.jobs|] == s.db.jobs;
    } else if e.Commit? {
      var op := OpOf(s.calls[e.t]).value;
      if Execute(s.db, e.j, op).Applied? {
        CommitIsCurrent(s, e.t, e.j);
        assert JobOk(s.db, e.j);
        WriteUsesStep(s.db.jobs[e.j], op);
        TotalOfUpdate(s.db.jobs, e.j, WriteOf(s.db.jobs[e.j], op).job);
        BudgetOfUpdate(s.db.jobs, e.j, WriteOf(s.db.jobs[e.j], op).job);
      }
    }
  }

  ghost function EffectiveSteps(s: Sys, es: seq<Event>, s': Sys): nat
    requires Run(s, es, s')
    decreases |es|
  {
    if es == [] then 0
    else (if Effective(s, es[0]) then 1 else 0) + EffectiveSteps(Do(s, es[0]), es[1..], s')
  }

  lemma {:induction false} RunMeasure(s: Sys, es: seq<Event>, s': Sys)
    requires Inv(s) && Run(s, es, s')
    ensures EffectiveSteps(s, es, s') + Total(s'.db.jobs) - Budget(s'.db.jobs) <=
            Total(s.db.jobs) - Budget(s.db.jobs)
    decreases |es|
  {
    if es != [] {
      StepMeasure(s, es[0]);
      StepKeepsInv(s, es[0]);
      RunMeasure(Do(s, es[0]), es[1..], s');
    }
  }

  /** Over a whole run, however it interleaves, the jobs submitted so far have caused at most
      2 * (max_retries + 1) effective steps each. */
  lemma WorkIsBounded(s0: Sys, es: seq<Event>, s: Sys)
    requires Initial(s0) && Run(s0, es, s)
    ensures EffectiveSteps(s0, es, s) <= Budget(s.db.jobs)
  {
    RunMeasure(s0, es, s);
    RunKeepsInv(s0, es, s);
    TotalIsNat(s.db, |s.db.jobs|);
    assert s.db.jobs[..|s.db.jobs|] == s.db.jobs;
  }

  // ---------------------------------------------------------------- nothing is stuck

  ghost predicate AllTerminal(db: Db) {
    forall j :: 0 <= j < |db.jobs| ==> Terminal(db.jobs[j].status)
  }

  /** Only the clock, reapers with the configured grace and the claims of workers act, each claim
      takes the row that the serial SELECT returns, and no handler ever reports back. */
  predicate Crashing(s: Sys, e: Event, grace: nat) {
    && Enabled(s, e)
    && match e
       case Tick(_) => true
       case Return(_) => true
       case Begin(_, call) => call.Claiming? || (call.Reaping? && call.grace == grace)
       case Commit(t, j) =>
         s.calls[t].Reaping? || (s.calls[t].Claiming? && IsNextClaim(s.db.jobs, s.calls[t].now, j))
       case _ => false
  }

  function CrashingWorkersOnly(grace: nat): (Sys, Event) -> bool {
    (s, e) => Crashing(s, e, grace)
  }

  lemma FreshThread(calls: map<Thread, Call>, keys: set<Thread>) returns (t: Thread)
    requires keys <= calls.Keys
    ensures forall u :: u in keys ==> u < t
    decreases keys
  {
    if keys == {} {
      t := 0;
    } else {
      var k :| k in keys;
      t := FreshThread(calls, keys - {k});
      if t <= k {
        t := k + 1;
      }
      assert forall u :: u in keys ==> u == k || u in keys - {k};
    }
  }

  lemma Prepend(s: Sys, e: Event, es: seq<Event>, s': Sys, grace: nat)
    requires Enabled(s, e) && Crashing(s, e, grace)
    requires Run(Do(s, e), es, s') && Throughout(Do(s, e), es, s', CrashingWorkersOnly(grace))
    ensures Run(s, [e] + es, s') && Throughout(s, [e] + es, s', CrashingWorkersOnly(grace))
  {
  }

  // A thread reads the clock, runs one row transaction and is gone.
  lemma OneTransaction(s: Sys, to: Time, t: Thread, call: Call, j: JobId, grace: nat) returns (es: seq<Event>, s': Sys)
    requires Inv(s) && s.clock <= to && t !in s.calls && FirstCall(call, to)
    requires (call.Claiming? && IsNextClaim(s.db.jobs, to, j)) || (call.Reaping? && call.grace == grace)
    requires Execute(s.db, j, OpOf(call).value).Applied?
    ensures Run(s, es, s') && Throughout(s, es, s', CrashingWorkersOnly(grace))
    ensures Inv(s') && |s'.db.jobs| == |s.db.jobs| && Total(s'.db.jobs) < Total(s.db.jobs)
  {
    var s1 := Do(s, Tick(to));
    StepKeepsInv(s, Tick(to));
    var s2 := Do(s1, Begin(t, call));
    StepKeepsInv(s1, Begin(t, call));
    var s3 := Do(s2, Commit(t, j));
    StepKeepsInv(s2, Commit(t, j));
    s' := Do(s3, Return(t));
    StepKeepsInv(s3, Return(t));
    Prepend(s3, Return(t), [], s', grace);
    Prepend(s2, Commit(t, j), [Return(t)] + [], s', grace);
    Prepend(s1, Begin(t, call), [Commit(t, j)] + ([Return(t)] + []), s', grace);
    es := [Tick(to)] + ([Begin(t, call)] + ([Commit(t, j)] + ([Return(t)] + [])));
    Prepend(s, Tick(to), [Begin(t, call)] + ([Commit(t, j)] + ([Return(t)] + [])), s', grace);
    MeasureDrops(s2, t, j);
  }

  lemma MeasureDrops(s: Sys, t: Thread, j: JobId)
    requires Inv(s) && Enabled(s, Commit(t, j)) && Execute(s.db, j, OpOf(s.calls[t]).value).Applied?
    ensures Total(Do(s, Commit(t, j)).db.jobs) < Total(s.db.jobs)
  {
    CommitIsCurrent(s, t, j);
    assert JobOk(s.db, j);
    StepMeasure(s, Commit(t, j));
    assert Do(s, Commit(t, j)).db.jobs[j].status != s.db.jobs[j].status;
  }

  /** No accepted job is ever stuck: from every state of the protocol there is a run to a state
      in which the same jobs are all terminal, even if from now on every worker dies right
      after its claim. */
  lemma {:induction false} CanFinish(s: Sys, grace: nat) returns (es: seq<Event>, s': Sys)
    requires Inv(s)
    ensures Run(s, es, s') && Throughout(s, es, s', CrashingWorkersOnly(grace))
    ensures AllTerminal(s'.db) && |s'.db.jobs| == |s.db.jobs|
    decreases Total(s.db.jobs)
  {
    if AllTerminal(s.db) {
      es, s' := [], s;
    } else {
      var j :| 0 <= j < |s.db.jobs| && !Terminal(s.db.jobs[j].status);
      var job := s.db.jobs[j];
      var t := FreshThread(s.calls, s.calls.Keys);
      assert JobOk(s.db, j);
      TotalIsNat(s.db, |s.db.jobs|);
      assert s.db.jobs[..|s.db.jobs|] == s.db.jobs;
      var first, m;
      if job.status == Running {
        var deadline := job.lockedAt.value + job.timeout + grace + 1;
        var to := if s.clock < deadline then deadline else s.clock;
        first, m := OneTransaction(s, to, t, Reaping(to, grace), j, grace);
      } else {
        var to := if s.clock < job.runAt then job.runAt else s.clock;
        ClaimOrder.NextClaimExists(s.db.jobs, to, j);
        var b: JobId :| IsNextClaim(s.db.jobs, to, b);
        first, m := OneTransaction(s, to, t, Claiming("worker", to), b, grace);
      }
      var rest;
      TotalIsNat(m.db, |m.db.jobs|);
      assert m.db.jobs[..|m.db.jobs|] == m.db.jobs;
      rest, s' := CanFinish(m, grace);
      ThroughoutConcat(s, first, m, rest, s', CrashingWorkersOnly(grace));
      es := first + rest;
    }
  }
}
