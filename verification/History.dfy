/**
 What the protocol promises over whole runs, from the inductive invariant of module Protocol.
 */
module History {
  import opened Tables
  import opened Protocol

  // ---------------------------------------------------------------- the attempt log

  /** In every reachable state the attempt records of a job are exactly 1..attempt_count, only
      the last one may have succeeded and it did iff the job did, a job that can still run has
      retries left, and the dead letters are exactly the jobs that used all of them. */
  lemma AttemptLogIsExact(s: Sys, j: JobId)
    requires Reachable(s) && j < |s.db.jobs|
    ensures var job := s.db.jobs[j];
            && (forall n: nat :: (j, n) in s.db.attempts <==> 1 <= n <= job.attemptCount)
            && (forall n: nat :: (j, n) in s.db.attempts && s.db.attempts[(j, n)].status == AttemptSucceeded <==>
                  n == job.attemptCount && job.status == Succeeded)
            && (job.status == Queued || job.status == Running || job.status == Cancelled ==>
                  job.attemptCount <= job.maxRetries)
            && (job.status == DeadLettered ==> job.attemptCount == job.maxRetries + 1)
            && (j in s.db.deadLetters <==> job.status == DeadLettered)
            && (j in s.db.deadLetters ==>
                  && s.db.deadLetters[j].attemptCount == job.attemptCount
                  && s.db.deadLetters[j].lastError == job.lastError
                  && job.lastError == s.db.attempts[(j, job.attemptCount)].error)
  {
    ReachableInv(s);
    assert JobOk(s.db, j);
  }

  /** A running job always has a lease for the reaper to see, no other job has one, and no job
      ever has the status 'failed'. */
  lemma LeaseColumns(s: Sys, j: JobId)
    requires Reachable(s) && j < |s.db.jobs|
    ensures var job := s.db.jobs[j];
            && job.status != Failed
            && (job.status == Running <==> job.lockedBy.Some?)
            && (job.status == Running <==> job.lockedAt.Some?)
            && (job.finishedAt.Some? <==> job.status in {Succeeded, DeadLettered, Cancelled})
  {
    ReachableInv(s);
    assert JobOk(s.db, j);
  }

  // ---------------------------------------------------------------- what a row step writes

  predicate SameIdentity(a: Job, b: Job) {
    && a.idempotencyKey == b.idempotencyKey && a.fingerprint == b.fingerprint
    && a.scheduleId == b.scheduleId && a.scheduledFor == b.scheduledFor
    && a.payload == b.payload && a.priority == b.priority
    && a.maxRetries == b.maxRetries && a.timeout == b.timeout && a.createdAt == b.createdAt
  }

  // Row `j` is another version of the same job; no other row differs.
  predicate OnlyRow(db: Db, db': Db, j: JobId) {
    && |db'.jobs| == |db.jobs| && j < |db.jobs| && SameIdentity(db.jobs[j], db'.jobs[j])
    && forall i :: 0 <= i < |db.jobs| && i != j ==> db'.jobs[i] == db.jobs[i]
  }

  /** A claim leases the row to its worker from its clock reading on, hands out the next attempt
      number, and changes nothing else. */
  lemma ClaimIsRecorded(s: Sys, t: Thread, j: JobId)
    requires Inv(s) && Enabled(s, Commit(t, j)) && s.calls[t].Claiming?
    ensures var s' := Do(s, Commit(t, j));
            && OnlyRow(s.db, s'.db, j) && s'.db.attempts == s.db.attempts && s'.db.deadLetters == s.db.deadLetters
            && var (was, job) := (s.db.jobs[j], s'.db.jobs[j]);
               && was.status == Queued && was.runAt <= s.calls[t].now
               && job.status == Running && job.lockedBy == Some(s.calls[t].worker)
               && job.lockedAt == Some(s.calls[t].now) && job.updatedAt == s.calls[t].now
               && job.runAt == was.runAt && job.attemptCount == was.attemptCount && job.lastError == was.lastError
               && job.result == None && job.finishedAt == None
               && s'.calls[t] == Claimed(Token(j, s.calls[t].worker, was.attemptCount + 1, was.maxRetries, was.payload))
  {
    assert JobOk(s.db, j);
  }

  /** A completion that is applied is recorded as the worker reported it: under its attempt
      number, with its worker id, its start, its clock reading and its error. */
  lemma CompletionIsRecorded(s: Sys, t: Thread)
    requires Inv(s) && t in s.calls && s.calls[t].Finishing? && IsCurrentClaim(s.db, s.calls[t].token)
    ensures var (tok, verdict, now) := (s.calls[t].token, s.calls[t].verdict, s.calls[t].now);
            var s' := Do(s, Commit(t, tok.job));
            && t !in s'.calls && OnlyRow(s.db, s'.db, tok.job)
            && (tok.job, tok.attemptNo) !in s.db.attempts && (tok.job, tok.attemptNo) in s'.db.attempts
            && var (a, job) := (s'.db.attempts[(tok.job, tok.attemptNo)], s'.db.jobs[tok.job]);
               && a.workerId == tok.worker && a.startedAt == s.calls[t].startedAt && a.finishedAt == now
               && job.attemptCount == tok.attemptNo && job.updatedAt == now
               && job.lockedBy == None && job.lockedAt == None
               && (verdict.Returned? ==>
                     && a.status == AttemptSucceeded && a.error == None
                     && job.status == Succeeded && job.result == Some(verdict.result) && job.lastError == None
                     && job.runAt == s.db.jobs[tok.job].runAt && job.finishedAt == Some(now))
               && (verdict.Raised? ==>
                     && a.status == (if verdict.timedOut then AttemptTimedOut else AttemptFailed)
                     && a.error == Some(verdict.error) && job.lastError == Some(verdict.error) && job.result == None
                     && (tok.attemptNo <= job.maxRetries ==>
                           job.status == Queued && job.runAt == now + verdict.backoff && job.finishedAt == None)
                     && (tok.attemptNo > job.maxRetries ==>
                           && job.status == DeadLettered && job.runAt == now && job.finishedAt == Some(now)
                           && tok.job in s'.db.deadLetters
                           && s'.db.deadLetters[tok.job] == DeadLetter(job.payload, Some(verdict.error), tok.attemptNo, now)))
  {
    Fencing(s, t);
    CommitIsCurrent(s, t, s.calls[t].token.job);
    assert CallOk(s, s.calls[t]) && JobOk(s.db, s.calls[t].token.job);
  }

  /** A reaper's row step needs a lease past its deadline at the reaper's clock reading, logs the
      attempt from the claim to that reading under the worker id of the lease, and requeues the
      job at once or dead-letters it. */
  lemma AbandonmentIsRecorded(s: Sys, t: Thread, j: JobId)
    requires Inv(s) && Enabled(s, Commit(t, j)) && s.calls[t].Reaping?
    ensures var s' := Do(s, Commit(t, j));
            var now := s.calls[t].now;
            && OnlyRow(s.db, s'.db, j)
            && var (was, job, no) := (s.db.jobs[j], s'.db.jobs[j], s.db.jobs[j].attemptCount + 1);
               && was.status == Running && was.lockedBy.Some? && was.lockedAt.Some?
               && was.lockedAt.value + was.timeout + s.calls[t].grace < now
               && (j, no) !in s.db.attempts && (j, no) in s'.db.attempts
               && s'.db.attempts[(j, no)] ==
                  Attempt(was.lockedBy.value, AttemptAbandoned, was.lockedAt.value, now, Some(LEASE_EXPIRED))
               && job.attemptCount == no && job.lastError == Some(LEASE_EXPIRED) && job.result == None
               && job.runAt == now && job.updatedAt == now && job.lockedBy == None && job.lockedAt == None
               && (no <= was.maxRetries ==> job.status == Queued && job.finishedAt == None)
               && (no > was.maxRetries ==>
                     && job.status == DeadLettered && job.finishedAt == Some(now) && j in s'.db.deadLetters
                     && s'.db.deadLetters[j] == DeadLetter(was.payload, Some(LEASE_EXPIRED), no, now))
  {
    assert JobOk(s.db, j);
  }

  /** A cancellation or a drain ends a queued job at its clock reading and changes nothing else. */
  lemma CancellationIsRecorded(s: Sys, t: Thread, j: JobId)
    requires Inv(s) && Enabled(s, Commit(t, j)) && (s.calls[t].Cancelling? || s.calls[t].Draining?)
    ensures var db' := Do(s, Commit(t, j)).db;
            && db'.attempts == s.db.attempts && db'.deadLetters == s.db.deadLetters
            && (j < |s.db.jobs| && s.db.jobs[j].status == Queued ==>
                  && OnlyRow(s.db, db', j)
                  && var (was, job) := (s.db.jobs[j], db'.jobs[j]);
                     && job.status == Cancelled && job.updatedAt == s.calls[t].now && job.finishedAt == Some(s.calls[t].now)
                     && job.attemptCount == was.attemptCount && job.lastError == was.lastError && job.runAt == was.runAt
                     && job.result == None && job.lockedBy == None && job.lockedAt == None)
            && (j >= |s.db.jobs| || s.db.jobs[j].status != Queued ==> db' == s.db)
  {
    if j < |s.db.jobs| {
      assert JobOk(s.db, j);
    }
  }

  /** A thread starts its handler and ends it at the clock of that moment, with the token of its
      claim; every other call reads the clock when it begins. */
  lemma CallsReadTheClock(s: Sys, e: Event)
    requires Enabled(s, e)
    ensures e.Start? ==> Do(s, e).calls[e.t] == Working(s.calls[e.t].token, s.clock)
    ensures e.Report? ==>
              Do(s, e).calls[e.t] == Finishing(s.calls[e.t].token, s.calls[e.t].startedAt, s.clock, e.verdict)
    ensures e.Begin? ==>
              && (e.call.Claiming? || e.call.Reaping? || e.call.Cancelling? || e.call.Draining?)
              && e.call.now == s.clock && Do(s, e).calls[e.t] == e.call
  {
  }

  /** How a stale completion ends: without a row it is dropped; refused by the index, a success is
      turned into a report of the same attempt, and a failure ends the thread. */
  lemma StaleCompletionEnds(s: Sys, t: Thread)
    requires Inv(s) && t in s.calls && s.calls[t].Finishing? && !IsCurrentClaim(s.db, s.calls[t].token)
    ensures var (call, job) := (s.calls[t], s.db.jobs[s.calls[t].token.job]);
            var s' := Do(s, Commit(t, call.token.job));
            && s' == s.(calls := s'.calls) && (forall u :: u != t ==> (u in s'.calls <==> u in s.calls))
            && (t in s'.calls <==>
                  call.verdict.Returned? && job.status == Running && job.lockedBy == Some(call.token.worker))
            && (t in s'.calls ==> s'.calls[t] == Working(call.token, call.startedAt))
  {
    Fencing(s, t);
  }

  // ---------------------------------------------------------------- why the guard is not enough

  lemma OneMore(s: Sys, e: Event)
    requires Reachable(s) && Enabled(s, e)
    ensures Reachable(Do(s, e))
  {
    var s0, es :| Initial(s0) && Run(s0, es, s);
    OneStep(s, e);
    RunConcat(s0, es, s, [e], Do(s, e));
  }

  // A job with one retry whose lease expires at once.
  const SHORT_JOB :=
    Job(None, None, None, None, Queued, Echo(""), None, 0, 1, 0, 0, None, 0, None, None, 0, 0, None)

  // Thread 0 claims the job and works on it.
  lemma LeaseIsGranted(worker: string) returns (s: Sys)
    ensures Reachable(s) && s.clock == 0
    ensures s.db == Db([ClaimWrite(SHORT_JOB, worker, 0).job], map[], map[])
    ensures s.calls == map[0 := Working(Token(0, worker, 1, 1, SHORT_JOB.payload), 0)]
  {
    s := Sys(EMPTY_DB, 0, map[], map[]);
    assert Run(s, [], s);
    OneMore(s, Insert(SHORT_JOB));
    s := Do(s, Insert(SHORT_JOB));
    OneMore(s, Begin(0, Claiming(worker, 0)));
    s := Do(s, Begin(0, Claiming(worker, 0)));
    OneMore(s, Commit(0, 0));
    s := Do(s, Commit(0, 0));
    OneMore(s, Start(0));
    s := Do(s, Start(0));
  }

  // Thread 1 reads the clock when the lease has expired.
  lemma ReaperComes(worker: string) returns (s: Sys)
    ensures Reachable(s) && s.clock == 1
    ensures s.db == Db([ClaimWrite(SHORT_JOB, worker, 0).job], map[], map[])
    ensures s.calls == map[0 := Working(Token(0, worker, 1, 1, SHORT_JOB.payload), 0), 1 := Reaping(1, 0)]
  {
    s := LeaseIsGranted(worker);
    OneMore(s, Tick(1));
    s := Do(s, Tick(1));
    OneMore(s, Begin(1, Reaping(1, 0)));
    s := Do(s, Begin(1, Reaping(1, 0)));
  }

  // It reaps the lease while thread 0 still works.
  lemma LeaseIsReaped(worker: string) returns (s: Sys)
    ensures Reachable(s) && s.clock == 1 && |s.db.jobs| == 1 && Due(s.db.jobs[0], 1)
    ensures s.db.jobs[0].attemptCount == 1 && (0, 1) in s.db.attempts
    ensures s.calls == map[0 := Working(Token(0, worker, 1, 1, SHORT_JOB.payload), 0)]
  {
    s := ReaperComes(worker);
    OneMore(s, Commit(1, 0));
    s := Do(s, Commit(1, 0));
    OneMore(s, Return(1));
    s := Do(s, Return(1));
  }

  /** The lease-owner guard alone would let a stale completion through: whatever worker id two
      threads share and whatever the first one reports, there is a reachable state in which its
      UPDATE matches the row that the second one holds, and only the unique index stops it. */
  lemma GuardIsNotEnough(worker: string, verdict: Verdict) returns (s: Sys, t: Thread)
    ensures Reachable(s) && t in s.calls && s.calls[t].Finishing? && s.calls[t].verdict == verdict
    ensures s.calls[t].token.job < |s.db.jobs| && HeldBy(s.db.jobs[s.calls[t].token.job], worker)
    ensures s.calls[t].token.worker == worker && !IsCurrentClaim(s.db, s.calls[t].token)
    ensures Execute(s.db, s.calls[t].token.job, OpOf(s.calls[t]).value).Aborted?
  {
    s := LeaseIsReaped(worker);
    t := 0;
    OneMore(s, Begin(2, Claiming(worker, 1)));
    s := Do(s, Begin(2, Claiming(worker, 1)));
    OneMore(s, Commit(2, 0));
    s := Do(s, Commit(2, 0));
    OneMore(s, Report(0, verdict));
    s := Do(s, Report(0, verdict));
  }

  // ---------------------------------------------------------------- attempts in time

  /** Recorded attempts of one job never overlap: attempt `k` has ended when a later attempt `m`
      is claimed, and `m` starts after its claim. Every transaction read its clock before it
      took the lock; the run_at gate of the claim is what makes this true. */
  lemma {:induction false} AttemptsNeverOverlap(s: Sys, j: JobId, k: nat, m: nat)
    requires Inv(s) && j < |s.db.jobs| && k < m
    requires (j, k) in s.db.attempts && (j, m) in s.grants
    ensures s.db.attempts[(j, k)].finishedAt <= s.grants[(j, m)].lockedAt
    ensures (j, m) in s.db.attempts ==> s.grants[(j, m)].lockedAt <= s.db.attempts[(j, m)].startedAt
    decreases m
  {
    assert JobOk(s.db, j) && GrantsOk(s, j) && TimesOk(s, j);
    if k + 1 < m {
      AttemptsNeverOverlap(s, j, k, m - 1);
      assert (j, m - 1) in s.db.attempts && (j, (m - 1) + 1) in s.grants;
    }
  }

  // ---------------------------------------------------------------- rows over time

  // The lifecycle: the only ways in which a row changes its status.
  predicate Edge(a: Status, b: Status) {
    || a == b
    || (a == Queued && (b == Running || b == Cancelled))
    || (a == Running && (b == Queued || b == Succeeded || b == DeadLettered))
  }

  // Rows are never removed, terminal rows never change, the attempt log is append-only.
  ghost predicate Evolves(db: Db, db': Db) {
    && |db.jobs| <= |db'.jobs|
    && (forall j :: 0 <= j < |db.jobs| ==>
          && SameIdentity(db.jobs[j], db'.jobs[j])
          && (Terminal(db.jobs[j].status) ==> db'.jobs[j] == db.jobs[j])
          && db.jobs[j].attemptCount <= db'.jobs[j].attemptCount)
    && (forall k :: k in db.attempts ==> k in db'.attempts && db'.attempts[k] == db.attempts[k])
    && (forall j :: j in db.deadLetters ==> j in db'.deadLetters && db'.deadLetters[j] == db.deadLetters[j])
  }

  // What one committed write does to its row.
  lemma WriteEvolves(job: Job, op: Op)
    requires Guard(job, op) && Current(job, op) && (op.ReapOp? ==> job.lockedAt.Some?)
    ensures var after := WriteOf(job, op).job;
            && SameIdentity(job, after) && Edge(job.status, after.status)
            && !Terminal(job.status) && job.attemptCount <= after.attemptCount
    ensures WriteOf(job, op).attempt.Some? ==> WriteOf(job, op).attempt.value.0 == job.attemptCount + 1
  {
  }

  lemma InstallEvolves(db: Db, j: JobId, w: RowWrite)
    requires j < |db.jobs| && SameIdentity(db.jobs[j], w.job) && Edge(db.jobs[j].status, w.job.status)
    requires !Terminal(db.jobs[j].status) && db.jobs[j].attemptCount <= w.job.attemptCount
    requires !Clashes(db, j, w) && j !in db.deadLetters
    ensures Evolves(db, Install(db, j, w))
    ensures forall i :: 0 <= i < |db.jobs| ==> Edge(db.jobs[i].status, Install(db, j, w).jobs[i].status)
  {
  }

  lemma StepEvolves(s: Sys, e: Event)
    requires Inv(s) && Enabled(s, e)
    ensures Evolves(s.db, Do(s, e).db)
    ensures forall j :: 0 <= j < |s.db.jobs| ==> Edge(s.db.jobs[j].status, Do(s, e).db.jobs[j].status)
  {
    if e.Commit? && Execute(s.db, e.j, OpOf(s.calls[e.t]).value).Applied? {
      CommitIsCurrent(s, e.t, e.j);
      assert JobOk(s.db, e.j);
      WriteEvolves(s.db.jobs[e.j], OpOf(s.calls[e.t]).value);
      InstallEvolves(s.db, e.j, WriteOf(s.db.jobs[e.j], OpOf(s.calls[e.t]).value));
    }
  }

  lemma {:induction false} RunEvolves(s: Sys, es: seq<Event>, s': Sys)
    requires Inv(s) && Run(s, es, s')
    ensures Evolves(s.db, s'.db)
    decreases |es|
  {
    if es != [] {
      var m := Do(s, es[0]);
      StepEvolves(s, es[0]);
      StepKeepsInv(s, es[0]);
      RunEvolves(m, es[1..], s');
      forall j | 0 <= j < |s.db.jobs|
        ensures SameIdentity(s.db.jobs[j], s'.db.jobs[j])
        ensures Terminal(s.db.jobs[j].status) ==> s'.db.jobs[j] == s.db.jobs[j]
        ensures s.db.jobs[j].attemptCount <= s'.db.jobs[j].attemptCount
      {
        assert SameIdentity(m.db.jobs[j], s'.db.jobs[j]);
      }
    }
  }

  // ---------------------------------------------------------------- claims

  lemma {:induction false} GrantsGrow(s: Sys, es: seq<Event>, s': Sys)
    requires Inv(s) && Run(s, es, s')
    ensures forall k :: k in s.grants ==> k in s'.grants && s'.grants[k] == s.grants[k]
    decreases |es|
  {
    if es != [] {
      if es[0].Commit? && s.calls[es[0].t].Claiming? {
        assert GrantsOk(s, es[0].j);
      }
      StepKeepsInv(s, es[0]);
      GrantsGrow(Do(s, es[0]), es[1..], s');
    }
  }

  /** No two claims of one job ever get the same attempt number: whatever happens between two
      claims, by whichever threads and worker ids, the later one has the larger number. */
  lemma ClaimsNeverRepeat(s: Sys, t: Thread, j: JobId, es: seq<Event>, s': Sys, u: Thread)
    requires Inv(s) && Enabled(s, Commit(t, j)) && s.calls[t].Claiming?
    requires Run(Do(s, Commit(t, j)), es, s')
    requires Enabled(s', Commit(u, j)) && s'.calls[u].Claiming?
    ensures Do(s, Commit(t, j)).calls[t].token.attemptNo < Do(s', Commit(u, j)).calls[u].token.attemptNo
  {
    var m := Do(s, Commit(t, j));
    StepKeepsInv(s, Commit(t, j));
    RunKeepsInv(m, es, s');
    GrantsGrow(m, es, s');
    assert GrantsOk(s', j);
    assert (j, s.db.jobs[j].attemptCount + 1) in s'.grants;
  }

  /** At most one claim of a job is live: two threads whose tokens are both the current claim
      of the same job hold the same token, and one that does not cannot commit anything. */
  lemma OneLiveClaim(s: Sys, t: Thread, u: Thread)
    requires Inv(s) && t in s.calls && u in s.calls
    requires s.calls[t].Finishing? && s.calls[u].Finishing?
    requires s.calls[t].token.job == s.calls[u].token.job
    requires After(s.db, s.calls[t].token.job, OpOf(s.calls[t]).value) != s.db
    requires After(s.db, s.calls[u].token.job, OpOf(s.calls[u]).value) != s.db
    ensures s.calls[t].token == s.calls[u].token
  {
    Fencing(s, t);
    Fencing(s, u);
    assert CallOk(s, s.calls[t]) && CallOk(s, s.calls[u]);
  }

  /** A job is claimed at most max_retries + 1 times, over any run. */
  lemma ClaimsAreBounded(s: Sys, j: JobId, n: nat)
    requires Reachable(s) && j < |s.db.jobs| && (j, n) in s.grants
    ensures 1 <= n <= s.db.jobs[j].maxRetries + 1
  {
    ReachableInv(s);
    assert JobOk(s.db, j) && GrantsOk(s, j);
  }

  // ---------------------------------------------------------------- the reaper and live leases

  /** The reaper leaves a lease alone as long as the clock has not passed its deadline, however
      long ago or recently the reaper read that clock. */
  lemma ReaperSparesLiveLeases(s: Sys, t: Thread, j: JobId)
    requires Inv(s) && t in s.calls && s.calls[t].Reaping?
    requires j < |s.db.jobs| && s.db.jobs[j].status == Running && s.db.jobs[j].lockedAt.Some?
    requires s.clock <= s.db.jobs[j].lockedAt.value + s.db.jobs[j].timeout + s.calls[t].grace
    ensures !Enabled(s, Commit(t, j))
  {
  }

  // Thread `t`, and no other, holds the token of the lease that was granted at `at`.
  ghost predicate HoldsLease(s: Sys, t: Thread, tok: Token, at: Time) {
    && IsCurrentClaim(s.db, tok) && s.db.jobs[tok.job].lockedAt == Some(at)
    && t in s.calls && CallHolds(s.calls[t], tok)
    && OthersHoldOtherTokens(s, t, tok)
  }

  lemma StepKeepsLease(s: Sys, e: Event, t: Thread, tok: Token, at: Time, grace: nat)
    requires Inv(s) && Enabled(s, e) && HoldsLease(s, t, tok, at)
    requires e.Commit? || e.Return? ==> e.t != t
    requires ReapersUse(s, grace)
    requires s.clock <= at + s.db.jobs[tok.job].timeout + grace
    ensures HoldsLease(Do(s, e), t, tok, at)
  {
    var s' := Do(s, e);
    if e.Commit? {
      CommitSparesLease(s, e, t, tok, at, grace);
    }
    forall u | u in s'.calls && u != t && (s'.calls[u].Claimed? || s'.calls[u].Working? || s'.calls[u].Finishing?)
      ensures s'.calls[u].token.job != tok.job || s'.calls[u].token.attemptNo != tok.attemptNo
    {
      if e.Commit? && e.t == u {
        assert e.j == tok.job ==> s.calls[u].Finishing?;
      } else {
        assert u in s.calls;
      }
    }
  }

  lemma CommitSparesLease(s: Sys, e: Event, t: Thread, tok: Token, at: Time, grace: nat)
    requires Inv(s) && Enabled(s, e) && HoldsLease(s, t, tok, at)
    requires e.Commit? && e.t != t
    requires ReapersUse(s, grace)
    requires s.clock <= at + s.db.jobs[tok.job].timeout + grace
    ensures tok.job < |Do(s, e).db.jobs| && Do(s, e).db.jobs[tok.job] == s.db.jobs[tok.job]
    ensures s.calls[e.t].Claiming? ==> e.j != tok.job
  {
    if e.j == tok.job {
      assert CallOk(s, s.calls[e.t]);
      if s.calls[e.t].Finishing? {
        Fencing(s, e.t);
      } else if s.calls[e.t].Reaping? {
        ReaperSparesLiveLeases(s, e.t, e.j);
      }
    }
  }

  /** Thread `t` takes no step that ends its call, neither a commit nor a crash, and every reaper
      that begins uses the configured grace. */
  function LeaseRespected(t: Thread, grace: nat): (Sys, Event) -> bool {
    (s: Sys, e: Event) =>
      && (e.Commit? || e.Return? ==> e.t != t)
      && (e.Begin? && e.call.Reaping? ==> e.call.grace == grace)
  }

  predicate ReapersUse(s: Sys, grace: nat) {
    forall u :: u in s.calls && s.calls[u].Reaping? ==> s.calls[u].grace == grace
  }

  lemma LeaseSurvivesStep(s: Sys, e: Event, t: Thread, tok: Token, at: Time, grace: nat)
    requires Inv(s) && Enabled(s, e) && HoldsLease(s, t, tok, at) && ReapersUse(s, grace)
    requires LeaseRespected(t, grace)(s, e) && Do(s, e).clock <= at + s.db.jobs[tok.job].timeout + grace
    ensures Inv(Do(s, e)) && HoldsLease(Do(s, e), t, tok, at) && ReapersUse(Do(s, e), grace)
    ensures Do(s, e).db.jobs[tok.job].timeout == s.db.jobs[tok.job].timeout
  {
    StepKeepsInv(s, e);
    StepKeepsLease(s, e, t, tok, at, grace);
    StepEvolves(s, e);
  }

  /** So a completion whose transaction runs by locked_at + timeout + grace finds its claim
      current, and is applied (Fencing): its lease cannot have been reaped before, if every
      reaper uses that grace. */
  lemma {:induction false} InTimeCompletionWins(s: Sys, es: seq<Event>, s': Sys, t: Thread, tok: Token, at: Time, grace: nat)
    requires Inv(s) && HoldsLease(s, t, tok, at) && ReapersUse(s, grace)
    requires Run(s, es, s') && Throughout(s, es, s', LeaseRespected(t, grace))
    requires s'.clock <= at + s.db.jobs[tok.job].timeout + grace
    ensures HoldsLease(s', t, tok, at)
    decreases |es|
  {
    if es != [] {
      ClockGrows(Do(s, es[0]), es[1..], s');
      LeaseSurvivesStep(s, es[0], t, tok, at, grace);
      InTimeCompletionWins(Do(s, es[0]), es[1..], s', t, tok, at, grace);
    }
  }

  predicate CallHolds(call: Call, tok: Token) {
    (call.Claimed? || call.Working? || call.Finishing?) && call.token == tok
  }

  // No other thread holds the token of `t`; true of the thread that claimed it (ClaimIsSole).
  ghost predicate OthersHoldOtherTokens(s: Sys, t: Thread, tok: Token) {
    forall u :: u in s.calls && u != t && (s.calls[u].Claimed? || s.calls[u].Working? || s.calls[u].Finishing?) ==>
      s.calls[u].token.job != tok.job || s.calls[u].token.attemptNo != tok.attemptNo
  }

  lemma {:induction false} ClockGrows(s: Sys, es: seq<Event>, s': Sys)
    requires Run(s, es, s')
    ensures s.clock <= s'.clock
    decreases |es|
  {
    if es != [] {
      ClockGrows(Do(s, es[0]), es[1..], s');
    }
  }

  // The thread that claims a job is the only one with that token.
  lemma ClaimIsSole(s: Sys, t: Thread, j: JobId)
    requires Inv(s) && Enabled(s, Commit(t, j)) && s.calls[t].Claiming?
    ensures var s' := Do(s, Commit(t, j));
            && s'.calls[t].Claimed? && HoldsLease(s', t, s'.calls[t].token, s.calls[t].now)
  {
    var s' := Do(s, Commit(t, j));
    assert JobOk(s.db, j) && GrantsOk(s, j);
    forall u | u in s'.calls && u != t && (s'.calls[u].Claimed? || s'.calls[u].Working? || s'.calls[u].Finishing?)
      ensures s'.calls[u].token.job != j || s'.calls[u].token.attemptNo != s'.calls[t].token.attemptNo
    {
      assert CallOk(s, s.calls[u]);
    }
  }
}
