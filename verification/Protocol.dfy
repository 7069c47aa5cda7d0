/**
 The lease, fencing and retry protocol: any number of worker, reaper and client threads
 interleave row transactions on the job tables.

 A thread reads its clock in one step and runs its transaction in a later one. The grain is
 one row: a transaction on several rows is a sequence of `Commit` steps (modules Repository
 and Postgres show that their transactions are such sequences). Worker ids are not unique:
 nothing below relates a thread to the worker id it uses.
 */
module Protocol {
  import opened Tables

  type Thread = nat

  // What a claim returns to the worker thread, as far as the protocol reads it again.
  datatype Token = Token(job: JobId, worker: string, attemptNo: nat, maxRetries: nat, payload: Payload)

  // How the handler ended.
  datatype Verdict =
    | Returned(result: HandlerResult)
    | Raised(error: string, timedOut: bool, backoff: nat)

  /** Where a thread is. A thread that is not in the table has no call in progress. The time
      `now` of a call is the clock reading taken before its transaction begins. */
  datatype Call =
    | Claiming(worker: string, now: Time)
    | Claimed(token: Token)
    | Working(token: Token, startedAt: Time)
    | Finishing(token: Token, startedAt: Time, now: Time, verdict: Verdict)
    | Reaping(now: Time, grace: nat)
    | Cancelling(target: JobId, now: Time)
    | Draining(now: Time)

  // History of committed claims, keyed by job and attempt number; no code reads it.
  datatype Grant = Grant(worker: string, lockedAt: Time)

  datatype Sys = Sys(db: Db, clock: Time, grants: map<(JobId, nat), Grant>, calls: map<Thread, Call>)

  datatype Event =
    | Tick(to: Time)
    | Insert(row: Job)
    | Begin(t: Thread, call: Call)
    | Start(t: Thread)
    | Report(t: Thread, verdict: Verdict)
    | Interrupt(t: Thread)
    | Commit(t: Thread, j: JobId)
    | Return(t: Thread)

  predicate Initial(s: Sys) {
    s.db == EMPTY_DB && s.grants == map[] && s.calls == map[]
  }

  // ---------------------------------------------------------------- steps

  function OpOf(call: Call): Option<Op> {
    match call
    case Claiming(worker, now) => Some(ClaimOp(worker, now))
    case Claimed(_) => None
    case Working(_, _) => None
    case Finishing(tok, started, now, Returned(result)) =>
      Some(SucceedOp(tok.worker, tok.attemptNo, started, now, result))
    case Finishing(tok, started, now, Raised(error, timedOut, backoff)) =>
      Some(FailOp(tok.worker, tok.attemptNo, tok.maxRetries, tok.payload, started, now, error, timedOut, backoff))
    case Reaping(now, grace) => Some(ReapOp(now, grace))
    case Cancelling(_, now) => Some(CancelOp(now))
    case Draining(now) => Some(CancelOp(now))
  }

  // The call may run its transaction on row `j`; the ones that select rows take rows that match.
  // A claim may take any due row here, as SKIP LOCKED may; the serial SELECT takes a first one.
  predicate Targets(db: Db, call: Call, j: JobId) {
    match call
    case Claiming(_, _) => Execute(db, j, OpOf(call).value).Applied?
    case Claimed(_) => false
    case Working(_, _) => false
    case Finishing(tok, _, _, _) => j == tok.job
    case Reaping(_, _) => Execute(db, j, OpOf(call).value).Applied?
    case Cancelling(target, _) => j == target
    case Draining(_) => Execute(db, j, OpOf(call).value).Applied?
  }

  // A new call starts with a reading of the clock.
  predicate FirstCall(call: Call, clock: Time) {
    match call
    case Claiming(_, now) => now == clock
    case Reaping(now, _) => now == clock
    case Cancelling(_, now) => now == clock
    case Draining(now) => now == clock
    case _ => false
  }

  predicate Enabled(s: Sys, e: Event) {
    match e
    case Tick(to) => s.clock <= to
    case Insert(row) => FreshRow(row) && Insertable(s.db.jobs, row)
    case Begin(t, call) => t !in s.calls && FirstCall(call, s.clock)
    case Start(t) => t in s.calls && s.calls[t].Claimed?
    case Report(t, _) => t in s.calls && s.calls[t].Working?
    case Interrupt(t) => t in s.calls && s.calls[t].Finishing? && s.calls[t].verdict.Returned?
    case Commit(t, j) => t in s.calls && Targets(s.db, s.calls[t], j)
    case Return(t) => t in s.calls
  }

  function TokenFor(job: Job, j: JobId, worker: string): Token {
    Token(j, worker, job.attemptCount + 1, job.maxRetries, job.payload)
  }

  // The thread's next call once its transaction on row `j` ended with `o`, if it has one.
  function NextCall(db: Db, call: Call, j: JobId, o: Outcome): Option<Call>
    requires Targets(db, call, j)
  {
    match call
    case Claiming(worker, _) => Some(Claimed(TokenFor(db.jobs[j], j, worker)))
    // process_one turns an exception of mark_succeeded into mark_failed_attempt; an exception
    // of mark_failed_attempt ends the thread.
    case Finishing(tok, started, _, verdict) =>
      if o.Aborted? && verdict.Returned? then Some(Working(tok, started)) else None
    case Cancelling(_, _) => None
    case _ => Some(call)
  }

  function Do(s: Sys, e: Event): Sys
    requires Enabled(s, e)
  {
    match e
    case Tick(to) => s.(clock := to)
    case Insert(row) => s.(db := s.db.(jobs := s.db.jobs + [row]))
    case Begin(t, call) => s.(calls := s.calls[t := call])
    case Start(t) => s.(calls := s.calls[t := Working(s.calls[t].token, s.clock)])
    case Report(t, verdict) =>
      s.(calls := s.calls[t := Finishing(s.calls[t].token, s.calls[t].startedAt, s.clock, verdict)])
    // mark_succeeded raises before its COMMIT, for whatever reason; process_one then reports
    case Interrupt(t) => s.(calls := s.calls[t := Working(s.calls[t].token, s.calls[t].startedAt)])
    case Commit(t, j) =>
      var call := s.calls[t];
      var o := Execute(s.db, j, OpOf(call).value);
      var next := NextCall(s.db, call, j, o);
      s.(db := After(s.db, j, OpOf(call).value),
         grants := if call.Claiming?
                   then s.grants[(j, s.db.jobs[j].attemptCount + 1) := Grant(call.worker, call.now)]
                   else s.grants,
         calls := if next.Some? then s.calls[t := next.value] else s.calls - {t})
    case Return(t) => s.(calls := s.calls - {t})
  }

  /** `es` takes `s` to `s'`. */
  ghost predicate Run(s: Sys, es: seq<Event>, s': Sys)
    decreases |es|
  {
    if es == [] then s' == s
    else Enabled(s, es[0]) && Run(Do(s, es[0]), es[1..], s')
  }

  /** Every step of the run, in the state in which it is taken, satisfies `P`. */
  ghost predicate Throughout(s: Sys, es: seq<Event>, s': Sys, P: (Sys, Event) -> bool)
    requires Run(s, es, s')
    decreases |es|
  {
    es == [] || (P(s, es[0]) && Throughout(Do(s, es[0]), es[1..], s', P))
  }

  ghost predicate Reachable(s: Sys) {
    exists s0, es :: Initial(s0) && Run(s0, es, s)
  }

  // ---------------------------------------------------------------- the invariant

  // The claims of job `j` have the attempt numbers 1, 2, ..., each once.
  ghost predicate GrantsOk(s: Sys, j: JobId)
    requires j < |s.db.jobs|
  {
    var job := s.db.jobs[j];
    && (forall n: nat :: (j, n) in s.grants <==>
          1 <= n <= job.attemptCount + (if job.status == Running then 1 else 0))
    && (job.status == Running ==>
          && job.lockedBy == Some(s.grants[(j, job.attemptCount + 1)].worker)
          && job.lockedAt == Some(s.grants[(j, job.attemptCount + 1)].lockedAt)
          && s.grants[(j, job.attemptCount + 1)].lockedAt <= s.clock)
  }

  // Attempts lie one after the other: claim, start, end, and only then the next claim.
  ghost predicate TimesOk(s: Sys, j: JobId)
    requires j < |s.db.jobs|
  {
    var job := s.db.jobs[j];
    && (forall n: nat :: (j, n) in s.db.attempts ==>
          && (j, n) in s.grants
          && s.grants[(j, n)].worker == s.db.attempts[(j, n)].workerId
          && s.grants[(j, n)].lockedAt <= s.db.attempts[(j, n)].startedAt
               <= s.db.attempts[(j, n)].finishedAt <= s.clock)
    && (forall n: nat :: (j, n) in s.db.attempts && (j, n + 1) in s.grants ==>
          s.db.attempts[(j, n)].finishedAt <= s.grants[(j, n + 1)].lockedAt)
    && (job.status == Queued && (j, job.attemptCount) in s.db.attempts ==>
          s.db.attempts[(j, job.attemptCount)].finishedAt <= job.runAt)
  }

  // A token names a claim that was made; the columns it copied do not change.
  ghost predicate TokenOk(s: Sys, tok: Token) {
    && tok.job < |s.db.jobs|
    && (tok.job, tok.attemptNo) in s.grants
    && s.grants[(tok.job, tok.attemptNo)].worker == tok.worker
    && tok.maxRetries == s.db.jobs[tok.job].maxRetries
    && tok.payload == s.db.jobs[tok.job].payload
  }

  ghost predicate CallOk(s: Sys, call: Call) {
    match call
    case Claiming(_, now) => now <= s.clock
    case Claimed(tok) => TokenOk(s, tok) && s.grants[(tok.job, tok.attemptNo)].lockedAt <= s.clock
    case Working(tok, started) =>
      TokenOk(s, tok) && s.grants[(tok.job, tok.attemptNo)].lockedAt <= started <= s.clock
    case Finishing(tok, started, now, _) =>
      TokenOk(s, tok) && s.grants[(tok.job, tok.attemptNo)].lockedAt <= started <= now <= s.clock
    case Reaping(now, _) => now <= s.clock
    case Cancelling(_, now) => now <= s.clock
    case Draining(now) => now <= s.clock
  }

  ghost predicate Inv(s: Sys) {
    && TablesOk(s.db)
    && (forall j :: 0 <= j < |s.db.jobs| ==> GrantsOk(s, j) && TimesOk(s, j))
    && (forall k :: k in s.grants ==> k.0 < |s.db.jobs|)
    && (forall t :: t in s.calls ==> CallOk(s, s.calls[t]))
  }

  // ---------------------------------------------------------------- fencing

  // The token is the claim that currently holds the job.
  predicate IsCurrentClaim(db: Db, tok: Token) {
    && tok.job < |db.jobs|
    && db.jobs[tok.job].status == Running
    && tok.attemptNo == db.jobs[tok.job].attemptCount + 1
  }

  /** Fencing, although worker ids may be shared: a completion is applied if and only if its
      token is the current claim; a stale one changes no table, because the guarded UPDATE
      matches no row or because the unique index on the attempt number aborts it. */
  lemma Fencing(s: Sys, t: Thread)
    requires Inv(s) && t in s.calls && s.calls[t].Finishing?
    ensures var tok := s.calls[t].token;
            var op := OpOf(s.calls[t]).value;
            && (Execute(s.db, tok.job, op).Applied? <==> IsCurrentClaim(s.db, tok))
            && (!IsCurrentClaim(s.db, tok) ==> After(s.db, tok.job, op) == s.db)
            && (Execute(s.db, tok.job, op).Aborted? <==>
                  && !IsCurrentClaim(s.db, tok)
                  && s.db.jobs[tok.job].status == Running && s.db.jobs[tok.job].lockedBy == Some(tok.worker))
  {
    var tok := s.calls[t].token;
    assert CallOk(s, s.calls[t]) && JobOk(s.db, tok.job) && GrantsOk(s, tok.job);
  }

  // Whatever a call commits on a row is current, so the tables stay consistent.
  lemma CommitIsCurrent(s: Sys, t: Thread, j: JobId)
    requires Inv(s) && Enabled(s, Commit(t, j))
    requires Execute(s.db, j, OpOf(s.calls[t]).value).Applied?
    ensures j < |s.db.jobs| && Current(s.db.jobs[j], OpOf(s.calls[t]).value)
  {
    if s.calls[t].Finishing? {
      Fencing(s, t);
    }
    assert CallOk(s, s.calls[t]);
  }

  // ---------------------------------------------------------------- the invariant is inductive

  // A row keeps its part of the invariant when neither it nor its log and claims change.
  lemma RowFrame(s: Sys, s': Sys, i: JobId)
    requires i < |s.db.jobs| && i < |s'.db.jobs| && s'.db.jobs[i] == s.db.jobs[i]
    requires s.clock <= s'.clock
    requires forall n: nat {:trigger (i, n) in s'.grants} ::
               && ((i, n) in s'.grants <==> (i, n) in s.grants)
               && ((i, n) in s.grants ==> s'.grants[(i, n)] == s.grants[(i, n)])
    requires forall n: nat {:trigger (i, n) in s'.db.attempts} ::
               && ((i, n) in s'.db.attempts <==> (i, n) in s.db.attempts)
               && ((i, n) in s.db.attempts ==> s'.db.attempts[(i, n)] == s.db.attempts[(i, n)])
    requires JobOk(s.db, i) && GrantsOk(s, i) && TimesOk(s, i)
    ensures GrantsOk(s', i) && TimesOk(s', i)
  {
  }

  lemma ClaimKeepsRow(s: Sys, t: Thread, j: JobId)
    requires Inv(s) && Enabled(s, Commit(t, j)) && s.calls[t].Claiming?
    ensures GrantsOk(Do(s, Commit(t, j)), j) && TimesOk(Do(s, Commit(t, j)), j)
  {
    var s' := Do(s, Commit(t, j));
    var job := s.db.jobs[j];
    assert JobOk(s.db, j) && GrantsOk(s, j) && TimesOk(s, j) && CallOk(s, s.calls[t]);
    assert s'.grants == s.grants[(j, job.attemptCount + 1) := Grant(s.calls[t].worker, s.calls[t].now)];
    assert s'.db.attempts == s.db.attempts;
    forall n: nat | (j, n) in s'.db.attempts && (j, n + 1) in s'.grants
      ensures s'.db.attempts[(j, n)].finishedAt <= s'.grants[(j, n + 1)].lockedAt
    {
      // the gate run_at <= now: the last attempt ended by run_at
      if n < job.attemptCount {
        assert (j, n + 1) in s.grants;
      }
    }
  }

  // The attempt that a write records belongs to the current claim.
  ghost predicate Closes(s: Sys, j: JobId, w: RowWrite)
    requires j < |s.db.jobs|
  {
    var no := s.db.jobs[j].attemptCount + 1;
    && (j, no) in s.grants
    && w.attempt.Some? && w.attempt.value.0 == no
    && w.job.attemptCount == no && w.job.status != Running
    && var a := w.attempt.value.1;
       && a.workerId == s.grants[(j, no)].worker
       && s.grants[(j, no)].lockedAt <= a.startedAt <= a.finishedAt <= s.clock
       && (w.job.status == Queued ==> a.finishedAt <= w.job.runAt)
  }

  lemma CloseKeepsRow(s: Sys, s': Sys, j: JobId, w: RowWrite)
    requires Inv(s) && j < |s.db.jobs| && s.db.jobs[j].status == Running
    requires Closes(s, j, w)
    requires s'.db == Install(s.db, j, w) && s'.grants == s.grants && s'.clock == s.clock
    ensures GrantsOk(s', j) && TimesOk(s', j)
  {
    var no := s.db.jobs[j].attemptCount + 1;
    assert JobOk(s.db, j) && GrantsOk(s, j) && TimesOk(s, j);
    assert s'.db.attempts == s.db.attempts[(j, no) := w.attempt.value.1];
    forall n: nat | (j, n) in s'.db.attempts && (j, n + 1) in s'.grants
      ensures s'.db.attempts[(j, n)].finishedAt <= s'.grants[(j, n + 1)].lockedAt
    {
      assert n != no;
      assert (j, n) in s.db.attempts;
    }
  }

  lemma CommitKeepsRow(s: Sys, t: Thread, j: JobId)
    requires Inv(s) && Enabled(s, Commit(t, j))
    requires Execute(s.db, j, OpOf(s.calls[t]).value).Applied?
    ensures GrantsOk(Do(s, Commit(t, j)), j) && TimesOk(Do(s, Commit(t, j)), j)
  {
    var s' := Do(s, Commit(t, j));
    var op := OpOf(s.calls[t]).value;
    CommitIsCurrent(s, t, j);
    assert JobOk(s.db, j) && GrantsOk(s, j) && CallOk(s, s.calls[t]);
    if s.calls[t].Claiming? {
      ClaimKeepsRow(s, t, j);
    } else if op.CancelOp? {
      assert TimesOk(s, j);
    } else {
      CloseKeepsRow(s, s', j, WriteOf(s.db.jobs[j], op));
    }
  }

  // Claims are never withdrawn, and the columns that tokens copy never change.
  ghost predicate Grows(s: Sys, s': Sys) {
    && s.clock <= s'.clock
    && (forall k :: k in s.grants ==> k in s'.grants && s'.grants[k] == s.grants[k])
    && |s.db.jobs| <= |s'.db.jobs|
    && (forall j :: 0 <= j < |s.db.jobs| ==>
          s'.db.jobs[j].maxRetries == s.db.jobs[j].maxRetries && s'.db.jobs[j].payload == s.db.jobs[j].payload)
  }

  lemma CallStays(s: Sys, s': Sys, call: Call)
    requires CallOk(s, call) && Grows(s, s')
    ensures CallOk(s', call)
  {
  }

  lemma CommitGrows(s: Sys, t: Thread, j: JobId)
    requires Inv(s) && Enabled(s, Commit(t, j))
    ensures Grows(s, Do(s, Commit(t, j)))
  {
    if s.calls[t].Claiming? {
      assert GrantsOk(s, j);
    }
  }

  lemma CommitKeepsCalls(s: Sys, t: Thread, j: JobId)
    requires Inv(s) && Enabled(s, Commit(t, j))
    ensures forall u :: u in Do(s, Commit(t, j)).calls ==> CallOk(Do(s, Commit(t, j)), Do(s, Commit(t, j)).calls[u])
  {
    var s' := Do(s, Commit(t, j));
    CommitGrows(s, t, j);
    CallStays(s, s', s.calls[t]);
    forall u | u in s'.calls && u != t
      ensures CallOk(s', s'.calls[u])
    {
      CallStays(s, s', s.calls[u]);
    }
  }

  lemma CommitKeepsInv(s: Sys, t: Thread, j: JobId)
    requires Inv(s) && Enabled(s, Commit(t, j))
    ensures Inv(Do(s, Commit(t, j)))
  {
    var s' := Do(s, Commit(t, j));
    var op := OpOf(s.calls[t]).value;
    CommitKeepsCalls(s, t, j);
    if Execute(s.db, j, op).Applied? {
      CommitIsCurrent(s, t, j);
      InstallKeepsTables(s.db, j, op);
      CommitKeepsRow(s, t, j);
      forall i | 0 <= i < |s'.db.jobs|
        ensures GrantsOk(s', i) && TimesOk(s', i)
      {
        if i != j {
          OtherRowKept(s, t, j, i);
        }
      }
    } else {
      forall i | 0 <= i < |s'.db.jobs|
        ensures GrantsOk(s', i) && TimesOk(s', i)
      {
        assert GrantsOk(s, i) && TimesOk(s, i);
      }
    }
  }

  lemma OtherRowKept(s: Sys, t: Thread, j: JobId, i: JobId)
    requires Inv(s) && Enabled(s, Commit(t, j))
    requires i < |s.db.jobs| && i != j
    ensures |Do(s, Commit(t, j)).db.jobs| == |s.db.jobs|
    ensures GrantsOk(Do(s, Commit(t, j)), i) && TimesOk(Do(s, Commit(t, j)), i)
  {
    assert JobOk(s.db, i) && GrantsOk(s, i) && TimesOk(s, i);
    RowFrame(s, Do(s, Commit(t, j)), i);
  }

  lemma InsertKeepsInv(s: Sys, row: Job)
    requires Inv(s) && Enabled(s, Insert(row))
    ensures Inv(Do(s, Insert(row)))
  {
    var s' := Do(s, Insert(row));
    InsertKeepsTables(s.db, row);
    forall i | 0 <= i < |s'.db.jobs|
      ensures GrantsOk(s', i) && TimesOk(s', i)
    {
      if i < |s.db.jobs| {
        assert GrantsOk(s, i) && TimesOk(s, i);
      }
    }
    forall t | t in s'.calls
      ensures CallOk(s', s'.calls[t])
    {
      assert CallOk(s, s.calls[t]);
    }
  }

  // Clock ticks, clock readings and returning threads touch no table.
  lemma QuietStepKeepsInv(s: Sys, e: Event)
    requires Inv(s) && Enabled(s, e) && !e.Commit? && !e.Insert?
    ensures Inv(Do(s, e))
  {
    var s' := Do(s, e);
    assert s'.db == s.db && s'.grants == s.grants && s.clock <= s'.clock;
    forall i | 0 <= i < |s'.db.jobs|
      ensures GrantsOk(s', i) && TimesOk(s', i)
    {
      RowFrame(s, s', i);
    }
    forall t | t in s'.calls
      ensures CallOk(s', s'.calls[t])
    {
      if t in s.calls {
        CallStays(s, s', s.calls[t]);
      }
    }
  }

  lemma StepKeepsInv(s: Sys, e: Event)
    requires Inv(s) && Enabled(s, e)
    ensures Inv(Do(s, e))
  {
    match e
    case Commit(t, j) => CommitKeepsInv(s, t, j);
    case Insert(row) => InsertKeepsInv(s, row);
    case _ => QuietStepKeepsInv(s, e);
  }

  lemma {:induction false} RunKeepsInv(s: Sys, es: seq<Event>, s': Sys)
    requires Inv(s) && Run(s, es, s')
    ensures Inv(s')
    decreases |es|
  {
    if es != [] {
      StepKeepsInv(s, es[0]);
      RunKeepsInv(Do(s, es[0]), es[1..], s');
    }
  }

  lemma ReachableInv(s: Sys)
    requires Reachable(s)
    ensures Inv(s)
  {
    var s0, es :| Initial(s0) && Run(s0, es, s);
    RunKeepsInv(s0, es, s);
  }

  lemma {:induction false} RunConcat(s: Sys, es: seq<Event>, m: Sys, fs: seq<Event>, s': Sys)
    requires Run(s, es, m) && Run(m, fs, s')
    ensures Run(s, es + fs, s')
    decreases |es|
  {
    if es == [] {
      assert es + fs == fs;
    } else {
      RunConcat(Do(s, es[0]), es[1..], m, fs, s');
      assert (es + fs)[1..] == es[1..] + fs;
    }
  }

  lemma {:induction false} ThroughoutConcat(s: Sys, es: seq<Event>, m: Sys, fs: seq<Event>, s': Sys, P: (Sys, Event) -> bool)
    requires Run(s, es, m) && Run(m, fs, s')
    requires Throughout(s, es, m, P) && Throughout(m, fs, s', P)
    ensures Run(s, es + fs, s') && Throughout(s, es + fs, s', P)
    decreases |es|
  {
    if es == [] {
      assert es + fs == fs;
    } else {
      ThroughoutConcat(Do(s, es[0]), es[1..], m, fs, s', P);
      assert (es + fs)[1..] == es[1..] + fs;
    }
  }

  lemma {:induction false} ThroughoutImplies(s: Sys, es: seq<Event>, s': Sys, P: (Sys, Event) -> bool,
                                             Q: (Sys, Event) -> bool)
    requires Run(s, es, s') && Throughout(s, es, s', P)
    requires forall m, e :: P(m, e) ==> Q(m, e)
    ensures Throughout(s, es, s', Q)
    decreases |es|
  {
    if es != [] {
      ThroughoutImplies(Do(s, es[0]), es[1..], s', P, Q);
    }
  }

  lemma OneStep(s: Sys, e: Event)
    requires Enabled(s, e)
    ensures Run(s, [e], Do(s, e))
  {
    assert [e][1..] == [];
    assert Run(Do(s, e), [], Do(s, e));
  }
}
