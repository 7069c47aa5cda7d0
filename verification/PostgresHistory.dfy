/**
 What the protocol promises of runs with a condition on their steps, for the PostgreSQL
 repository: retry spacing, the outcome of the transient-failure handler, leases, claim numbers.
 The conditions are on the steps of the locking transactions.
 */
module PostgresHistory {
  import opened Tables
  import opened Protocol
  import opened RowLocks
  import opened Postgres
  import opened Retry
  import History
  import Abandonment

  // ---------------------------------------------------------------- conditions on steps

  ghost predicate PgThroughout(p: Pg, pes: seq<PgEvent>, p': Pg, Q: (Pg, PgEvent) -> bool)
    requires PgRun(p, pes, p')
    decreases |pes|
  {
    pes == [] || (Q(p, pes[0]) && PgThroughout(PgDo(p, pes[0]), pes[1..], p', Q))
  }

  // The row steps that a step with `Q` stands for satisfy `P`.
  ghost predicate Carried(p: Pg, e: PgEvent, Q: (Pg, PgEvent) -> bool, P: (Sys, Event) -> bool) {
    PgInv(p) && PgEnabled(p, e) && Q(p, e) ==>
      && Run(Abs(p), Refined(p, e), Abs(PgDo(p, e)))
      && Throughout(Abs(p), Refined(p, e), Abs(PgDo(p, e)), P)
  }

  /** A condition that each locking step carries over to its row steps holds throughout the run of
      the protocol that a whole locking run stands for. */
  lemma {:induction false} ConditionsCarryOver(p: Pg, pes: seq<PgEvent>, p': Pg, Q: (Pg, PgEvent) -> bool,
                                               P: (Sys, Event) -> bool)
    requires PgInv(p) && PgRun(p, pes, p') && PgThroughout(p, pes, p', Q)
    requires forall q, e :: Carried(q, e, Q, P)
    ensures Run(Abs(p), RefinedRun(p, pes, p'), Abs(p'))
    ensures Throughout(Abs(p), RefinedRun(p, pes, p'), Abs(p'), P)
    decreases |pes|
  {
    if pes != [] {
      var m := PgDo(p, pes[0]);
      assert Carried(p, pes[0], Q, P);
      StepKeepsPgInv(p, pes[0]);
      ConditionsCarryOver(m, pes[1..], p', Q, P);
      ThroughoutConcat(Abs(p), Refined(p, pes[0]), Abs(m), RefinedRun(m, pes[1..], p'), Abs(p'), P);
    }
  }

  // The row steps of a locking transaction: it commits on `rows`, returns, or is interrupted.
  predicate EndStep(s: Sys, e: Event, t: Thread, rows: set<JobId>, reaps: bool) {
    && Enabled(s, e)
    && (e == Return(t) || e == Interrupt(t)
        || (e.Commit? && e.t == t && e.j in rows && (s.calls[t].Reaping? ==> reaps)))
  }

  function EndSteps(t: Thread, rows: set<JobId>, reaps: bool): (Sys, Event) -> bool {
    (s, e) => EndStep(s, e, t, rows, reaps)
  }

  function RowsOf(ws: seq<(JobId, RowWrite)>): set<JobId> {
    set i | 0 <= i < |ws| :: ws[i].0
  }

  lemma {:induction false} CommitsEnd(s: Sys, t: Thread, ws: seq<(JobId, RowWrite)>, s': Sys, rows: set<JobId>, reaps: bool)
    requires Run(s, CommitEvents(t, ws), s') && RowsOf(ws) <= rows
    requires t in s.calls && s.calls[t].Reaping? ==> reaps
    ensures Throughout(s, CommitEvents(t, ws), s', EndSteps(t, rows, reaps))
    decreases |ws|
  {
    if ws != [] {
      assert CommitEvents(t, ws)[0] == Commit(t, ws[0].0) && CommitEvents(t, ws)[1..] == CommitEvents(t, ws[1..]);
      assert ws[0].0 in RowsOf(ws);
      forall j | j in RowsOf(ws[1..])
        ensures j in rows
      {
        var i :| 0 <= i < |ws[1..]| && ws[1..][i].0 == j;
        assert ws[i + 1].0 == j;
      }
      CommitsEnd(Do(s, Commit(t, ws[0].0)), t, ws[1..], s', rows, reaps);
    }
  }

  // The rows that the transaction ending with `e` publishes or would have published.
  function RowsEnded(p: Pg, e: PgEvent): set<JobId> {
    match e
    case Finish(t) => RowsOf(Buffered(p.store, t))
    case Violation(t, j) => {j}
    case _ => {}
  }

  lemma OneStepThroughout(s: Sys, e: Event, P: (Sys, Event) -> bool)
    requires Enabled(s, e) && P(s, e)
    ensures Run(s, [e], Do(s, e)) && Throughout(s, [e], Do(s, e), P)
  {
    OneStep(s, e);
    assert Throughout(Do(s, e), [], Do(s, e), P);
    assert [e][1..] == [];
  }

  lemma FinishEnds(p: Pg, t: Thread)
    requires PgInv(p) && PgEnabled(p, Finish(t))
    ensures Run(Abs(p), Refined(p, Finish(t)), Abs(PgDo(p, Finish(t))))
    ensures Throughout(Abs(p), Refined(p, Finish(t)), Abs(PgDo(p, Finish(t))),
                       EndSteps(t, RowsOf(Buffered(p.store, t)), p.calls[t].Reaping?))
  {
    var ws, reaps := Buffered(p.store, t), p.calls[t].Reaping?;
    FinishRefines(p, t);
    if reaps || p.calls[t].Draining? {
      var m := SweepFinish(p, t);
      CommitsEnd(Abs(p), t, ws, m, RowsOf(ws), reaps);
      OneStepThroughout(m, Return(t), EndSteps(t, RowsOf(ws), reaps));
      ThroughoutConcat(Abs(p), CommitEvents(t, ws), m, [Return(t)], Abs(PgDo(p, Finish(t))), EndSteps(t, RowsOf(ws), reaps));
    } else {
      CommitsEnd(Abs(p), t, ws, Abs(PgDo(p, Finish(t))), RowsOf(ws), reaps);
    }
  }

  /** Only the plain steps of a locking run begin calls, start handlers or report: the others end
      a transaction of their thread, on the rows that it wrote. */
  lemma LockingStepsEnd(p: Pg, e: PgEvent)
    requires PgInv(p) && PgEnabled(p, e) && !e.Plain?
    ensures Run(Abs(p), Refined(p, e), Abs(PgDo(p, e)))
    ensures Throughout(Abs(p), Refined(p, e), Abs(PgDo(p, e)), EndSteps(e.t, RowsEnded(p, e), p.calls[e.t].Reaping?))
  {
    var s, P := Abs(p), EndSteps(e.t, RowsEnded(p, e), p.calls[e.t].Reaping?);
    StepRefines(p, e);
    match e {
      case Finish(t) => FinishEnds(p, t);
      case Violation(t, j) =>
        ViolationRefines(p, t, j);
        OneStepThroughout(s, Commit(t, j), P);
      case Rollback(t) =>
        OneStepThroughout(s, Refined(p, e)[0], P);
      case Lock(t, j) =>
      case Write(t, j) =>
    }
  }

  // ---------------------------------------------------------------- retry spacing

  predicate PgStepUsesConfig(p: Pg, e: PgEvent, cfg: Config) {
    e.Plain? ==> StepUsesConfig(Abs(p), e.e, cfg)
  }

  function PgOneConfig(cfg: Config): (Pg, PgEvent) -> bool {
    (p, e) => PgStepUsesConfig(p, e, cfg)
  }

  lemma ConfigCarried(p: Pg, e: PgEvent, cfg: Config)
    ensures Carried(p, e, PgOneConfig(cfg), OneConfig(cfg))
  {
    if PgInv(p) && PgEnabled(p, e) && PgStepUsesConfig(p, e, cfg) {
      if e.Plain? {
        OneStepThroughout(Abs(p), e.e, OneConfig(cfg));
      } else {
        LockingStepsEnd(p, e);
        ThroughoutImplies(Abs(p), Refined(p, e), Abs(PgDo(p, e)),
                          EndSteps(e.t, RowsEnded(p, e), p.calls[e.t].Reaping?), OneConfig(cfg));
      }
    }
  }

  lemma ConfigCarriesOver(p0: Pg, pes: seq<PgEvent>, p: Pg, cfg: Config)
    requires PgInitial(p0) && PgRun(p0, pes, p) && PgThroughout(p0, pes, p, PgOneConfig(cfg))
    ensures Run(Abs(p0), RefinedRun(p0, pes, p), Abs(p))
    ensures Throughout(Abs(p0), RefinedRun(p0, pes, p), Abs(p), OneConfig(cfg))
  {
    forall q, e
      ensures Carried(q, e, PgOneConfig(cfg), OneConfig(cfg))
    {
      ConfigCarried(q, e, cfg);
    }
    ConditionsCarryOver(p0, pes, p, PgOneConfig(cfg), OneConfig(cfg));
  }

  /** Retry spacing over every run of locking transactions with one configuration. */
  lemma PgRetriesAreSpaced(p0: Pg, pes: seq<PgEvent>, p: Pg, cfg: Config, j: JobId, n: nat)
    requires PgInitial(p0) && PgRun(p0, pes, p) && PgThroughout(p0, pes, p, PgOneConfig(cfg))
    requires (j, n) in p.store.db.attempts && FailedAttempt(p.store.db.attempts[(j, n)])
    requires (j, n + 1) in p.grants
    ensures p.store.db.attempts[(j, n)].finishedAt + Backoff(cfg, n) <= p.grants[(j, n + 1)].lockedAt
  {
    ConfigCarriesOver(p0, pes, p, cfg);
    PgReachable(p0, pes, p);
    RetriesAreSpaced(Abs(p0), RefinedRun(p0, pes, p), Abs(p), cfg, j, n);
  }

  /** And so dead-lettering takes the sum of the waits there as well. */
  lemma PgDeadLetteringTakesTime(p0: Pg, pes: seq<PgEvent>, p: Pg, cfg: Config, j: JobId)
    requires PgInitial(p0) && PgRun(p0, pes, p) && PgThroughout(p0, pes, p, PgOneConfig(cfg))
    requires j < |p.store.db.jobs| && p.store.db.jobs[j].status == DeadLettered
    requires forall k: nat :: (j, k) in p.store.db.attempts ==> p.store.db.attempts[(j, k)].status != AttemptAbandoned
    ensures (j, 1) in p.grants && j in p.store.db.deadLetters
    ensures p.grants[(j, 1)].lockedAt + TotalBackoff(cfg, p.store.db.jobs[j].maxRetries) <=
            p.store.db.deadLetters[j].deadLetteredAt
  {
    ConfigCarriesOver(p0, pes, p, cfg);
    DeadLetteringTakesTime(Abs(p0), RefinedRun(p0, pes, p), Abs(p), cfg, j);
  }

  /** A failed job is due again at most the cap after its attempt. */
  lemma PgFailedJobsAreDueByCap(p0: Pg, pes: seq<PgEvent>, p: Pg, cfg: Config, j: JobId)
    requires PgInitial(p0) && PgRun(p0, pes, p) && PgThroughout(p0, pes, p, PgOneConfig(cfg))
    requires j < |p.store.db.jobs| && p.store.db.jobs[j].status == Queued && p.store.db.jobs[j].attemptCount > 0
    requires (j, p.store.db.jobs[j].attemptCount) in p.store.db.attempts ==>
               FailedAttempt(p.store.db.attempts[(j, p.store.db.jobs[j].attemptCount)])
    ensures (j, p.store.db.jobs[j].attemptCount) in p.store.db.attempts
    ensures forall t :: p.store.db.attempts[(j, p.store.db.jobs[j].attemptCount)].finishedAt + cfg.cap <= t ==>
              Due(p.store.db.jobs[j], t)
  {
    ConfigCarriesOver(p0, pes, p, cfg);
    FailedJobsAreDueByCap(Abs(p0), RefinedRun(p0, pes, p), Abs(p), cfg, j);
  }

  // ---------------------------------------------------------------- the transient-failure handler

  // Workers report what the handler did, and no reaper publishes an abandonment of `j`.
  predicate PgHonestStep(p: Pg, e: PgEvent, cfg: Config, j: JobId) {
    && (e.Plain? ==> HonestStep(Abs(p), e.e, cfg, j))
    && (e.Finish? && e.t in p.calls && p.calls[e.t].Reaping? ==> j !in RowsOf(Buffered(p.store, e.t)))
  }

  function PgHonest(cfg: Config, j: JobId): (Pg, PgEvent) -> bool {
    (p, e) => PgHonestStep(p, e, cfg, j)
  }

  lemma ReapersEndOthers(p: Pg, e: PgEvent, cfg: Config, j: JobId)
    requires PgInv(p) && PgEnabled(p, e) && PgHonestStep(p, e, cfg, j) && !e.Plain?
    ensures p.calls[e.t].Reaping? ==> j !in RowsEnded(p, e)
  {
    if e.Violation? {
      ViolationRefines(p, e.t, e.j);
    }
  }

  lemma EndStepsAreHonest(t: Thread, rows: set<JobId>, reaps: bool, cfg: Config, j: JobId)
    requires reaps ==> j !in rows
    ensures forall m, e :: EndSteps(t, rows, reaps)(m, e) ==> Honest(cfg, j)(m, e)
  {
  }

  lemma HonestyCarried(p: Pg, e: PgEvent, cfg: Config, j: JobId)
    ensures Carried(p, e, PgHonest(cfg, j), Honest(cfg, j))
  {
    if PgInv(p) && PgEnabled(p, e) && PgHonestStep(p, e, cfg, j) {
      if e.Plain? {
        OneStepThroughout(Abs(p), e.e, Honest(cfg, j));
      } else {
        var reaps := p.calls[e.t].Reaping?;
        LockingStepsEnd(p, e);
        ReapersEndOthers(p, e, cfg, j);
        EndStepsAreHonest(e.t, RowsEnded(p, e), reaps, cfg, j);
        ThroughoutImplies(Abs(p), Refined(p, e), Abs(PgDo(p, e)), EndSteps(e.t, RowsEnded(p, e), reaps), Honest(cfg, j));
      }
    }
  }

  /** End to end for a `fail` job, over every run of locking transactions. */
  lemma PgTransientFailureOutcome(p0: Pg, pes: seq<PgEvent>, p: Pg, cfg: Config, j: JobId)
    requires PgInitial(p0) && PgRun(p0, pes, p) && PgThroughout(p0, pes, p, PgHonest(cfg, j))
    requires j < |p.store.db.jobs| && p.store.db.jobs[j].payload.Fail?
    ensures var job := p.store.db.jobs[j];
            var k := job.payload.failuresBeforeSuccess;
            var m := job.maxRetries;
            && (job.status == Succeeded ==>
                  && k <= m && job.attemptCount == (if k > 0 then k else 0) + 1
                  && job.result == Some(Recovered(job.attemptCount)))
            && (job.status == DeadLettered ==> k > m && job.attemptCount == m + 1)
            && (forall n: nat :: (j, n) in p.store.db.attempts <==> 1 <= n <= job.attemptCount)
            && (forall n: nat :: (j, n) in p.store.db.attempts ==>
                  p.store.db.attempts[(j, n)].status == if n <= k then AttemptFailed else AttemptSucceeded)
  {
    forall q, e
      ensures Carried(q, e, PgHonest(cfg, j), Honest(cfg, j))
    {
      HonestyCarried(q, e, cfg, j);
    }
    ConditionsCarryOver(p0, pes, p, PgHonest(cfg, j), Honest(cfg, j));
    TransientFailureOutcome(Abs(p0), RefinedRun(p0, pes, p), Abs(p), cfg, j);
  }

  // ---------------------------------------------------------------- leases

  /** Thread `t` neither ends a transaction nor dies, except that mark_succeeded may be rolled
      back, and every reaper that begins uses the configured grace. */
  predicate PgRespectsLease(p: Pg, e: PgEvent, t: Thread, grace: nat) {
    match e
    case Plain(e0) => History.LeaseRespected(t, grace)(Abs(p), e0)
    case Finish(u) => u != t
    case Violation(u, _) => u != t
    case Rollback(u) => u == t ==> t in p.calls && p.calls[t].Finishing? && p.calls[t].verdict.Returned?
    case _ => true
  }

  function PgLeaseRespected(t: Thread, grace: nat): (Pg, PgEvent) -> bool {
    (p, e) => PgRespectsLease(p, e, t, grace)
  }

  lemma LeaseCarried(p: Pg, e: PgEvent, t: Thread, grace: nat)
    ensures Carried(p, e, PgLeaseRespected(t, grace), History.LeaseRespected(t, grace))
  {
    if PgInv(p) && PgEnabled(p, e) && PgRespectsLease(p, e, t, grace) {
      if e.Plain? {
        OneStepThroughout(Abs(p), e.e, History.LeaseRespected(t, grace));
      } else if e.t == t {
        StepRefines(p, e);
        if e.Rollback? {
          OneStepThroughout(Abs(p), Interrupt(t), History.LeaseRespected(t, grace));
        }
      } else {
        LockingStepsEnd(p, e);
        ThroughoutImplies(Abs(p), Refined(p, e), Abs(PgDo(p, e)),
                          EndSteps(e.t, RowsEnded(p, e), p.calls[e.t].Reaping?), History.LeaseRespected(t, grace));
      }
    }
  }

  /** A lease outlives every run of locking transactions up to its deadline, so a completion that
      locks its row by then finds its claim current. */
  lemma PgInTimeCompletionWins(p: Pg, pes: seq<PgEvent>, p': Pg, t: Thread, tok: Token, at: Time, grace: nat)
    requires PgInv(p) && History.HoldsLease(Abs(p), t, tok, at) && History.ReapersUse(Abs(p), grace)
    requires PgRun(p, pes, p') && PgThroughout(p, pes, p', PgLeaseRespected(t, grace))
    requires p'.clock <= at + p.store.db.jobs[tok.job].timeout + grace
    ensures History.HoldsLease(Abs(p'), t, tok, at)
  {
    forall q, e
      ensures Carried(q, e, PgLeaseRespected(t, grace), History.LeaseRespected(t, grace))
    {
      LeaseCarried(q, e, t, grace);
    }
    ConditionsCarryOver(p, pes, p', PgLeaseRespected(t, grace), History.LeaseRespected(t, grace));
    History.InTimeCompletionWins(Abs(p), RefinedRun(p, pes, p'), Abs(p'), t, tok, at, grace);
  }

  predicate PgGraceStep(p: Pg, e: PgEvent, grace: nat) {
    e.Plain? ==> Abandonment.GraceStep(Abs(p), e.e, grace)
  }

  function PgOneGrace(grace: nat): (Pg, PgEvent) -> bool {
    (p, e) => PgGraceStep(p, e, grace)
  }

  lemma GraceCarried(p: Pg, e: PgEvent, grace: nat)
    ensures Carried(p, e, PgOneGrace(grace), Abandonment.OneGrace(grace))
  {
    if PgInv(p) && PgEnabled(p, e) && PgGraceStep(p, e, grace) {
      if e.Plain? {
        OneStepThroughout(Abs(p), e.e, Abandonment.OneGrace(grace));
      } else {
        LockingStepsEnd(p, e);
        ThroughoutImplies(Abs(p), Refined(p, e), Abs(PgDo(p, e)),
                          EndSteps(e.t, RowsEnded(p, e), p.calls[e.t].Reaping?), Abandonment.OneGrace(grace));
      }
    }
  }

  /** No attempt is abandoned before its lease has expired. */
  lemma PgAbandonedAttemptsAreLate(p0: Pg, pes: seq<PgEvent>, p: Pg, grace: nat, j: JobId, n: nat)
    requires PgInitial(p0) && PgRun(p0, pes, p) && PgThroughout(p0, pes, p, PgOneGrace(grace))
    requires j < |p.store.db.jobs| && (j, n) in p.store.db.attempts
    requires p.store.db.attempts[(j, n)].status == AttemptAbandoned
    ensures (j, n) in p.grants && p.store.db.attempts[(j, n)].startedAt == p.grants[(j, n)].lockedAt
    ensures p.grants[(j, n)].lockedAt + p.store.db.jobs[j].timeout + grace < p.store.db.attempts[(j, n)].finishedAt
  {
    forall q, e
      ensures Carried(q, e, PgOneGrace(grace), Abandonment.OneGrace(grace))
    {
      GraceCarried(q, e, grace);
    }
    ConditionsCarryOver(p0, pes, p, PgOneGrace(grace), Abandonment.OneGrace(grace));
    Abandonment.AbandonedAttemptsAreLate(Abs(p0), RefinedRun(p0, pes, p), Abs(p), grace, j, n);
  }

  // ---------------------------------------------------------------- claim numbers

  // The COMMIT of a claim that has written row `j`.
  predicate CommitsClaim(p: Pg, t: Thread, j: JobId) {
    PgEnabled(p, Finish(t)) && p.calls[t].Claiming? && Buffered(p.store, t)[0].0 == j
  }

  /** Of two committed claims of one job the later has the larger attempt number, whatever
      transactions run, wait and abort between them. */
  lemma PgClaimsNeverRepeat(p: Pg, t: Thread, j: JobId, pes: seq<PgEvent>, p': Pg, u: Thread)
    requires PgInv(p) && CommitsClaim(p, t, j)
    requires PgRun(PgDo(p, Finish(t)), pes, p') && CommitsClaim(p', u, j)
    ensures PgDo(p, Finish(t)).calls[t].token.attemptNo < PgDo(p', Finish(u)).calls[u].token.attemptNo
  {
    var m := PgDo(p, Finish(t));
    OneRowFinish(p, t);
    StepKeepsPgInv(p, Finish(t));
    PgRefinesProtocol(m, pes, p');
    OneRowFinish(p', u);
    History.ClaimsNeverRepeat(Abs(p), t, j, RefinedRun(m, pes, p'), Abs(p'), u);
  }
}
