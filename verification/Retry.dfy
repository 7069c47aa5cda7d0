/**
 Exponential backoff between attempts, and the outcome of the transient-failure handler, over
 whole runs of the protocol.
 */
module Retry {
  import opened Tables
  import opened Protocol
  import Handler

  // The two backoff settings, in microseconds; both are positive in every configuration.
  datatype Config = Config(base: nat, cap: nat)

  function Pow2(n: nat): nat {
    if n == 0 then 1 else 2 * Pow2(n - 1)
  }

  function Min(a: nat, b: nat): nat {
    if a <= b then a else b
  }

  // min(base * 2 ** max(attempt_no - 1, 0), max)
  function Backoff(cfg: Config, attemptNo: nat): nat {
    Min(cfg.base * Pow2(if attemptNo == 0 then 0 else attemptNo - 1), cfg.cap)
  }

  // The waits after attempts 1..n.
  function TotalBackoff(cfg: Config, n: nat): nat {
    if n == 0 then 0 else TotalBackoff(cfg, n - 1) + Backoff(cfg, n)
  }

  lemma MulMonotone(a: nat, x: nat, y: nat)
    requires x <= y
    ensures a * x <= a * y
  {
  }

  // The waits never get shorter, whether or not the cap has been reached.
  lemma {:induction false} BackoffMonotone(cfg: Config, k: nat, m: nat)
    requires k <= m
    ensures Backoff(cfg, k) <= Backoff(cfg, m)
    decreases m
  {
    if k < m {
      BackoffMonotone(cfg, k, m - 1);
      if m >= 2 {
        MulMonotone(cfg.base, Pow2(m - 2), Pow2(m - 1));
      }
    }
  }

  /** The waits double from one attempt to the next until they reach the cap, which none exceeds;
      a number below the first counts as the first. */
  lemma BackoffDoubles(cfg: Config, n: nat)
    ensures Backoff(cfg, n) <= cfg.cap
    ensures Backoff(cfg, 0) == Backoff(cfg, 1) == if cfg.base <= cfg.cap then cfg.base else cfg.cap
    ensures n >= 1 ==> Backoff(cfg, n + 1) == if 2 * Backoff(cfg, n) <= cfg.cap then 2 * Backoff(cfg, n) else cfg.cap
  {
    assert Pow2(0) == 1;
    if n >= 1 {
      assert Pow2(n) == 2 * Pow2(n - 1);
      assert cfg.base * Pow2(n) == 2 * (cfg.base * Pow2(n - 1));
    }
  }

  // The exponential reaches the cap at attempt `c` and not before.
  predicate ReachesCapAt(cfg: Config, c: nat) {
    && 1 <= c && cfg.cap <= cfg.base * Pow2(c - 1)
    && (c == 1 || cfg.base * Pow2(c - 2) <= cfg.cap)
  }

  /** From the attempt on at which the exponential reaches the cap, every wait is the cap. */
  lemma BackoffStaysAtCap(cfg: Config, c: nat, n: nat)
    requires ReachesCapAt(cfg, c) && c <= n
    ensures Backoff(cfg, n) == cfg.cap
  {
    BackoffMonotone(cfg, c, n);
  }

  lemma {:induction false} CapIsReached(cfg: Config, c: nat) returns (first: nat)
    requires cfg.base > 0 && (c == 0 || cfg.base * Pow2(c - 1) <= cfg.cap)
    ensures ReachesCapAt(cfg, first)
    decreases cfg.cap - c
  {
    if cfg.cap <= cfg.base * Pow2(c) {
      first := c + 1;
    } else {
      PowerExceeds(c);
      MulMonotone(Pow2(c), 1, cfg.base);
      first := CapIsReached(cfg, c + 1);
    }
  }

  lemma {:induction false} PowerExceeds(n: nat)
    ensures n < Pow2(n)
  {
    if n > 0 {
      PowerExceeds(n - 1);
    }
  }

  lemma SumOfWaits(base: nat, p: nat)
    ensures (p - 1) * base + base * p == (2 * p - 1) * base
  {
  }

  /** As long as the cap is not reached the waits add up to a geometric sum. */
  lemma {:induction false} TotalBackoffClosedForm(cfg: Config, n: nat)
    requires n == 0 || cfg.base * Pow2(n - 1) <= cfg.cap
    ensures TotalBackoff(cfg, n) == (Pow2(n) - 1) * cfg.base
  {
    if n > 0 {
      if n > 1 {
        MulMonotone(cfg.base, Pow2(n - 2), Pow2(n - 1));
      }
      TotalBackoffClosedForm(cfg, n - 1);
      assert Backoff(cfg, n) == cfg.base * Pow2(n - 1);
      SumOfWaits(cfg.base, Pow2(n - 1));
    }
  }

  lemma OneMoreWait(k: nat, cap: nat)
    ensures k * cap + cap == (k + 1) * cap
  {
  }

  // `k` waits at the cap.
  lemma {:induction false} WaitsAtCap(cfg: Config, c: nat, k: nat)
    requires ReachesCapAt(cfg, c)
    ensures TotalBackoff(cfg, c - 1 + k) == TotalBackoff(cfg, c - 1) + k * cfg.cap
  {
    if k > 0 {
      WaitsAtCap(cfg, c, k - 1);
      BackoffStaysAtCap(cfg, c, c - 1 + k);
      OneMoreWait(k - 1, cfg.cap);
    }
  }

  /** Once the cap has been reached on the way, each further wait adds the cap. */
  lemma TotalBackoffAfterCap(cfg: Config, c: nat, n: nat)
    requires ReachesCapAt(cfg, c) && c - 1 <= n
    ensures TotalBackoff(cfg, n) == (Pow2(c - 1) - 1) * cfg.base + (n - c + 1) * cfg.cap
  {
    WaitsAtCap(cfg, c, n - (c - 1));
    TotalBackoffClosedForm(cfg, c - 1);
  }

  // ---------------------------------------------------------------- spacing

  // _record_failure computes the backoff from the configuration and the attempt number.
  predicate UsesConfig(cfg: Config, tok: Token, verdict: Verdict) {
    verdict.Raised? ==> verdict.backoff == Backoff(cfg, tok.attemptNo)
  }

  predicate FailedAttempt(a: Attempt) {
    a.status == AttemptFailed || a.status == AttemptTimedOut
  }

  ghost predicate RowSpaced(s: Sys, cfg: Config, j: JobId)
    requires j < |s.db.jobs|
  {
    var job := s.db.jobs[j];
    && (job.status == Queued && (j, job.attemptCount) in s.db.attempts && FailedAttempt(s.db.attempts[(j, job.attemptCount)]) ==>
          s.db.attempts[(j, job.attemptCount)].finishedAt + Backoff(cfg, job.attemptCount) == job.runAt)
    && (forall n: nat :: (j, n) in s.db.attempts && FailedAttempt(s.db.attempts[(j, n)]) && (j, n + 1) in s.grants ==>
          s.db.attempts[(j, n)].finishedAt + Backoff(cfg, n) <= s.grants[(j, n + 1)].lockedAt)
  }

  ghost predicate Spaced(s: Sys, cfg: Config) {
    && (forall j :: 0 <= j < |s.db.jobs| ==> RowSpaced(s, cfg, j))
    && (forall t :: t in s.calls && s.calls[t].Finishing? ==> UsesConfig(cfg, s.calls[t].token, s.calls[t].verdict))
  }

  predicate StepUsesConfig(s: Sys, e: Event, cfg: Config) {
    Enabled(s, e) && (e.Report? ==> UsesConfig(cfg, s.calls[e.t].token, e.verdict))
  }

  lemma ClaimKeepsRowSpaced(s: Sys, t: Thread, j: JobId, cfg: Config)
    requires Inv(s) && Spaced(s, cfg) && Enabled(s, Commit(t, j)) && s.calls[t].Claiming?
    ensures RowSpaced(Do(s, Commit(t, j)), cfg, j)
  {
    var s' := Do(s, Commit(t, j));
    var job := s.db.jobs[j];
    assert JobOk(s.db, j) && RowSpaced(s, cfg, j);
    assert s'.db.attempts == s.db.attempts;
    forall n: nat | (j, n) in s'.db.attempts && FailedAttempt(s'.db.attempts[(j, n)]) && (j, n + 1) in s'.grants
      ensures s'.db.attempts[(j, n)].finishedAt + Backoff(cfg, n) <= s'.grants[(j, n + 1)].lockedAt
    {
      if n < job.attemptCount {
        assert (j, n + 1) in s.grants;
      }
    }
  }

  lemma CloseKeepsRowSpaced(s: Sys, s': Sys, j: JobId, op: Op, cfg: Config)
    requires Inv(s) && j < |s.db.jobs| && RowSpaced(s, cfg, j)
    requires Guard(s.db.jobs[j], op) && Current(s.db.jobs[j], op) && !op.ClaimOp?
    requires op.ReapOp? ==> s.db.jobs[j].lockedAt.Some?
    requires op.FailOp? ==> op.backoff == Backoff(cfg, op.attemptNo)
    requires s'.db == Install(s.db, j, WriteOf(s.db.jobs[j], op)) && s'.grants == s.grants
    ensures RowSpaced(s', cfg, j)
  {
    assert JobOk(s.db, j) && GrantsOk(s, j);
    forall n: nat | (j, n) in s'.db.attempts && FailedAttempt(s'.db.attempts[(j, n)]) && (j, n + 1) in s'.grants
      ensures s'.db.attempts[(j, n)].finishedAt + Backoff(cfg, n) <= s'.grants[(j, n + 1)].lockedAt
    {
      assert (j, n) in s.db.attempts;
    }
  }

  lemma CommitKeepsRowSpaced(s: Sys, t: Thread, j: JobId, cfg: Config)
    requires Inv(s) && Spaced(s, cfg) && Enabled(s, Commit(t, j))
    requires Execute(s.db, j, OpOf(s.calls[t]).value).Applied?
    ensures RowSpaced(Do(s, Commit(t, j)), cfg, j)
  {
    CommitIsCurrent(s, t, j);
    assert JobOk(s.db, j);
    if s.calls[t].Claiming? {
      ClaimKeepsRowSpaced(s, t, j, cfg);
    } else {
      CloseKeepsRowSpaced(s, Do(s, Commit(t, j)), j, OpOf(s.calls[t]).value, cfg);
    }
  }

  lemma OtherRowsStaySpaced(s: Sys, e: Event, cfg: Config, i: JobId)
    requires Inv(s) && Spaced(s, cfg) && Enabled(s, e)
    requires i < |s.db.jobs| && (e.Commit? ==> i != e.j || !Execute(s.db, e.j, OpOf(s.calls[e.t]).value).Applied?)
    ensures i < |Do(s, e).db.jobs| && RowSpaced(Do(s, e), cfg, i)
  {
    var s' := Do(s, e);
    assert RowSpaced(s, cfg, i);
    assert s'.db.jobs[i] == s.db.jobs[i];
    assert forall n: nat {:trigger (i, n) in s'.grants} ::
        (i, n) in s'.grants ==> (i, n) in s.grants && s'.grants[(i, n)] == s.grants[(i, n)];
    assert forall n: nat {:trigger (i, n) in s'.db.attempts} ::
        (i, n) in s'.db.attempts ==> (i, n) in s.db.attempts && s'.db.attempts[(i, n)] == s.db.attempts[(i, n)];
  }

  lemma StepKeepsSpaced(s: Sys, e: Event, cfg: Config)
    requires Inv(s) && Spaced(s, cfg) && Enabled(s, e) && StepUsesConfig(s, e, cfg)
    ensures Spaced(Do(s, e), cfg)
  {
    var s' := Do(s, e);
    forall i | 0 <= i < |s'.db.jobs|
      ensures RowSpaced(s', cfg, i)
    {
      if e.Commit? && i == e.j && Execute(s.db, e.j, OpOf(s.calls[e.t]).value).Applied? {
        CommitKeepsRowSpaced(s, e.t, e.j, cfg);
      } else if i < |s.db.jobs| {
        OtherRowsStaySpaced(s, e, cfg, i);
      }
    }
  }

  function OneConfig(cfg: Config): (Sys, Event) -> bool {
    (s, e) => StepUsesConfig(s, e, cfg)
  }

  lemma {:induction false} RunKeepsSpaced(s: Sys, es: seq<Event>, s': Sys, cfg: Config)
    requires Inv(s) && Spaced(s, cfg) && Run(s, es, s') && Throughout(s, es, s', OneConfig(cfg))
    ensures Spaced(s', cfg) && Inv(s')
    decreases |es|
  {
    if es != [] {
      StepKeepsInv(s, es[0]);
      StepKeepsSpaced(s, es[0], cfg);
      RunKeepsSpaced(Do(s, es[0]), es[1..], s', cfg);
    }
  }

  /** Retry spacing: in every run with one configuration, attempt n + 1 of a job is claimed no
      earlier than the end of its failed attempt n plus the backoff of n. */
  lemma RetriesAreSpaced(s0: Sys, es: seq<Event>, s: Sys, cfg: Config, j: JobId, n: nat)
    requires Initial(s0) && Run(s0, es, s) && Throughout(s0, es, s, OneConfig(cfg))
    requires j < |s.db.jobs| && (j, n) in s.db.attempts && FailedAttempt(s.db.attempts[(j, n)])
    requires (j, n + 1) in s.grants
    ensures s.db.attempts[(j, n)].finishedAt + Backoff(cfg, n) <= s.grants[(j, n + 1)].lockedAt
  {
    RunKeepsSpaced(s0, es, s, cfg);
    assert RowSpaced(s, cfg, j);
  }

  /** A failed job waits no longer than the cap: in every run with one configuration a queued job
      whose last attempt failed is due exactly its backoff after that attempt's end. */
  lemma FailedJobsAreDueByCap(s0: Sys, es: seq<Event>, s: Sys, cfg: Config, j: JobId)
    requires Initial(s0) && Run(s0, es, s) && Throughout(s0, es, s, OneConfig(cfg))
    requires j < |s.db.jobs| && s.db.jobs[j].status == Queued && s.db.jobs[j].attemptCount > 0
    requires (j, s.db.jobs[j].attemptCount) in s.db.attempts ==> FailedAttempt(s.db.attempts[(j, s.db.jobs[j].attemptCount)])
    ensures (j, s.db.jobs[j].attemptCount) in s.db.attempts
    ensures var end := s.db.attempts[(j, s.db.jobs[j].attemptCount)].finishedAt;
            && s.db.jobs[j].runAt == end + Backoff(cfg, s.db.jobs[j].attemptCount)
            && forall t :: end + cfg.cap <= t ==> Due(s.db.jobs[j], t)
  {
    RunKeepsSpaced(s0, es, s, cfg);
    assert JobOk(s.db, j) && RowSpaced(s, cfg, j);
    BackoffDoubles(cfg, s.db.jobs[j].attemptCount);
  }

  lemma {:induction false} ClaimsAreSpaced(s: Sys, cfg: Config, j: JobId, n: nat)
    requires Inv(s) && Spaced(s, cfg) && j < |s.db.jobs|
    requires 1 <= n && (j, n) in s.grants
    requires forall k: nat :: (j, k) in s.db.attempts && k < n ==> FailedAttempt(s.db.attempts[(j, k)])
    ensures (j, 1) in s.grants
    ensures s.grants[(j, 1)].lockedAt + TotalBackoff(cfg, n - 1) <= s.grants[(j, n)].lockedAt
    decreases n
  {
    assert JobOk(s.db, j) && GrantsOk(s, j) && TimesOk(s, j) && RowSpaced(s, cfg, j);
    if n > 1 {
      ClaimsAreSpaced(s, cfg, j, n - 1);
      assert (j, n - 1) in s.db.attempts && (j, (n - 1) + 1) in s.grants;
    }
  }

  /** A job without abandoned attempts is dead-lettered no earlier than all its waits after its
      first claim: with the cap out of reach that is (2^max_retries - 1) * base. */
  lemma DeadLetteringTakesTime(s0: Sys, es: seq<Event>, s: Sys, cfg: Config, j: JobId)
    requires Initial(s0) && Run(s0, es, s) && Throughout(s0, es, s, OneConfig(cfg))
    requires j < |s.db.jobs| && s.db.jobs[j].status == DeadLettered
    requires forall k: nat :: (j, k) in s.db.attempts ==> s.db.attempts[(j, k)].status != AttemptAbandoned
    ensures (j, 1) in s.grants && j in s.db.deadLetters
    ensures var m := s.db.jobs[j].maxRetries;
            && s.grants[(j, 1)].lockedAt + TotalBackoff(cfg, m) <= s.db.deadLetters[j].deadLetteredAt
            && (m == 0 || cfg.base * Pow2(m - 1) <= cfg.cap ==>
                  s.grants[(j, 1)].lockedAt + (Pow2(m) - 1) * cfg.base <= s.db.deadLetters[j].deadLetteredAt)
  {
    RunKeepsSpaced(s0, es, s, cfg);
    assert JobOk(s.db, j) && GrantsOk(s, j) && TimesOk(s, j);
    var m := s.db.jobs[j].maxRetries;
    assert (j, m + 1) in s.db.attempts;
    assert forall k: nat :: (j, k) in s.db.attempts ==> FailedAttempt(s.db.attempts[(j, k)]);
    ClaimsAreSpaced(s, cfg, j, m + 1);
    if m == 0 || cfg.base * Pow2(m - 1) <= cfg.cap {
      TotalBackoffClosedForm(cfg, m);
    }
  }

  /** With the cap reached at attempt c it comes no earlier than (2^(c - 1) - 1) * base plus the cap
      for every further retry after the first claim. */
  lemma CappedDeadLetteringTakesTime(s0: Sys, es: seq<Event>, s: Sys, cfg: Config, j: JobId, c: nat)
    requires Initial(s0) && Run(s0, es, s) && Throughout(s0, es, s, OneConfig(cfg))
    requires j < |s.db.jobs| && s.db.jobs[j].status == DeadLettered
    requires forall k: nat :: (j, k) in s.db.attempts ==> s.db.attempts[(j, k)].status != AttemptAbandoned
    requires ReachesCapAt(cfg, c) && c <= s.db.jobs[j].maxRetries + 1
    ensures (j, 1) in s.grants && j in s.db.deadLetters
    ensures s.grants[(j, 1)].lockedAt + (Pow2(c - 1) - 1) * cfg.base + (s.db.jobs[j].maxRetries - c + 1) * cfg.cap <=
            s.db.deadLetters[j].deadLetteredAt
  {
    DeadLetteringTakesTime(s0, es, s, cfg, j);
    TotalBackoffAfterCap(cfg, c, s.db.jobs[j].maxRetries);
  }

  // ---------------------------------------------------------------- the transient-failure handler

  // What process_one reports when the attempt neither times out nor crashes.
  function VerdictOf(cfg: Config, payload: Payload, attemptNo: nat): Verdict {
    match Handler.ExecuteJob(payload, attemptNo)
    case Done(result) => Returned(result)
    case JobExecutionError(message) => Raised(message, false, Backoff(cfg, attemptNo))
  }

  /** Workers report what the handler did, and job `j` is never abandoned. So this leaves out
      timeouts, crashes, and database errors in mark_succeeded, which are reported as failures. */
  predicate HonestStep(s: Sys, e: Event, cfg: Config, j: JobId) {
    && Enabled(s, e)
    && (e.Report? && s.calls[e.t].token.job == j ==>
          e.verdict == VerdictOf(cfg, s.calls[e.t].token.payload, s.calls[e.t].token.attemptNo))
    && (e.Commit? && e.j == j ==> !s.calls[e.t].Reaping?)
  }

  function Honest(cfg: Config, j: JobId): (Sys, Event) -> bool {
    (s, e) => HonestStep(s, e, cfg, j)
  }

  // Attempt n of the job is recorded as what the handler does on attempt n.
  predicate Matches(a: Attempt, payload: Payload, n: nat) {
    match Handler.ExecuteJob(payload, n)
    case Done(_) => a.status == AttemptSucceeded && a.error == None
    case JobExecutionError(message) => a.status == AttemptFailed && a.error == Some(message)
  }

  ghost predicate LogMatches(s: Sys, cfg: Config, j: JobId) {
    && (j < |s.db.jobs| ==>
          && (forall n: nat :: (j, n) in s.db.attempts ==> Matches(s.db.attempts[(j, n)], s.db.jobs[j].payload, n))
          && (s.db.jobs[j].status == Succeeded ==>
                var done := Handler.ExecuteJob(s.db.jobs[j].payload, s.db.jobs[j].attemptCount);
                done.Done? && s.db.jobs[j].result == Some(done.result)))
    && (forall t :: t in s.calls && s.calls[t].Finishing? && s.calls[t].token.job == j ==>
          s.calls[t].verdict == VerdictOf(cfg, s.calls[t].token.payload, s.calls[t].token.attemptNo))
  }

  lemma CommitKeepsMatch(s: Sys, t: Thread, i: JobId, cfg: Config, j: JobId)
    requires Inv(s) && LogMatches(s, cfg, j) && Enabled(s, Commit(t, i)) && HonestStep(s, Commit(t, i), cfg, j)
    ensures LogMatches(Do(s, Commit(t, i)), cfg, j)
  {
    if Execute(s.db, i, OpOf(s.calls[t]).value).Applied? {
      CommitIsCurrent(s, t, i);
    }
  }

  lemma StepKeepsMatch(s: Sys, e: Event, cfg: Config, j: JobId)
    requires Inv(s) && LogMatches(s, cfg, j) && Enabled(s, e) && HonestStep(s, e, cfg, j)
    ensures LogMatches(Do(s, e), cfg, j)
  {
    if e.Commit? {
      CommitKeepsMatch(s, e.t, e.j, cfg, j);
    }
  }

  lemma {:induction false} RunKeepsMatch(s: Sys, es: seq<Event>, s': Sys, cfg: Config, j: JobId)
    requires Inv(s) && LogMatches(s, cfg, j) && Run(s, es, s') && Throughout(s, es, s', Honest(cfg, j))
    ensures LogMatches(s', cfg, j) && Inv(s')
    decreases |es|
  {
    if es != [] {
      StepKeepsInv(s, es[0]);
      StepKeepsMatch(s, es[0], cfg, j);
      RunKeepsMatch(Do(s, es[0]), es[1..], s', cfg, j);
    }
  }

  /** End to end: a `fail` job with k failures and m retries, worked by any threads in any
      interleaving but without timeouts, crashes or database errors, can only end succeeded after max(k, 0) + 1
      attempts, when k <= m, or dead-lettered after m + 1 attempts, when k > m; its log shows
      exactly those attempts, all failed but a successful last one. */
  lemma TransientFailureOutcome(s0: Sys, es: seq<Event>, s: Sys, cfg: Config, j: JobId)
    requires Initial(s0) && Run(s0, es, s) && Throughout(s0, es, s, Honest(cfg, j))
    requires j < |s.db.jobs| && s.db.jobs[j].payload.Fail?
    ensures var job := s.db.jobs[j];
            var k := job.payload.failuresBeforeSuccess;
            var m := job.maxRetries;
            && (job.status == Succeeded ==>
                  && k <= m
                  && job.attemptCount == (if k > 0 then k else 0) + 1
                  && job.result == Some(Recovered(job.attemptCount)))
            && (job.status == DeadLettered ==> k > m && job.attemptCount == m + 1)
            && (forall n: nat :: (j, n) in s.db.attempts <==> 1 <= n <= job.attemptCount)
            && (forall n: nat :: (j, n) in s.db.attempts ==>
                  s.db.attempts[(j, n)].status == if n <= k then AttemptFailed else AttemptSucceeded)
  {
    RunKeepsMatch(s0, es, s, cfg, j);
    assert JobOk(s.db, j);
    var job := s.db.jobs[j];
    if job.status == Succeeded && job.attemptCount > 1 {
      assert (j, job.attemptCount - 1) in s.db.attempts;
    }
    if job.status == DeadLettered {
      assert (j, job.attemptCount) in s.db.attempts;
    }
  }
}
