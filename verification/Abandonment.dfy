/**
 Abandoned attempts over whole runs: with one lease grace, none is logged before its deadline.
 */
module Abandonment {
  import opened Tables
  import opened Protocol
  import opened History

  predicate GraceStep(s: Sys, e: Event, grace: nat) {
    Enabled(s, e) && (e.Begin? && e.call.Reaping? ==> e.call.grace == grace)
  }

  // Every reaper uses the configured grace.
  function OneGrace(grace: nat): (Sys, Event) -> bool {
    (s, e) => GraceStep(s, e, grace)
  }

  ghost predicate RowLate(s: Sys, grace: nat, j: JobId)
    requires j < |s.db.jobs|
  {
    forall n: nat :: (j, n) in s.db.attempts && s.db.attempts[(j, n)].status == AttemptAbandoned ==>
      && (j, n) in s.grants
      && s.db.attempts[(j, n)].startedAt == s.grants[(j, n)].lockedAt
      && s.grants[(j, n)].lockedAt + s.db.jobs[j].timeout + grace < s.db.attempts[(j, n)].finishedAt
  }

  ghost predicate AllLate(s: Sys, grace: nat) {
    && ReapersUse(s, grace)
    && (forall j :: 0 <= j < |s.db.jobs| ==> RowLate(s, grace, j))
  }

  // A reaper records the lease, which is the latest claim.
  lemma ReapKeepsLate(s: Sys, t: Thread, j: JobId, grace: nat)
    requires Inv(s) && AllLate(s, grace) && Enabled(s, Commit(t, j)) && s.calls[t].Reaping?
    ensures RowLate(Do(s, Commit(t, j)), grace, j)
  {
    AbandonmentIsRecorded(s, t, j);
    assert GrantsOk(s, j) && RowLate(s, grace, j);
  }

  // No other step records an abandoned attempt.
  lemma CommitKeepsLate(s: Sys, t: Thread, j: JobId, grace: nat)
    requires Inv(s) && AllLate(s, grace) && Enabled(s, Commit(t, j)) && !s.calls[t].Reaping?
    requires Execute(s.db, j, OpOf(s.calls[t]).value).Applied?
    ensures RowLate(Do(s, Commit(t, j)), grace, j)
  {
    var w := WriteOf(s.db.jobs[j], OpOf(s.calls[t]).value);
    assert w.attempt.Some? ==> w.attempt.value.1.status != AttemptAbandoned;
    assert w.job.timeout == s.db.jobs[j].timeout;
    assert GrantsOk(s, j) && RowLate(s, grace, j);
  }

  lemma OtherRowStaysLate(s: Sys, e: Event, grace: nat, i: JobId)
    requires Inv(s) && AllLate(s, grace) && Enabled(s, e) && i < |s.db.jobs|
    requires e.Commit? ==> i != e.j || !Execute(s.db, e.j, OpOf(s.calls[e.t]).value).Applied?
    ensures i < |Do(s, e).db.jobs| && RowLate(Do(s, e), grace, i)
  {
    assert RowLate(s, grace, i);
    if e.Commit? && s.calls[e.t].Claiming? {
      assert GrantsOk(s, e.j);
    }
  }

  lemma StepKeepsLate(s: Sys, e: Event, grace: nat)
    requires Inv(s) && AllLate(s, grace) && GraceStep(s, e, grace)
    ensures AllLate(Do(s, e), grace)
  {
    var s' := Do(s, e);
    forall i | 0 <= i < |s'.db.jobs|
      ensures RowLate(s', grace, i)
    {
      if e.Commit? && i == e.j && Execute(s.db, e.j, OpOf(s.calls[e.t]).value).Applied? {
        if s.calls[e.t].Reaping? {
          ReapKeepsLate(s, e.t, e.j, grace);
        } else {
          CommitKeepsLate(s, e.t, e.j, grace);
        }
      } else if i < |s.db.jobs| {
        OtherRowStaysLate(s, e, grace, i);
      } else {
        NewRowHasNoLog(s, e, i);
      }
    }
  }

  lemma NewRowHasNoLog(s: Sys, e: Event, i: JobId)
    requires Inv(s) && Enabled(s, e) && |s.db.jobs| <= i < |Do(s, e).db.jobs|
    ensures forall n: nat :: (i, n) !in Do(s, e).db.attempts
  {
  }

  lemma {:induction false} RunKeepsLate(s: Sys, es: seq<Event>, s': Sys, grace: nat)
    requires Inv(s) && AllLate(s, grace) && Run(s, es, s') && Throughout(s, es, s', OneGrace(grace))
    ensures AllLate(s', grace)
    decreases |es|
  {
    if es != [] {
      StepKeepsInv(s, es[0]);
      StepKeepsLate(s, es[0], grace);
      RunKeepsLate(Do(s, es[0]), es[1..], s', grace);
    }
  }

  /** No attempt is abandoned early: in every run with one grace, an abandoned attempt is logged from
      its claim to an end later than its claim plus the timeout plus the grace. */
  lemma AbandonedAttemptsAreLate(s0: Sys, es: seq<Event>, s: Sys, grace: nat, j: JobId, n: nat)
    requires Initial(s0) && Run(s0, es, s) && Throughout(s0, es, s, OneGrace(grace))
    requires j < |s.db.jobs| && (j, n) in s.db.attempts && s.db.attempts[(j, n)].status == AttemptAbandoned
    ensures (j, n) in s.grants && s.db.attempts[(j, n)].workerId == s.grants[(j, n)].worker
    ensures s.db.attempts[(j, n)].startedAt == s.grants[(j, n)].lockedAt
    ensures s.grants[(j, n)].lockedAt + s.db.jobs[j].timeout + grace < s.db.attempts[(j, n)].finishedAt <= s.clock
  {
    RunKeepsLate(s0, es, s, grace);
    RunKeepsInv(s0, es, s);
    assert TimesOk(s, j) && RowLate(s, grace, j);
  }
}
