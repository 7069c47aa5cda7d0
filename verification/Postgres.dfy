/**
 The PostgreSQL repository as concurrent transactions with row locks, and its refinement of
 the row-step protocol.
 */
module Postgres {
  import opened Tables
  import opened Protocol
  import opened RowLocks

  // The store, and beside it the threads with their clock and the history of claims.
  datatype Pg = Pg(store: Store, clock: Time, grants: map<(JobId, nat), Grant>, calls: map<Thread, Call>)

  // What the protocol sees: the committed tables.
  function Abs(p: Pg): Sys {
    Sys(p.store.db, p.clock, p.grants, p.calls)
  }

  datatype PgEvent =
    | Plain(e: Event)
    | Lock(t: Thread, j: JobId)
    | Write(t: Thread, j: JobId)
    | Finish(t: Thread)
    | Violation(t: Thread, j: JobId)
    | Rollback(t: Thread)

  // ---------------------------------------------------------------- steps

  // FOR UPDATE SKIP LOCKED takes the first row that is not locked: every due row that comes
  // before `j` is locked at this moment.
  predicate FirstUnlocked(st: Store, now: Time, j: JobId) {
    && j < |st.db.jobs| && j !in st.locks && Due(st.db.jobs[j], now)
    && forall k :: 0 <= k < |st.db.jobs| && Due(st.db.jobs[k], now) && Before(st.db.jobs[k], st.db.jobs[j]) ==>
         k in st.locks
  }

  /** The row test under which each transaction gets a row lock. A guarded UPDATE waits for the
      lock and tests its WHERE clause on the version it then finds. */
  predicate RowTest(db: Db, call: Call, j: JobId) {
    && j < |db.jobs|
    && match call
       case Claiming(_, now) => Due(db.jobs[j], now)
       case Finishing(tok, _, _, _) => j == tok.job && HeldBy(db.jobs[j], tok.worker)
       case Reaping(_, _) => db.jobs[j].status == Running && db.jobs[j].lockedAt.Some?
       case Cancelling(target, _) => j == target && db.jobs[j].status == Queued
       case Draining(_) => db.jobs[j].status == Queued
       case _ => false
  }

  predicate CanLock(p: Pg, t: Thread, j: JobId) {
    && t in p.calls && j !in p.store.locks
    && RowTest(p.store.db, p.calls[t], j)
    && (p.calls[t].Claiming? ==> HoldsNone(p.store, t) && FirstUnlocked(p.store, p.calls[t].now, j))
  }

  /** The UPDATE of a locked row. The claim's UPDATE tests only the id; the reaper first tests
      the lease, and repeats the row test in its UPDATE. */
  predicate CanWrite(p: Pg, t: Thread, j: JobId) {
    && t in p.calls && Holds(p.store, t, j) && j < |p.store.db.jobs|
    && (forall i :: 0 <= i < |Buffered(p.store, t)| ==> Buffered(p.store, t)[i].0 != j)
    && OpOf(p.calls[t]).Some?
    && (p.calls[t].Reaping? ==> Guard(p.store.db.jobs[j], OpOf(p.calls[t]).value))
  }

  function NewVersion(p: Pg, t: Thread, j: JobId): RowWrite
    requires CanWrite(p, t, j)
  {
    WriteOf(p.store.db.jobs[j], OpOf(p.calls[t]).value)
  }

  // COMMIT, once the statements of the transaction have run.
  predicate CanFinish(p: Pg, t: Thread) {
    && t in p.calls && OpOf(p.calls[t]).Some?
    && (forall i :: 0 <= i < |Buffered(p.store, t)| ==> Buffered(p.store, t)[i].0 < |p.store.db.jobs|)
    && (p.calls[t].Claiming? || p.calls[t].Finishing? || p.calls[t].Cancelling? ==> |Buffered(p.store, t)| == 1)
  }

  predicate PgEnabled(p: Pg, e: PgEvent) {
    match e
    case Plain(e0) =>
      && Enabled(Abs(p), e0) && !e0.Commit?
      && (e0.Return? || e0.Interrupt? ==> HoldsNone(p.store, e0.t) && e0.t !in p.store.writes)
    case Lock(t, j) => CanLock(p, t, j)
    case Write(t, j) => CanWrite(p, t, j) && !Clashes(p.store.db, j, NewVersion(p, t, j))
    case Finish(t) => CanFinish(p, t)
    case Violation(t, j) => CanWrite(p, t, j) && Clashes(p.store.db, j, NewVersion(p, t, j))
    case Rollback(t) => t in p.calls
  }

  // The thread's next call after COMMIT: a claim returns the row of its RETURNING clause.
  function AfterFinish(p: Pg, t: Thread): map<Thread, Call>
    requires CanFinish(p, t)
  {
    match p.calls[t]
    case Claiming(worker, _) =>
      var (j, w) := Buffered(p.store, t)[0];
      p.calls[t := Claimed(TokenFor(w.job, j, worker))]
    case _ => p.calls - {t}
  }

  // ... and after ROLLBACK: process_one reports an exception of mark_succeeded as a failed attempt;
  // any other call ends. A thread that dies in its transaction rolls back and then returns.
  function AfterRollback(p: Pg, t: Thread): map<Thread, Call>
    requires t in p.calls
  {
    match p.calls[t]
    case Finishing(tok, started, _, Returned(_)) => p.calls[t := Working(tok, started)]
    case _ => p.calls - {t}
  }

  function PgDo(p: Pg, e: PgEvent): Pg
    requires PgEnabled(p, e)
  {
    match e
    case Plain(e0) =>
      var s := Do(Abs(p), e0);
      Pg(p.store.(db := s.db), s.clock, s.grants, s.calls)
    case Lock(t, j) => p.(store := LockRow(p.store, t, j))
    case Write(t, j) => p.(store := BufferWrite(p.store, t, j, NewVersion(p, t, j)))
    case Finish(t) =>
      Pg(CommitStore(p.store, t), p.clock,
         if p.calls[t].Claiming?
         then p.grants[(Buffered(p.store, t)[0].0, Buffered(p.store, t)[0].1.job.attemptCount + 1) :=
                         Grant(p.calls[t].worker, p.calls[t].now)]
         else p.grants,
         AfterFinish(p, t))
    case Violation(t, j) =>
      Pg(Release(p.store, t), p.clock, p.grants, AfterRollback(p, t))
    case Rollback(t) => Pg(Release(p.store, t), p.clock, p.grants, AfterRollback(p, t))
  }

  // ---------------------------------------------------------------- the lock invariant

  // The buffered write is what the transaction's statement makes of the committed row.
  ghost predicate WriteOk(p: Pg, t: Thread, j: JobId, w: RowWrite) {
    && t in p.calls && OpOf(p.calls[t]).Some?
    && Holds(p.store, t, j) && j < |p.store.db.jobs|
    && Guard(p.store.db.jobs[j], OpOf(p.calls[t]).value)
    && w == WriteOf(p.store.db.jobs[j], OpOf(p.calls[t]).value)
    && !Clashes(p.store.db, j, w)
  }

  ghost predicate LockInv(p: Pg) {
    // a locked row still passes the test under which it was locked
    && (forall j :: j in p.store.locks ==>
          p.store.locks[j] in p.calls && RowTest(p.store.db, p.calls[p.store.locks[j]], j))
    && (forall j, k ::
          (j in p.store.locks && k in p.store.locks && p.store.locks[j] == p.store.locks[k]
           && p.calls[p.store.locks[j]].Claiming?) ==> j == k)
    && (forall t :: t in p.store.writes ==>
          && Distinct(p.store.writes[t])
          && forall i :: 0 <= i < |p.store.writes[t]| ==> WriteOk(p, t, p.store.writes[t][i].0, p.store.writes[t][i].1))
  }

  ghost predicate PgInv(p: Pg) {
    Inv(Abs(p)) && LockInv(p)
  }

  predicate PgInitial(p: Pg) {
    Initial(Abs(p)) && p.store.locks == map[] && p.store.writes == map[]
  }

  // ---------------------------------------------------------------- refinement

  function CommitEvents(t: Thread, ws: seq<(JobId, RowWrite)>): seq<Event>
    ensures |CommitEvents(t, ws)| == |ws|
  {
    if ws == [] then [] else [Commit(t, ws[0].0)] + CommitEvents(t, ws[1..])
  }

  ghost predicate Pending(s: Sys, t: Thread, ws: seq<(JobId, RowWrite)>) {
    && t in s.calls && (s.calls[t].Reaping? || s.calls[t].Draining?) && Distinct(ws)
    && forall i :: 0 <= i < |ws| ==>
         && ws[i].0 < |s.db.jobs| && Guard(s.db.jobs[ws[i].0], OpOf(s.calls[t]).value)
         && ws[i].1 == WriteOf(s.db.jobs[ws[i].0], OpOf(s.calls[t]).value)
         && !Clashes(s.db, ws[i].0, ws[i].1)
  }

  // Publishing several rows at once is the same as committing them one by one.
  lemma {:induction false} ManyRowsRefine(s: Sys, t: Thread, ws: seq<(JobId, RowWrite)>)
    requires Pending(s, t, ws)
    ensures Run(s, CommitEvents(t, ws), s.(db := InstallAll(s.db, ws)))
    decreases |ws|
  {
    if ws != [] {
      var (j, w) := ws[0];
      var m := Do(s, Commit(t, j));
      assert m == s.(db := Install(s.db, j, w));
      forall i | 0 <= i < |ws[1..]|
        ensures ws[1..][i].0 != j
      {
        assert ws[1..][i] == ws[i + 1];
      }
      assert Pending(m, t, ws[1..]);
      ManyRowsRefine(m, t, ws[1..]);
      assert CommitEvents(t, ws)[1..] == CommitEvents(t, ws[1..]);
    }
  }

  /** The row steps that one step of the lock-based repository stands for. */
  function Refined(p: Pg, e: PgEvent): seq<Event>
    requires PgEnabled(p, e)
  {
    match e
    case Plain(e0) => [e0]
    case Finish(t) =>
      var ws := Buffered(p.store, t);
      if p.calls[t].Reaping? || p.calls[t].Draining? then CommitEvents(t, ws) + [Return(t)] else CommitEvents(t, ws)
    case Violation(t, j) => [Commit(t, j)]
    case Rollback(t) =>
      if p.calls[t].Finishing? && p.calls[t].verdict.Returned? then [Interrupt(t)] else [Return(t)]
    case Lock(_, _) => []
    case Write(_, _) => []
  }

  // A COMMIT of a reaper or a drain: its row steps, and then its return.
  lemma SweepFinish(p: Pg, t: Thread) returns (m: Sys)
    requires PgInv(p) && PgEnabled(p, Finish(t)) && (p.calls[t].Reaping? || p.calls[t].Draining?)
    ensures Run(Abs(p), CommitEvents(t, Buffered(p.store, t)), m)
    ensures t in m.calls && Do(m, Return(t)) == Abs(PgDo(p, Finish(t)))
  {
    var s, ws := Abs(p), Buffered(p.store, t);
    assert Pending(s, t, ws);
    ManyRowsRefine(s, t, ws);
    m := s.(db := InstallAll(s.db, ws));
  }

  // A COMMIT of any other transaction is one row step.
  lemma OneRowFinish(p: Pg, t: Thread)
    requires PgInv(p) && PgEnabled(p, Finish(t)) && !p.calls[t].Reaping? && !p.calls[t].Draining?
    ensures var step := Commit(t, Buffered(p.store, t)[0].0);
            && CommitEvents(t, Buffered(p.store, t)) == [step]
            && Enabled(Abs(p), step) && Do(Abs(p), step) == Abs(PgDo(p, Finish(t)))
  {
    var s, ws := Abs(p), Buffered(p.store, t);
    var (j, w) := ws[0];
    assert WriteOk(p, t, j, w);
    assert RowTest(p.store.db, p.calls[t], j);
    assert InstallAll(s.db, ws) == Install(s.db, j, w);
  }

  /** A COMMIT of the lock-based repository is a run of row steps of the protocol, in which the
      claim's UPDATE has the effect of the guarded one although it tests only the id. */
  lemma FinishRefines(p: Pg, t: Thread)
    requires PgInv(p) && PgEnabled(p, Finish(t))
    ensures Run(Abs(p), Refined(p, Finish(t)), Abs(PgDo(p, Finish(t))))
  {
    var ws := Buffered(p.store, t);
    if p.calls[t].Reaping? || p.calls[t].Draining? {
      var m := SweepFinish(p, t);
      OneStep(m, Return(t));
      RunConcat(Abs(p), CommitEvents(t, ws), m, [Return(t)], Abs(PgDo(p, Finish(t))));
    } else {
      OneRowFinish(p, t);
      OneStep(Abs(p), Commit(t, ws[0].0));
    }
  }

  // Only a completion can violate the unique index; it then ends like an aborted one.
  lemma ViolationRefines(p: Pg, t: Thread, j: JobId)
    requires PgInv(p) && PgEnabled(p, Violation(t, j))
    ensures p.calls[t].Finishing? && p.calls[t].token.job == j
    ensures Run(Abs(p), [Commit(t, j)], Abs(PgDo(p, Violation(t, j))))
  {
    var s := Abs(p);
    assert RowTest(p.store.db, p.calls[t], j);
    assert JobOk(s.db, j);
    assert Do(s, Commit(t, j)) == Abs(PgDo(p, Violation(t, j)));
    OneStep(s, Commit(t, j));
  }

  lemma StepRefines(p: Pg, e: PgEvent)
    requires PgInv(p) && PgEnabled(p, e)
    ensures Run(Abs(p), Refined(p, e), Abs(PgDo(p, e)))
  {
    match e {
      case Plain(e0) => OneStep(Abs(p), e0);
      case Finish(t) => FinishRefines(p, t);
      case Violation(t, j) => ViolationRefines(p, t, j);
      case Rollback(t) => OneStep(Abs(p), Refined(p, e)[0]);
      case Lock(t, j) =>
      case Write(t, j) =>
    }
  }

  // ---------------------------------------------------------------- locks protect rows

  // What others hold is not touched by a step that leaves their rows, locks and calls alone.
  lemma WriteStays(p: Pg, p': Pg, t: Thread, j: JobId, w: RowWrite)
    requires WriteOk(p, t, j, w)
    requires t in p'.calls && p'.calls[t] == p.calls[t] && Holds(p'.store, t, j)
    requires j < |p'.store.db.jobs| && p'.store.db.jobs[j] == p.store.db.jobs[j]
    requires forall n: nat :: (j, n) in p'.store.db.attempts ==> (j, n) in p.store.db.attempts
    ensures WriteOk(p', t, j, w)
  {
  }

  // Rows that others have locked are not published by the commit of `t`.
  lemma FinishSparesLocked(p: Pg, t: Thread, j: JobId)
    requires PgInv(p) && PgEnabled(p, Finish(t))
    requires j in p.store.locks && p.store.locks[j] != t
    ensures SameFor(p.store.db, PgDo(p, Finish(t)).store.db, j)
  {
    var ws := Buffered(p.store, t);
    forall i | 0 <= i < |ws|
      ensures ws[i].0 != j
    {
      assert WriteOk(p, t, ws[i].0, ws[i].1);
    }
    CommitKeepsOthers(p.store.db, ws, j);
  }

  lemma FinishKeepsLocks(p: Pg, t: Thread)
    requires PgInv(p) && PgEnabled(p, Finish(t))
    ensures LockInv(PgDo(p, Finish(t)))
  {
    var p' := PgDo(p, Finish(t));
    forall j | j in p'.store.locks
      ensures p'.store.locks[j] in p'.calls && RowTest(p'.store.db, p'.calls[p'.store.locks[j]], j)
    {
      FinishSparesLocked(p, t, j);
      assert RowTest(p.store.db, p.calls[p.store.locks[j]], j);
    }
    forall u, i | u in p'.store.writes && 0 <= i < |p'.store.writes[u]|
      ensures WriteOk(p', u, p'.store.writes[u][i].0, p'.store.writes[u][i].1)
    {
      var (j, w) := p.store.writes[u][i];
      assert WriteOk(p, u, j, w);
      FinishSparesLocked(p, t, j);
      WriteStays(p, p', u, j, w);
    }
  }

  lemma ReleaseKeepsLocks(p: Pg, p': Pg, t: Thread)
    requires LockInv(p) && t in p.calls
    requires p'.store == Release(p.store, t)
    requires forall u :: u in p.calls && u != t ==> u in p'.calls && p'.calls[u] == p.calls[u]
    ensures LockInv(p')
  {
  }

  // A plain step does not touch the call of a transaction that holds a lock or has written.
  lemma PlainSparesOpen(p: Pg, e: Event, t: Thread)
    requires PgEnabled(p, Plain(e)) && t in p.calls && OpOf(p.calls[t]).Some?
    requires !HoldsNone(p.store, t) || t in p.store.writes
    ensures t in PgDo(p, Plain(e)).calls && PgDo(p, Plain(e)).calls[t] == p.calls[t]
  {
  }

  lemma PlainKeepsLocks(p: Pg, e: Event)
    requires PgInv(p) && PgEnabled(p, Plain(e))
    ensures LockInv(PgDo(p, Plain(e)))
  {
    var p' := PgDo(p, Plain(e));
    assert p'.store.locks == p.store.locks && p'.store.writes == p.store.writes;
    assert forall j :: 0 <= j < |p.store.db.jobs| ==> p'.store.db.jobs[j] == p.store.db.jobs[j];
    forall j | j in p'.store.locks
      ensures p'.store.locks[j] in p'.calls && p'.calls[p.store.locks[j]] == p.calls[p.store.locks[j]]
      ensures RowTest(p'.store.db, p'.calls[p'.store.locks[j]], j)
    {
      assert RowTest(p.store.db, p.calls[p.store.locks[j]], j);
      PlainSparesOpen(p, e, p.store.locks[j]);
    }
    forall t, i | t in p'.store.writes && 0 <= i < |p'.store.writes[t]|
      ensures WriteOk(p', t, p'.store.writes[t][i].0, p'.store.writes[t][i].1)
    {
      var (j, w) := p.store.writes[t][i];
      assert WriteOk(p, t, j, w);
      PlainSparesOpen(p, e, t);
      WriteStays(p, p', t, j, w);
    }
  }

  lemma WriteKeepsLocks(p: Pg, t: Thread, j: JobId)
    requires PgInv(p) && PgEnabled(p, Write(t, j))
    ensures LockInv(PgDo(p, Write(t, j)))
  {
  }

  lemma LockKeepsLocks(p: Pg, t: Thread, j: JobId)
    requires PgInv(p) && PgEnabled(p, Lock(t, j))
    ensures LockInv(PgDo(p, Lock(t, j)))
  {
    var p' := PgDo(p, Lock(t, j));
    forall u, i | u in p'.store.writes && 0 <= i < |p'.store.writes[u]|
      ensures WriteOk(p', u, p'.store.writes[u][i].0, p'.store.writes[u][i].1)
    {
      WriteStays(p, p', u, p.store.writes[u][i].0, p.store.writes[u][i].1);
    }
  }

  lemma StepKeepsPgInv(p: Pg, e: PgEvent)
    requires PgInv(p) && PgEnabled(p, e)
    ensures PgInv(PgDo(p, e))
  {
    StepRefines(p, e);
    RunKeepsInv(Abs(p), Refined(p, e), Abs(PgDo(p, e)));
    match e {
      case Finish(t) => FinishKeepsLocks(p, t);
      case Plain(e0) => PlainKeepsLocks(p, e0);
      case Write(t, j) => WriteKeepsLocks(p, t, j);
      case Violation(t, j) => ReleaseKeepsLocks(p, PgDo(p, e), t);
      case Rollback(t) => ReleaseKeepsLocks(p, PgDo(p, e), t);
      case Lock(t, j) => LockKeepsLocks(p, t, j);
    }
  }

  // ---------------------------------------------------------------- whole runs

  ghost predicate PgRun(p: Pg, es: seq<PgEvent>, p': Pg)
    decreases |es|
  {
    if es == [] then p' == p
    else PgEnabled(p, es[0]) && PgRun(PgDo(p, es[0]), es[1..], p')
  }

  // The row steps of a whole run, step by step.
  ghost function RefinedRun(p: Pg, pes: seq<PgEvent>, p': Pg): seq<Event>
    requires PgRun(p, pes, p')
    decreases |pes|
  {
    if pes == [] then [] else Refined(p, pes[0]) + RefinedRun(PgDo(p, pes[0]), pes[1..], p')
  }

  /** Refinement: whatever the locking transactions do, aborts included, the committed tables go
      through the run of the protocol that their steps stand for. What the protocol promises of
      every run and every reachable state holds for the PostgreSQL repository; module
      PostgresHistory carries over what depends on the steps of the run. */
  lemma {:induction false} PgRefinesProtocol(p: Pg, pes: seq<PgEvent>, p': Pg)
    requires PgInv(p) && PgRun(p, pes, p')
    ensures Run(Abs(p), RefinedRun(p, pes, p'), Abs(p')) && PgInv(p')
    decreases |pes|
  {
    if pes != [] {
      var m := PgDo(p, pes[0]);
      StepRefines(p, pes[0]);
      StepKeepsPgInv(p, pes[0]);
      PgRefinesProtocol(m, pes[1..], p');
      RunConcat(Abs(p), Refined(p, pes[0]), Abs(m), RefinedRun(m, pes[1..], p'), Abs(p'));
    }
  }

  lemma PgReachable(p0: Pg, pes: seq<PgEvent>, p: Pg)
    requires PgInitial(p0) && PgRun(p0, pes, p)
    ensures PgInv(p) && Reachable(Abs(p))
  {
    PgRefinesProtocol(p0, pes, p);
    assert Initial(Abs(p0)) && Run(Abs(p0), RefinedRun(p0, pes, p), Abs(p));
  }

  // ---------------------------------------------------------------- the claim

  /** The UPDATE by id alone is safe: in every reachable state, a row that a claim has locked is
      still queued and due, whatever other claims, cancellations, drains and reapers did since. */
  lemma LockedRowStaysClaimable(p0: Pg, pes: seq<PgEvent>, p: Pg, t: Thread, j: JobId)
    requires PgInitial(p0) && PgRun(p0, pes, p)
    requires t in p.calls && p.calls[t].Claiming? && Holds(p.store, t, j)
    ensures j < |p.store.db.jobs| && Due(p.store.db.jobs[j], p.calls[t].now)
    ensures Execute(p.store.db, j, OpOf(p.calls[t]).value) ==
            Applied(WriteOf(p.store.db.jobs[j], OpOf(p.calls[t]).value))
  {
    PgReachable(p0, pes, p);
  }

  /** SKIP LOCKED passes over better due jobs only while another transaction is taking them out
      of the queue itself: the lock is held by a claim, a cancellation or a drain. */
  lemma PassedOverIsBeingTaken(p: Pg, t: Thread, j: JobId, k: JobId)
    requires PgInv(p) && PgEnabled(p, Lock(t, j)) && p.calls[t].Claiming?
    requires k < |p.store.db.jobs| && Due(p.store.db.jobs[k], p.calls[t].now)
    requires Before(p.store.db.jobs[k], p.store.db.jobs[j])
    ensures k in p.store.locks && p.store.locks[k] != t && p.store.locks[k] in p.calls
    ensures var c := p.calls[p.store.locks[k]]; c.Claiming? || c.Cancelling? || c.Draining?
  {
  }

  // Without locks on due rows the claim takes the row that the serial SELECT returns.
  lemma UncontendedClaimIsSerial(p: Pg, t: Thread, j: JobId)
    requires PgEnabled(p, Lock(t, j)) && p.calls[t].Claiming?
    requires forall k :: k in p.store.locks && k < |p.store.db.jobs| ==> !Due(p.store.db.jobs[k], p.calls[t].now)
    ensures IsNextClaim(p.store.db.jobs, p.calls[t].now, j)
  {
  }

  /** No job is handed out twice: two claims that have both locked a row, and may both commit,
      locked different rows. */
  lemma OpenClaimsDiffer(p: Pg, t: Thread, u: Thread)
    requires PgInv(p) && t != u && CanFinish(p, t) && CanFinish(p, u)
    requires p.calls[t].Claiming? && p.calls[u].Claiming?
    ensures Buffered(p.store, t)[0].0 != Buffered(p.store, u)[0].0
  {
  }
}
