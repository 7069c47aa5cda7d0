/**
 The PostgreSQL repository's claim and reaper, statement by statement, on the committed tables,
 the row locks and the buffered writes of open transactions. `t` is the thread whose connection
 runs the statement. Module Postgres proves what arbitrary interleavings of these effects do.
 */
module PostgresRepository {
  import opened Tables
  import opened RowLocks
  import opened Postgres
  import opened Sweeps

  // The rows below `n` that the reaper can lock and finds stale, with their new versions.
  function StaleWrites(st: Store, n: nat, now: Time, grace: nat): seq<(JobId, RowWrite)>
    requires n <= |st.db.jobs|
  {
    if n == 0 then []
    else
      StaleWrites(st, n - 1, now, grace) +
      (if n - 1 !in st.locks && Guard(st.db.jobs[n - 1], ReapOp(now, grace))
       then [(n - 1, WriteOf(st.db.jobs[n - 1], ReapOp(now, grace)))]
       else [])
  }

  ghost predicate IsStaleWrite(st: Store, n: nat, now: Time, grace: nat, j: JobId, w: RowWrite) {
    && j < n <= |st.db.jobs| && j !in st.locks && Guard(st.db.jobs[j], ReapOp(now, grace))
    && w == WriteOf(st.db.jobs[j], ReapOp(now, grace))
  }

  lemma {:induction false} StaleWritesAre(st: Store, n: nat, now: Time, grace: nat)
    requires n <= |st.db.jobs|
    ensures forall i :: 0 <= i < |StaleWrites(st, n, now, grace)| ==>
              IsStaleWrite(st, n, now, grace, StaleWrites(st, n, now, grace)[i].0, StaleWrites(st, n, now, grace)[i].1)
    ensures Distinct(StaleWrites(st, n, now, grace))
  {
    if n > 0 {
      var init := StaleWrites(st, n - 1, now, grace);
      StaleWritesAre(st, n - 1, now, grace);
      forall i | 0 <= i < |init|
        ensures IsStaleWrite(st, n, now, grace, init[i].0, init[i].1) && init[i].0 != n - 1
      {
        assert IsStaleWrite(st, n - 1, now, grace, init[i].0, init[i].1);
      }
    }
  }

  lemma {:induction false} StaleRowIsWritten(st: Store, n: nat, now: Time, grace: nat, j: JobId) returns (i: nat)
    requires j < n <= |st.db.jobs| && j !in st.locks && Guard(st.db.jobs[j], ReapOp(now, grace))
    ensures i < |StaleWrites(st, n, now, grace)|
    ensures StaleWrites(st, n, now, grace)[i] == (j, WriteOf(st.db.jobs[j], ReapOp(now, grace)))
  {
    if j == n - 1 {
      i := |StaleWrites(st, n - 1, now, grace)|;
    } else {
      i := StaleRowIsWritten(st, n - 1, now, grace, j);
    }
  }

  /** One undisturbed reaper transaction: every expired lease that nobody else has locked is
      abandoned at the reaper's clock reading, every other job keeps its row, its log and its dead
      letter. */
  lemma ReaperTakesUnlockedStaleRows(st: Store, now: Time, grace: nat, j: JobId)
    requires TablesOk(st.db) && j < |st.db.jobs|
    ensures forall i :: 0 <= i < |StaleWrites(st, |st.db.jobs|, now, grace)| ==>
              StaleWrites(st, |st.db.jobs|, now, grace)[i].0 < |st.db.jobs|
    ensures var after := InstallAll(st.db, StaleWrites(st, |st.db.jobs|, now, grace));
            && (j !in st.locks && Expired(st.db.jobs[j], now, grace) ==> AbandonedAt(st.db, after, j, now))
            && (j in st.locks || !Expired(st.db.jobs[j], now, grace) ==> SameFor(st.db, after, j))
  {
    var ws := StaleWrites(st, |st.db.jobs|, now, grace);
    StaleWritesAre(st, |st.db.jobs|, now, grace);
    assert JobOk(st.db, j);
    if j !in st.locks && Expired(st.db.jobs[j], now, grace) {
      var i := StaleRowIsWritten(st, |st.db.jobs|, now, grace, j);
      CommitPublishesAll(st.db, ws, i);
    } else {
      forall i | 0 <= i < |ws|
        ensures ws[i].0 != j
      {
        assert IsStaleWrite(st, |st.db.jobs|, now, grace, ws[i].0, ws[i].1);
      }
      CommitKeepsOthers(st.db, ws, j);
    }
  }

  // Exactly the expired leases that were not locked have been abandoned at `now`.
  ghost predicate AbandonsUnlocked(st: Store, after: Db, now: Time, grace: nat) {
    && (forall j: JobId :: j < |st.db.jobs| && j !in st.locks && Expired(st.db.jobs[j], now, grace) ==>
          AbandonedAt(st.db, after, j, now))
    && (forall j: JobId :: j < |st.db.jobs| && (j in st.locks || !Expired(st.db.jobs[j], now, grace)) ==>
          SameFor(st.db, after, j))
  }

  lemma ReaperIsExactOnUnlocked(st: Store, now: Time, grace: nat)
    requires TablesOk(st.db)
    ensures forall i :: 0 <= i < |StaleWrites(st, |st.db.jobs|, now, grace)| ==>
              StaleWrites(st, |st.db.jobs|, now, grace)[i].0 < |st.db.jobs|
    ensures AbandonsUnlocked(st, InstallAll(st.db, StaleWrites(st, |st.db.jobs|, now, grace)), now, grace)
  {
    StaleWritesInRange(st, |st.db.jobs|, now, grace);
    var after := InstallAll(st.db, StaleWrites(st, |st.db.jobs|, now, grace));
    forall j: JobId | j < |st.db.jobs|
      ensures j !in st.locks && Expired(st.db.jobs[j], now, grace) ==> AbandonedAt(st.db, after, j, now)
      ensures j in st.locks || !Expired(st.db.jobs[j], now, grace) ==> SameFor(st.db, after, j)
    {
      ReaperTakesUnlockedStaleRows(st, now, grace, j);
    }
  }

  // A running row has the columns of a lease.
  predicate LeasesComplete(jobs: seq<Job>) {
    forall j :: 0 <= j < |jobs| && jobs[j].status == Running ==> jobs[j].lockedBy.Some?
  }

  lemma LeasesAreComplete(db: Db)
    requires TablesOk(db)
    ensures LeasesComplete(db.jobs)
  {
    forall j | 0 <= j < |db.jobs| && db.jobs[j].status == Running
      ensures db.jobs[j].lockedBy.Some?
    {
      assert JobOk(db, j);
    }
  }

  ghost function UnlockedExpired(st: Store, n: nat, now: Time, grace: nat): set<int>
    requires n <= |st.db.jobs|
  {
    set j | 0 <= j < n && j !in st.locks && Expired(st.db.jobs[j], now, grace)
  }

  // The reaper counts the expired leases that it could lock.
  lemma {:induction false} StaleWritesCount(st: Store, n: nat, now: Time, grace: nat)
    requires LeasesComplete(st.db.jobs) && n <= |st.db.jobs|
    ensures |StaleWrites(st, n, now, grace)| == |UnlockedExpired(st, n, now, grace)|
  {
    if n == 0 {
      assert UnlockedExpired(st, n, now, grace) == {};
    } else {
      StaleWritesCount(st, n - 1, now, grace);
      StaleWritesStep(st, n - 1, now, grace);
      OneMoreRow(UnlockedExpired(st, n - 1, now, grace), UnlockedExpired(st, n, now, grace), n - 1);
    }
  }

  // What the reaper's loop does with row `j`.
  lemma StaleWritesStep(st: Store, j: JobId, now: Time, grace: nat)
    requires LeasesComplete(st.db.jobs) && j < |st.db.jobs|
    ensures Stale(st.db.jobs[j], now, grace) ==> st.db.jobs[j].lockedBy.Some?
    ensures StaleWrites(st, j + 1, now, grace) ==
            StaleWrites(st, j, now, grace) +
            (if j !in st.locks && Stale(st.db.jobs[j], now, grace) then [(j, ReapWrite(st.db.jobs[j], now))] else [])
  {
  }

  class PostgresJobRepository {
    var jobs: seq<Job>
    var attempts: map<(JobId, nat), Attempt>
    var deadLetters: map<JobId, DeadLetter>
    var locks: map<JobId, nat>
    var writes: map<nat, seq<(JobId, RowWrite)>>

    function Contents(): Store
      reads this
    {
      Store(Db(jobs, attempts, deadLetters), locks, writes)
    }

    // No transaction of `t` is open.
    predicate Idle(t: nat)
      reads this
    {
      HoldsNone(Contents(), t) && t !in writes
    }

    constructor ()
      ensures Contents() == Store(EMPTY_DB, map[], map[])
    {
      jobs, attempts, deadLetters, locks, writes := [], map[], map[], map[], map[];
    }

    // ------------------------------------------------------------ statements

    // SELECT ... ORDER BY ... LIMIT 1 FOR UPDATE SKIP LOCKED
    method SelectForClaim(t: nat, now: Time) returns (row: Option<JobId>)
      modifies this`locks
      ensures row.None? ==>
                && Contents() == old(Contents())
                && forall k :: 0 <= k < |jobs| && Due(jobs[k], now) ==> k in locks
      ensures row.Some? ==>
                FirstUnlocked(old(Contents()), now, row.value) && Contents() == LockRow(old(Contents()), t, row.value)
    {
      if forall k :: 0 <= k < |jobs| && Due(jobs[k], now) ==> k in locks {
        return None;
      }
      ghost var k: nat :| k < |jobs| && Due(jobs[k], now) && k !in locks;
      FirstUnlockedExists(Contents(), now, k);
      var j: nat :| j < |jobs| && FirstUnlocked(Contents(), now, j);
      locks := locks[j := t];
      return Some(j);
    }

    // UPDATE jobs SET status = 'running', ... WHERE id = j, whatever the row's status.
    method UpdateClaimed(t: nat, j: JobId, worker: string, now: Time)
      requires j < |jobs|
      modifies this`writes
      ensures Contents() == BufferWrite(old(Contents()), t, j, ClaimWrite(jobs[j], worker, now))
    {
      var updated := jobs[j].(status := Running, lockedBy := Some(worker), lockedAt := Some(now), updatedAt := now);
      writes := writes[t := (if t in writes then writes[t] else []) + [(j, RowWrite(updated, None, None))]];
    }

    method CommitTransaction(t: nat)
      requires forall i :: 0 <= i < |Buffered(Contents(), t)| ==> Buffered(Contents(), t)[i].0 < |jobs|
      modifies this
      ensures Contents() == CommitStore(old(Contents()), t)
    {
      var ws := if t in writes then writes[t] else [];
      ghost var before := Contents();
      for i := 0 to |ws|
        invariant ws == Buffered(before, t) && locks == before.locks && writes == before.writes
        invariant forall k :: 0 <= k < |ws| ==> ws[k].0 < |jobs|
        invariant InstallAll(Db(jobs, attempts, deadLetters), ws[i..]) == InstallAll(before.db, ws)
      {
        var (j, w) := ws[i];
        assert ws[i..][0] == ws[i] && ws[i..][1..] == ws[i + 1..];
        jobs := jobs[j := w.job];
        if w.attempt.Some? {
          attempts := attempts[(j, w.attempt.value.0) := w.attempt.value.1];
        }
        if w.deadLetter.Some? {
          deadLetters := deadLetters[j := w.deadLetter.value];
        }
      }
      assert ws[|ws|..] == [];
      RollbackTransaction(t);
    }

    method RollbackTransaction(t: nat)
      modifies this`locks, this`writes
      ensures Contents() == Release(old(Contents()), t)
    {
      locks := map j | j in locks && locks[j] != t :: locks[j];
      writes := writes - {t};
    }

    // ------------------------------------------------------------ transactions

    // claim_next_job when no other statement comes in between.
    method ClaimNextJob(t: nat, worker: string, now: Time) returns (claimed: Option<JobId>)
      requires Idle(t)
      modifies this
      ensures Idle(t)
      ensures claimed.None? ==>
                Contents() == old(Contents()) && forall k :: 0 <= k < |jobs| && Due(jobs[k], now) ==> k in locks
      ensures claimed.Some? ==>
                && FirstUnlocked(old(Contents()), now, claimed.value)
                && Contents() == old(Contents()).(db := After(old(Contents()).db, claimed.value, ClaimOp(worker, now)))
    {
      ghost var before := Contents();
      claimed := SelectForClaim(t, now);
      if claimed.None? {
        return;
      }
      UpdateClaimed(t, claimed.value, worker, now);
      ClaimCommits(before, t, claimed.value, worker, now);
      CommitTransaction(t);
    }

    // The loop over the locked rows: abandon the stale ones.
    method AbandonStale(t: nat, rows: set<int>, ghost before: Store, now: Time, grace: nat) returns (recovered: nat)
      requires LeasesComplete(jobs) && Contents().db == before.db && writes == before.writes && t !in writes
      requires rows == set j | 0 <= j < |jobs| && jobs[j].status == Running && jobs[j].lockedAt.Some? && j !in before.locks
      modifies this`writes
      ensures recovered == |StaleWrites(before, |jobs|, now, grace)|
      ensures Buffered(Contents(), t) == StaleWrites(before, |jobs|, now, grace)
      ensures writes - {t} == before.writes
    {
      recovered := 0;
      var pending: seq<(JobId, RowWrite)> := [];
      var found := jobs;
      for j := 0 to |found|
        invariant writes == if pending == [] then before.writes else before.writes[t := pending]
        invariant pending == StaleWrites(before, j, now, grace) && recovered == |pending|
      {
        var row := found[j];
        var stale := j in rows && now - row.lockedAt.value > row.timeout + grace;
        assert stale <==> j !in before.locks && Stale(row, now, grace);
        StaleWritesStep(before, j, now, grace);
        if stale {
          pending := pending + [(j, ReapWrite(row, now))];
          writes := writes[t := pending];
          recovered := recovered + 1;
        }
      }
      BufferedAlone(before.writes, t, pending, writes);
    }

    // SELECT ... WHERE status = 'running' AND locked_at IS NOT NULL FOR UPDATE SKIP LOCKED
    method SelectRunning(t: nat) returns (rows: set<int>)
      modifies this`locks
      ensures rows == set j | 0 <= j < |jobs| && jobs[j].status == Running && jobs[j].lockedAt.Some? && j !in old(locks)
      ensures locks == LockRows(old(locks), t, rows)
    {
      rows := set j | 0 <= j < |jobs| && jobs[j].status == Running && jobs[j].lockedAt.Some? && j !in locks;
      locks := LockRows(locks, t, rows);
    }

    // recover_stale_jobs when no other statement comes in between: lock what is free, then loop.
    method RecoverStaleJobs(t: nat, now: Time, grace: nat) returns (recovered: nat)
      requires Idle(t) && TablesOk(Contents().db)
      modifies this
      ensures Idle(t)
      ensures recovered == |StaleWrites(old(Contents()), |old(jobs)|, now, grace)|
      ensures forall i :: 0 <= i < recovered ==> StaleWrites(old(Contents()), |old(jobs)|, now, grace)[i].0 < |old(jobs)|
      ensures Contents() ==
              old(Contents()).(db := InstallAll(old(Contents()).db, StaleWrites(old(Contents()), |old(jobs)|, now, grace)))
      ensures recovered == |UnlockedExpired(old(Contents()), |old(jobs)|, now, grace)|
      ensures AbandonsUnlocked(old(Contents()), Contents().db, now, grace)
    {
      ghost var before := Contents();
      var rows := SelectRunning(t);
      LeasesAreComplete(before.db);
      recovered := AbandonStale(t, rows, before, now, grace);
      StaleWritesInRange(before, |jobs|, now, grace);
      StaleWritesCount(before, |jobs|, now, grace);
      ReaperIsExactOnUnlocked(before, now, grace);
      ReleaseRestores(before, Contents().(db := InstallAll(before.db, StaleWrites(before, |jobs|, now, grace))), t, rows);
      CommitTransaction(t);
    }
  }

  function LockRows(locks: map<JobId, nat>, t: nat, rows: set<int>): map<JobId, nat>
    requires forall j :: j in rows ==> 0 <= j
  {
    locks + (map j | j in rows :: t)
  }

  // Lock, UPDATE and COMMIT of an undisturbed claim.
  lemma ClaimCommits(before: Store, t: nat, j: JobId, worker: string, now: Time)
    requires HoldsNone(before, t) && t !in before.writes && FirstUnlocked(before, now, j)
    ensures var st := BufferWrite(LockRow(before, t, j), t, j, ClaimWrite(before.db.jobs[j], worker, now));
            && (forall i :: 0 <= i < |Buffered(st, t)| ==> Buffered(st, t)[i].0 < |st.db.jobs|)
            && CommitStore(st, t) == before.(db := After(before.db, j, ClaimOp(worker, now)))
  {
    var st := BufferWrite(LockRow(before, t, j), t, j, ClaimWrite(before.db.jobs[j], worker, now));
    var ws := Buffered(st, t);
    assert ws == [(j, ClaimWrite(before.db.jobs[j], worker, now))];
    assert ws[1..] == [];
    assert InstallAll(before.db, ws) == Install(before.db, ws[0].0, ws[0].1);
    assert Release(st, t).locks == before.locks;
    assert st.writes - {t} == before.writes;
  }

  // The buffer of one transaction beside those of the others.
  lemma BufferedAlone(others: map<nat, seq<(JobId, RowWrite)>>, t: nat, pending: seq<(JobId, RowWrite)>,
                      all: map<nat, seq<(JobId, RowWrite)>>)
    requires t !in others && all == if pending == [] then others else others[t := pending]
    ensures all - {t} == others && (if t in all then all[t] else []) == pending
  {
  }

  // Ending its transaction leaves a thread that had none open before as it was.
  lemma ReleaseRestores(before: Store, st: Store, t: nat, rows: set<int>)
    requires HoldsNone(before, t) && t !in before.writes
    requires forall j :: j in rows ==> 0 <= j && j !in before.locks
    requires st.locks == LockRows(before.locks, t, rows) && st.writes - {t} == before.writes
    ensures Release(st, t) == before.(db := st.db)
  {
  }

  lemma StaleWritesInRange(st: Store, n: nat, now: Time, grace: nat)
    requires n <= |st.db.jobs|
    ensures forall i :: 0 <= i < |StaleWrites(st, n, now, grace)| ==> StaleWrites(st, n, now, grace)[i].0 < n
  {
  }

  lemma {:induction false} FirstUnlockedExists(st: Store, now: Time, k: JobId)
    requires k < |st.db.jobs| && Due(st.db.jobs[k], now) && k !in st.locks
    ensures exists j: JobId :: j < |st.db.jobs| && FirstUnlocked(st, now, j)
  {
    var b: nat := k;
    for i := 0 to |st.db.jobs|
      invariant b < |st.db.jobs| && Due(st.db.jobs[b], now) && b !in st.locks
      invariant forall m :: 0 <= m < i && Due(st.db.jobs[m], now) && m !in st.locks ==>
                  !Before(st.db.jobs[m], st.db.jobs[b])
    {
      if Due(st.db.jobs[i], now) && i !in st.locks && Before(st.db.jobs[i], st.db.jobs[b]) {
        b := i;
      }
    }
    assert FirstUnlocked(st, now, b);
  }
}
