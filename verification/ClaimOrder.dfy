/**
 The order in which due jobs are claimed: priority DESC, run_at ASC, created_at ASC.
 */
module ClaimOrder {
  import opened Tables

  // The SELECT ... LIMIT 1 returns a row whenever some job is due.
  lemma {:induction false} NextClaimExists(jobs: seq<Job>, now: Time, j: JobId)
    requires j < |jobs| && Due(jobs[j], now)
    ensures exists b: JobId :: IsNextClaim(jobs, now, b)
  {
    var b := FirstOfPrefix(jobs, now, |jobs|, j);
    assert IsNextClaim(jobs, now, b);
  }

  lemma {:induction false} FirstOfPrefix(jobs: seq<Job>, now: Time, n: nat, j: JobId) returns (b: JobId)
    requires j < n <= |jobs| && Due(jobs[j], now)
    ensures b < n && Due(jobs[b], now)
    ensures forall k :: 0 <= k < n && Due(jobs[k], now) ==> !Before(jobs[k], jobs[b])
  {
    if forall k :: 0 <= k < n - 1 ==> !Due(jobs[k], now) {
      b := n - 1;
    } else {
      var i :| 0 <= i < n - 1 && Due(jobs[i], now);
      b := FirstOfPrefix(jobs, now, n - 1, i);
      if Due(jobs[n - 1], now) && Before(jobs[n - 1], jobs[b]) {
        b := n - 1;
      }
    }
  }

  /** Claims of `picks`, one after the other and with no other step in between, at one clock
      reading, until the SELECT returns no row. Workers may differ; ties may go either way. */
  ghost predicate Drains(db: Db, now: Time, picks: seq<(JobId, string)>, db': Db)
    decreases |picks|
  {
    if picks == [] then
      db' == db && forall j :: 0 <= j < |db.jobs| ==> !Due(db.jobs[j], now)
    else
      && IsNextClaim(db.jobs, now, picks[0].0)
      && Drains(After(db, picks[0].0, ClaimOp(picks[0].1, now)), now, picks[1..], db')
  }

  lemma ClaimTakesRow(db: Db, now: Time, j: JobId, worker: string)
    requires IsNextClaim(db.jobs, now, j)
    ensures After(db, j, ClaimOp(worker, now)) ==
            db.(jobs := db.jobs[j := ClaimWrite(db.jobs[j], worker, now).job])
  {
  }

  // Each pick was due, is picked once, and no later pick comes before it in the order.
  lemma {:induction false} PicksAreSorted(db: Db, now: Time, picks: seq<(JobId, string)>, db': Db)
    requires Drains(db, now, picks, db')
    ensures forall i :: 0 <= i < |picks| ==> picks[i].0 < |db.jobs| && Due(db.jobs[picks[i].0], now)
    ensures forall i, k :: 0 <= i < k < |picks| ==> picks[i].0 != picks[k].0
    ensures forall i, k :: 0 <= i < k < |picks| ==> !Before(db.jobs[picks[k].0], db.jobs[picks[i].0])
    decreases |picks|
  {
    if picks != [] {
      var (j0, worker) := picks[0];
      ClaimTakesRow(db, now, j0, worker);
      PicksAreSorted(After(db, j0, ClaimOp(worker, now)), now, picks[1..], db');
      forall i | 1 <= i < |picks|
        ensures picks[i].0 < |db.jobs| && picks[i].0 != j0 && Due(db.jobs[picks[i].0], now)
      {
        assert picks[i] == picks[1..][i - 1];
      }
      forall i, k | 1 <= i < k < |picks|
        ensures picks[i].0 != picks[k].0 && !Before(db.jobs[picks[k].0], db.jobs[picks[i].0])
      {
        assert picks[i] == picks[1..][i - 1] && picks[k] == picks[1..][k - 1];
      }
    }
  }

  lemma {:induction false} EveryDueIsPicked(db: Db, now: Time, picks: seq<(JobId, string)>, db': Db, j: JobId)
      returns (i: nat)
    requires Drains(db, now, picks, db') && j < |db.jobs| && Due(db.jobs[j], now)
    ensures i < |picks| && picks[i].0 == j
    decreases |picks|
  {
    var (j0, worker) := picks[0];
    ClaimTakesRow(db, now, j0, worker);
    if j == j0 {
      i := 0;
    } else {
      i := EveryDueIsPicked(After(db, j0, ClaimOp(worker, now)), now, picks[1..], db', j);
      i := i + 1;
    }
  }

  // A row is claimed by the worker that picked it, or not written at all.
  lemma {:induction false} OnlyPicksChange(db: Db, now: Time, picks: seq<(JobId, string)>, db': Db)
    requires Drains(db, now, picks, db')
    ensures |db'.jobs| == |db.jobs| && db'.attempts == db.attempts && db'.deadLetters == db.deadLetters
    ensures forall j :: 0 <= j < |db.jobs| && !Due(db.jobs[j], now) ==> db'.jobs[j] == db.jobs[j]
    ensures forall i :: 0 <= i < |picks| ==>
              && picks[i].0 < |db.jobs|
              && db'.jobs[picks[i].0] == ClaimWrite(db.jobs[picks[i].0], picks[i].1, now).job
    decreases |picks|
  {
    if picks != [] {
      var (j0, worker) := picks[0];
      var mid := After(db, j0, ClaimOp(worker, now));
      ClaimTakesRow(db, now, j0, worker);
      PicksAreSorted(db, now, picks, db');
      OnlyPicksChange(mid, now, picks[1..], db');
      assert !Due(mid.jobs[j0], now);
      forall i | 1 <= i < |picks|
        ensures db'.jobs[picks[i].0] == ClaimWrite(db.jobs[picks[i].0], picks[i].1, now).job
      {
        assert picks[i] == picks[1..][i - 1] && picks[i].0 != picks[0].0;
      }
    }
  }

  /** Claiming until nothing is due sorts the queue: every due job is returned exactly once, in
      non-increasing priority, then non-decreasing run_at, then non-decreasing created_at;
      jobs that are not due are left as they were. */
  lemma ClaimingSorts(db: Db, now: Time, picks: seq<(JobId, string)>, db': Db)
    requires Drains(db, now, picks, db')
    ensures forall i :: 0 <= i < |picks| ==> picks[i].0 < |db.jobs| && Due(db.jobs[picks[i].0], now)
    ensures forall j :: 0 <= j < |db.jobs| && Due(db.jobs[j], now) ==>
              exists i :: 0 <= i < |picks| && picks[i].0 == j
    ensures forall i, k :: 0 <= i < k < |picks| ==> picks[i].0 != picks[k].0
    ensures forall i, k :: 0 <= i < k < |picks| ==>
              var (a, b) := (db.jobs[picks[i].0], db.jobs[picks[k].0]);
              && a.priority >= b.priority
              && (a.priority == b.priority ==> a.runAt <= b.runAt)
              && (a.priority == b.priority && a.runAt == b.runAt ==> a.createdAt <= b.createdAt)
    ensures |db'.jobs| == |db.jobs| && db'.attempts == db.attempts && db'.deadLetters == db.deadLetters
    ensures forall j :: 0 <= j < |db.jobs| && !Due(db.jobs[j], now) ==> db'.jobs[j] == db.jobs[j]
    ensures forall i :: 0 <= i < |picks| ==>
              db'.jobs[picks[i].0] == ClaimWrite(db.jobs[picks[i].0], picks[i].1, now).job
  {
    PicksAreSorted(db, now, picks, db');
    OnlyPicksChange(db, now, picks, db');
    forall j | 0 <= j < |db.jobs| && Due(db.jobs[j], now)
      ensures exists i :: 0 <= i < |picks| && picks[i].0 == j
    {
      var i := EveryDueIsPicked(db, now, picks, db', j);
      assert picks[i].0 == j;
    }
  }

  // Such a series of claims always exists and ends.
  lemma {:induction false} DrainExists(db: Db, now: Time, worker: string, left: set<int>)
      returns (picks: seq<(JobId, string)>, db': Db)
    requires left == set j | 0 <= j < |db.jobs| && Due(db.jobs[j], now)
    ensures Drains(db, now, picks, db') && |picks| == |left|
    decreases |left|
  {
    if left == {} {
      picks, db' := [], db;
      forall j | 0 <= j < |db.jobs|
        ensures !Due(db.jobs[j], now)
      {
        assert j !in left;
      }
    } else {
      var j: int :| j in left;
      NextClaimExists(db.jobs, now, j);
      var b: JobId :| IsNextClaim(db.jobs, now, b);
      ClaimTakesRow(db, now, b, worker);
      var mid := After(db, b, ClaimOp(worker, now));
      assert b in left;
      assert left - {b} == set i | 0 <= i < |mid.jobs| && Due(mid.jobs[i], now);
      var rest;
      rest, db' := DrainExists(mid, now, worker, left - {b});
      picks := [(b, worker)] + rest;
      assert picks[1..] == rest;
    }
  }
}
