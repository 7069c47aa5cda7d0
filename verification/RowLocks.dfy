/**
 PostgreSQL row locks and open transactions, as far as the repository relies on them.

 `db` holds the committed versions. A transaction locks rows, buffers new versions of rows it
 has locked, and publishes all of them when it commits. A transaction belongs to one thread.
 */
module RowLocks {
  import opened Tables

  datatype Store = Store(
    db: Db,
    locks: map<JobId, nat>,
    writes: map<nat, seq<(JobId, RowWrite)>>)

  function Buffered(st: Store, t: nat): seq<(JobId, RowWrite)> {
    if t in st.writes then st.writes[t] else []
  }

  predicate Holds(st: Store, t: nat, j: JobId) {
    j in st.locks && st.locks[j] == t
  }

  predicate HoldsNone(st: Store, t: nat) {
    forall j :: j in st.locks ==> st.locks[j] != t
  }

  function LockRow(st: Store, t: nat, j: JobId): Store {
    st.(locks := st.locks[j := t])
  }

  function BufferWrite(st: Store, t: nat, j: JobId, w: RowWrite): Store {
    st.(writes := st.writes[t := Buffered(st, t) + [(j, w)]])
  }

  function InstallAll(db: Db, ws: seq<(JobId, RowWrite)>): Db
    requires forall i :: 0 <= i < |ws| ==> ws[i].0 < |db.jobs|
    decreases |ws|
  {
    if ws == [] then db
    else InstallAll(Install(db, ws[0].0, ws[0].1), ws[1..])
  }

  // COMMIT and ROLLBACK end the transaction of `t` and release its locks.
  function Release(st: Store, t: nat): Store {
    Store(st.db, map j | j in st.locks && st.locks[j] != t :: st.locks[j], st.writes - {t})
  }

  function CommitStore(st: Store, t: nat): Store
    requires forall i :: 0 <= i < |Buffered(st, t)| ==> Buffered(st, t)[i].0 < |st.db.jobs|
  {
    Release(st.(db := InstallAll(st.db, Buffered(st, t))), t)
  }

  predicate Distinct(ws: seq<(JobId, RowWrite)>) {
    forall i, k :: 0 <= i < k < |ws| ==> ws[i].0 != ws[k].0
  }

  // Nothing about job `j` differs.
  ghost predicate SameFor(db: Db, db': Db, j: JobId) {
    && (j < |db.jobs| <==> j < |db'.jobs|)
    && (j < |db.jobs| ==> db'.jobs[j] == db.jobs[j])
    && (forall n: nat :: (j, n) in db'.attempts <==> (j, n) in db.attempts)
    && (forall n: nat :: (j, n) in db.attempts ==> db'.attempts[(j, n)] == db.attempts[(j, n)])
    && (j in db'.deadLetters <==> j in db.deadLetters)
    && (j in db.deadLetters ==> db'.deadLetters[j] == db.deadLetters[j])
  }

  lemma InstallKeepsOthers(db: Db, i: JobId, w: RowWrite, j: JobId)
    requires i < |db.jobs| && i != j
    ensures SameFor(db, Install(db, i, w), j)
  {
  }

  // A commit publishes only buffered rows: nothing recorded for any other job changes.
  lemma {:induction false} CommitKeepsOthers(db: Db, ws: seq<(JobId, RowWrite)>, j: JobId)
    requires forall i :: 0 <= i < |ws| ==> ws[i].0 < |db.jobs| && ws[i].0 != j
    ensures SameFor(db, InstallAll(db, ws), j)
    decreases |ws|
  {
    if ws != [] {
      InstallKeepsOthers(db, ws[0].0, ws[0].1, j);
      CommitKeepsOthers(Install(db, ws[0].0, ws[0].1), ws[1..], j);
    }
  }

  /** A commit publishes every buffered row, with its attempt record and dead letter. */
  lemma {:induction false} CommitPublishesAll(db: Db, ws: seq<(JobId, RowWrite)>, i: nat)
    requires forall k :: 0 <= k < |ws| ==> ws[k].0 < |db.jobs|
    requires Distinct(ws) && i < |ws|
    ensures SameFor(Install(db, ws[i].0, ws[i].1), InstallAll(db, ws), ws[i].0)
    decreases |ws|
  {
    var mid := Install(db, ws[0].0, ws[0].1);
    if i == 0 {
      forall k | 0 <= k < |ws[1..]|
        ensures ws[1..][k].0 != ws[0].0
      {
        assert ws[1..][k] == ws[k + 1];
      }
      CommitKeepsOthers(mid, ws[1..], ws[0].0);
    } else {
      assert ws[1..][i - 1] == ws[i];
      CommitPublishesAll(mid, ws[1..], i - 1);
      InstallKeepsOthers(db, ws[0].0, ws[0].1, ws[i].0);
    }
  }
}
