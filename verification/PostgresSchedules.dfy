/**
 Materialisation in the PostgreSQL repository: schedule rows are locked with FOR UPDATE SKIP
 LOCKED, the job rows and the new versions of the schedules are buffered, and everything is
 published by one COMMIT. Pauses, resumes and deletions of a locked schedule wait. Every run is
 a run of module Schedules on the committed tables.
 */
module PostgresSchedules {
  import opened Tables
  import opened Schedules

  // What the loop buffered for one schedule; `conflict` says that ON CONFLICT DO NOTHING applied.
  datatype Write = Write(id: nat, row: Job, conflict: bool, advanced: Schedule)

  datatype Pg = Pg(sys: Sys, locks: map<nat, nat>, writes: map<nat, seq<Write>>)

  datatype PgEvent =
    | Plain(e: Event)
    | Lock(t: nat, id: nat)
    | Buffer(t: nat, id: nat)
    | Finish(t: nat)
    | Rollback(t: nat)

  function Buffered(p: Pg, t: nat): seq<Write> {
    if t in p.writes then p.writes[t] else []
  }

  function Apply(jobs: seq<Job>, schedules: Schedules, w: Write): (seq<Job>, Schedules)
    requires w.id < |schedules|
  {
    (if w.conflict then jobs else jobs + [w.row], schedules[w.id := Some(w.advanced)])
  }

  function ApplyAll(jobs: seq<Job>, schedules: Schedules, ws: seq<Write>): (seq<Job>, Schedules)
    requires forall i :: 0 <= i < |ws| ==> ws[i].id < |schedules|
    decreases |ws|
  {
    if ws == [] then (jobs, schedules)
    else
      var (jobs1, schedules1) := Apply(jobs, schedules, ws[0]);
      ApplyAll(jobs1, schedules1, ws[1..])
  }

  // ---------------------------------------------------------------- steps

  predicate IsMaterializer(p: Pg, t: nat) {
    t in p.sys.calls && p.sys.calls[t].Materializing?
  }

  // The step writes no schedule row that a transaction has locked, and ends none.
  predicate NoWait(p: Pg, e: Event) {
    match e
    case WriteToggle(t) => t in p.sys.calls && p.sys.calls[t].Toggling? && p.sys.calls[t].id !in p.locks
    case Delete(id) => id !in p.locks
    case Return(t) => t !in p.writes && forall id :: id in p.locks ==> p.locks[id] != t
    case Materialize(_, _) => false
    case _ => true
  }

  predicate PgEnabled(cron: Cron, p: Pg, e: PgEvent) {
    && |p.sys.origins| == |p.sys.schedules|
    && match e
       case Plain(e0) => Enabled(cron, p.sys, e0) && NoWait(p, e0)
       case Lock(t, id) =>
         IsMaterializer(p, t) && id !in p.locks && DueSchedule(p.sys.schedules, id, p.sys.calls[t].now)
       case Buffer(t, id) =>
         && IsMaterializer(p, t) && id in p.locks && p.locks[id] == t && Live(p.sys, id)
         && forall i :: 0 <= i < |Buffered(p, t)| ==> Buffered(p, t)[i].id != id
       case Finish(t) =>
         IsMaterializer(p, t) && forall i :: 0 <= i < |Buffered(p, t)| ==> Buffered(p, t)[i].id < |p.sys.schedules|
       case Rollback(t) => IsMaterializer(p, t)
  }

  // The INSERT and the UPDATE of one iteration, on the row that the SELECT returned.
  function NewWrite(cron: Cron, p: Pg, t: nat, id: nat): Write
    requires IsMaterializer(p, t) && Live(p.sys, id)
  {
    var sc := p.sys.schedules[id].value;
    var row := OccurrenceRow(sc, id, p.sys.calls[t].now);
    Write(id, row, !Insertable(p.sys.jobs, row), Advanced(cron, sc, p.sys.calls[t].now))
  }

  function Unlock(p: Pg, sys: Sys, t: nat): Pg {
    Pg(sys, map id | id in p.locks && p.locks[id] != t :: p.locks[id], p.writes - {t})
  }

  function PgDo(cron: Cron, p: Pg, e: PgEvent): Pg
    requires PgEnabled(cron, p, e)
  {
    match e
    case Plain(e0) => p.(sys := Do(cron, p.sys, e0))
    case Lock(t, id) => p.(locks := p.locks[id := t])
    case Buffer(t, id) => p.(writes := p.writes[t := Buffered(p, t) + [NewWrite(cron, p, t, id)]])
    case Finish(t) =>
      var (jobs', schedules') := ApplyAll(p.sys.jobs, p.sys.schedules, Buffered(p, t));
      Unlock(p, p.sys.(jobs := jobs', schedules := schedules', calls := p.sys.calls - {t}), t)
    case Rollback(t) => Unlock(p, p.sys.(calls := p.sys.calls - {t}), t)
  }

  // ---------------------------------------------------------------- the lock invariant

  // The buffered rows are what the row step of the protocol would write now.
  ghost predicate WriteOk(cron: Cron, s: Sys, t: nat, w: Write) {
    && t in s.calls && s.calls[t].Materializing?
    && DueSchedule(s.schedules, w.id, s.calls[t].now)
    && w.row == OccurrenceRow(s.schedules[w.id].value, w.id, s.calls[t].now)
    && w.conflict == !Insertable(s.jobs, w.row)
    && w.advanced == Advanced(cron, s.schedules[w.id].value, s.calls[t].now)
  }

  predicate DistinctIds(ws: seq<Write>) {
    forall i, k :: 0 <= i < k < |ws| ==> ws[i].id != ws[k].id
  }

  ghost predicate LockInv(cron: Cron, p: Pg) {
    && (forall id :: id in p.locks ==>
          IsMaterializer(p, p.locks[id]) && DueSchedule(p.sys.schedules, id, p.sys.calls[p.locks[id]].now))
    && (forall t :: t in p.writes ==>
          && DistinctIds(p.writes[t])
          && forall i :: 0 <= i < |p.writes[t]| ==>
               && WriteOk(cron, p.sys, t, p.writes[t][i])
               && p.writes[t][i].id in p.locks && p.locks[p.writes[t][i].id] == t)
  }

  ghost predicate PgInv(cron: Cron, p: Pg) {
    IsCron(cron) && Inv(cron, p.sys) && LockInv(cron, p)
  }

  // A buffered write stays right while its schedule and the jobs of its schedule stay.
  lemma WriteStays(cron: Cron, s: Sys, s': Sys, t: nat, w: Write)
    requires WriteOk(cron, s, t, w)
    requires t in s'.calls && s'.calls[t] == s.calls[t]
    requires w.id < |s'.schedules| && s'.schedules[w.id] == s.schedules[w.id]
    requires forall at :: OccurrenceTaken(s'.jobs, w.id, at) <==> OccurrenceTaken(s.jobs, w.id, at)
    ensures WriteOk(cron, s', t, w)
  {
  }

  // Adding a job of another schedule, or of none, takes no occurrence of this one.
  lemma OtherJobTakesNothing(jobs: seq<Job>, row: Job, id: nat, at: Time)
    requires row.scheduleId != Some(id)
    ensures OccurrenceTaken(jobs + [row], id, at) <==> OccurrenceTaken(jobs, id, at)
  {
    if OccurrenceTaken(jobs, id, at) {
      var k :| 0 <= k < |jobs| && jobs[k].scheduleId == Some(id) && jobs[k].scheduledFor == Some(at);
      assert (jobs + [row])[k] == jobs[k];
    }
  }

  lemma OtherWorkTakesNothing(jobs: seq<Job>, jobs': seq<Job>, id: nat, at: Time)
    requires OtherWork(jobs, jobs')
    ensures OccurrenceTaken(jobs', id, at) <==> OccurrenceTaken(jobs, id, at)
  {
    if OccurrenceTaken(jobs, id, at) {
      var k :| 0 <= k < |jobs| && jobs[k].scheduleId == Some(id) && jobs[k].scheduledFor == Some(at);
      assert jobs'[k].scheduleId == Some(id) && jobs'[k].scheduledFor == Some(at);
    }
  }

  lemma {:induction false} CommitTakesOwnOnly(jobs: seq<Job>, schedules: Schedules, ws: seq<Write>, id: nat, at: Time)
    requires forall i :: 0 <= i < |ws| ==> ws[i].id < |schedules| && ws[i].id != id && ws[i].row.scheduleId != Some(id)
    ensures var (jobs', schedules') := ApplyAll(jobs, schedules, ws);
            && |schedules'| == |schedules| && (id < |schedules| ==> schedules'[id] == schedules[id])
            && (OccurrenceTaken(jobs', id, at) <==> OccurrenceTaken(jobs, id, at))
    decreases |ws|
  {
    if ws != [] {
      var (jobs1, schedules1) := Apply(jobs, schedules, ws[0]);
      OtherJobTakesNothing(jobs, ws[0].row, id, at);
      CommitTakesOwnOnly(jobs1, schedules1, ws[1..], id, at);
    }
  }

  // ---------------------------------------------------------------- refinement

  function RowEvents(t: nat, ws: seq<Write>): seq<Event> {
    if ws == [] then [] else [Materialize(t, ws[0].id)] + RowEvents(t, ws[1..])
  }

  lemma {:induction false} RowsRefine(cron: Cron, s: Sys, t: nat, ws: seq<Write>)
    requires |s.origins| == |s.schedules| && DistinctIds(ws)
    requires forall i :: 0 <= i < |ws| ==> WriteOk(cron, s, t, ws[i])
    ensures forall i :: 0 <= i < |ws| ==> ws[i].id < |s.schedules|
    ensures var (jobs', schedules') := ApplyAll(s.jobs, s.schedules, ws);
            && |schedules'| == |s.schedules|
            && Run(cron, s, RowEvents(t, ws), s.(jobs := jobs', schedules := schedules'))
    decreases |ws|
  {
    if ws != [] {
      var w := ws[0];
      assert WriteOk(cron, s, t, w);
      var m := Do(cron, s, Materialize(t, w.id));
      assert (m.jobs, m.schedules) == Apply(s.jobs, s.schedules, w);
      forall i | 0 <= i < |ws[1..]|
        ensures WriteOk(cron, m, t, ws[1..][i])
      {
        var v := ws[1..][i];
        assert v == ws[i + 1] && v.id != w.id;
        forall at
          ensures OccurrenceTaken(m.jobs, v.id, at) <==> OccurrenceTaken(s.jobs, v.id, at)
        {
          OtherJobTakesNothing(s.jobs, w.row, v.id, at);
        }
        WriteStays(cron, s, m, t, v);
      }
      RowsRefine(cron, m, t, ws[1..]);
      assert RowEvents(t, ws)[1..] == RowEvents(t, ws[1..]);
    }
  }

  /** Every step of the locking transactions is a run of row steps on the committed tables. */
  lemma StepRefines(cron: Cron, p: Pg, e: PgEvent) returns (es: seq<Event>)
    requires PgInv(cron, p) && PgEnabled(cron, p, e)
    ensures Run(cron, p.sys, es, PgDo(cron, p, e).sys)
  {
    match e {
      case Plain(e0) =>
        es := [e0];
        OneStep(cron, p.sys, e0);
      case Finish(t) =>
        var ws := Buffered(p, t);
        RowsRefine(cron, p.sys, t, ws);
        var (jobs', schedules') := ApplyAll(p.sys.jobs, p.sys.schedules, ws);
        var m := p.sys.(jobs := jobs', schedules := schedules');
        OneStep(cron, m, Return(t));
        es := RowEvents(t, ws) + [Return(t)];
        RunConcat(cron, p.sys, RowEvents(t, ws), m, [Return(t)], Do(cron, m, Return(t)));
      case Rollback(t) =>
        es := [Return(t)];
        OneStep(cron, p.sys, Return(t));
      case _ =>
        es := [];
    }
  }

  lemma PlainKeepsLocks(cron: Cron, p: Pg, e: Event)
    requires PgInv(cron, p) && PgEnabled(cron, p, Plain(e))
    ensures LockInv(cron, PgDo(cron, p, Plain(e)))
  {
    var p' := PgDo(cron, p, Plain(e));
    forall t, i | t in p'.writes && 0 <= i < |p'.writes[t]|
      ensures WriteOk(cron, p'.sys, t, p'.writes[t][i])
    {
      var w := p.writes[t][i];
      assert WriteOk(cron, p.sys, t, w);
      forall at
        ensures OccurrenceTaken(p'.sys.jobs, w.id, at) <==> OccurrenceTaken(p.sys.jobs, w.id, at)
      {
        if e.Others? {
          OtherWorkTakesNothing(p.sys.jobs, p'.sys.jobs, w.id, at);
        }
      }
      WriteStays(cron, p.sys, p'.sys, t, w);
    }
  }

  lemma FinishKeepsLocks(cron: Cron, p: Pg, t: nat)
    requires PgInv(cron, p) && PgEnabled(cron, p, Finish(t))
    ensures LockInv(cron, PgDo(cron, p, Finish(t)))
  {
    var p' := PgDo(cron, p, Finish(t));
    var ws := Buffered(p, t);
    forall id, at | id in p.locks && p.locks[id] != t
      ensures id < |p'.sys.schedules| && p'.sys.schedules[id] == p.sys.schedules[id]
      ensures OccurrenceTaken(p'.sys.jobs, id, at) <==> OccurrenceTaken(p.sys.jobs, id, at)
    {
      forall i | 0 <= i < |ws|
        ensures ws[i].id != id && ws[i].row.scheduleId != Some(id)
      {
        assert WriteOk(cron, p.sys, t, ws[i]);
      }
      CommitTakesOwnOnly(p.sys.jobs, p.sys.schedules, ws, id, at);
    }
    forall id | id in p'.locks
      ensures IsMaterializer(p', p'.locks[id]) && DueSchedule(p'.sys.schedules, id, p'.sys.calls[p'.locks[id]].now)
    {
      assert OccurrenceTaken(p'.sys.jobs, id, 0) <==> OccurrenceTaken(p.sys.jobs, id, 0);
    }
    forall u, i | u in p'.writes && 0 <= i < |p'.writes[u]|
      ensures WriteOk(cron, p'.sys, u, p'.writes[u][i])
    {
      assert OccurrenceTaken(p'.sys.jobs, p.writes[u][i].id, 0) <==> OccurrenceTaken(p.sys.jobs, p.writes[u][i].id, 0);
      WriteStays(cron, p.sys, p'.sys, u, p.writes[u][i]);
    }
  }

  lemma BufferKeepsLocks(cron: Cron, p: Pg, t: nat, id: nat)
    requires PgInv(cron, p) && PgEnabled(cron, p, Buffer(t, id))
    ensures LockInv(cron, PgDo(cron, p, Buffer(t, id)))
  {
    var p' := PgDo(cron, p, Buffer(t, id));
    assert WriteOk(cron, p.sys, t, NewWrite(cron, p, t, id));
    forall u, i | u in p'.writes && 0 <= i < |p'.writes[u]|
      ensures WriteOk(cron, p'.sys, u, p'.writes[u][i])
    {
      if u in p.writes && i < |p.writes[u]| {
        assert WriteOk(cron, p.sys, u, p.writes[u][i]);
      }
    }
  }

  lemma RollbackKeepsLocks(cron: Cron, p: Pg, t: nat)
    requires PgInv(cron, p) && PgEnabled(cron, p, Rollback(t))
    ensures LockInv(cron, PgDo(cron, p, Rollback(t)))
  {
    var p' := PgDo(cron, p, Rollback(t));
    forall u, i | u in p'.writes && 0 <= i < |p'.writes[u]|
      ensures WriteOk(cron, p'.sys, u, p'.writes[u][i])
    {
      WriteStays(cron, p.sys, p'.sys, u, p.writes[u][i]);
    }
  }

  lemma StepKeepsPgInv(cron: Cron, p: Pg, e: PgEvent)
    requires PgInv(cron, p) && PgEnabled(cron, p, e)
    ensures PgInv(cron, PgDo(cron, p, e))
  {
    var es := StepRefines(cron, p, e);
    RunKeepsInv(cron, p.sys, es, PgDo(cron, p, e).sys);
    match e {
      case Plain(e0) => PlainKeepsLocks(cron, p, e0);
      case Finish(t) => FinishKeepsLocks(cron, p, t);
      case Buffer(t, id) => BufferKeepsLocks(cron, p, t, id);
      case Rollback(t) => RollbackKeepsLocks(cron, p, t);
      case Lock(t, id) =>
    }
  }

  ghost predicate PgRun(cron: Cron, p: Pg, es: seq<PgEvent>, p': Pg)
    decreases |es|
  {
    if es == [] then p' == p
    else PgEnabled(cron, p, es[0]) && PgRun(cron, PgDo(cron, p, es[0]), es[1..], p')
  }

  /** Refinement: whatever the locking materialisers, pauses, resumes and deletions do, the
      committed tables go through a run of module Schedules. */
  lemma {:induction false} PgRefinesSchedules(cron: Cron, p: Pg, pes: seq<PgEvent>, p': Pg) returns (es: seq<Event>)
    requires PgInv(cron, p) && PgRun(cron, p, pes, p')
    ensures Run(cron, p.sys, es, p'.sys) && PgInv(cron, p')
    decreases |pes|
  {
    if pes == [] {
      es := [];
    } else {
      var m := PgDo(cron, p, pes[0]);
      var first := StepRefines(cron, p, pes[0]);
      StepKeepsPgInv(cron, p, pes[0]);
      var rest := PgRefinesSchedules(cron, m, pes[1..], p');
      RunConcat(cron, p.sys, first, m.sys, rest, p'.sys);
      es := first + rest;
    }
  }

  /** So the occurrences are gap-free and exactly once in the PostgreSQL repository as well. */
  lemma PgOccurrencesExactlyOnce(cron: Cron, p0: Pg, pes: seq<PgEvent>, p: Pg, id: nat, o: Time)
    requires IsCron(cron) && Initial(p0.sys) && p0.locks == map[] && p0.writes == map[] && PgRun(cron, p0, pes, p)
    requires Live(p.sys, id) && id < |p.sys.origins|
    requires p.sys.origins[id].resumedAt < o < p.sys.schedules[id].value.nextRunAt
    requires cron.occurs(p.sys.schedules[id].value.expression, o)
    ensures TakenOnce(p.sys.jobs, id, o)
  {
    var es := PgRefinesSchedules(cron, p0, pes, p);
    OccurrencesExactlyOnce(cron, p0.sys, es, p.sys, id, o);
  }

  /** And every job of a schedule is a true occurrence with the template of the creation. */
  lemma PgJobsAreOccurrences(cron: Cron, p0: Pg, pes: seq<PgEvent>, p: Pg, k: nat)
    requires IsCron(cron) && Initial(p0.sys) && p0.locks == map[] && p0.writes == map[] && PgRun(cron, p0, pes, p)
    requires k < |p.sys.jobs| && p.sys.jobs[k].scheduleId.Some?
    ensures p.sys.jobs[k].scheduleId.value < |p.sys.origins| && p.sys.jobs[k].scheduledFor.Some?
    ensures var og := p.sys.origins[p.sys.jobs[k].scheduleId.value];
            && cron.occurs(og.expression, p.sys.jobs[k].scheduledFor.value)
            && og.createdAt < p.sys.jobs[k].scheduledFor.value <= p.sys.clock
            && OfTemplate(p.sys.jobs[k], og)
  {
    var es := PgRefinesSchedules(cron, p0, pes, p);
    JobsAreOccurrences(cron, p0.sys, es, p.sys, k);
  }
}
