/**
 The whole queue: workers, reapers and operators (Protocol), schedulers (Schedules) and clients
 that submit with idempotency keys (Submission) on one jobs table and one clock. Each of those
 modules takes the others as an environment; here every step of one of them is shown to be a
 step, or nothing, of the other two, so their results hold together.
 */
module WholeQueue {
  import opened Tables
  import Jobs = Protocol
  import Sch = Schedules
  import Sub = Submission
  import History

  datatype Queue = Queue(core: Jobs.Sys, sched: Sch.Sys, subs: Sub.Sub)

  // One jobs table and one clock.
  predicate Shared(q: Queue) {
    q.sched.jobs == q.core.db.jobs && q.subs.jobs == q.core.db.jobs && q.sched.clock == q.core.clock
  }

  datatype Event =
    | Tick(to: Time)
    | Work(job: Jobs.Event)
    | Schedule(step: Sch.Event)
    | Submit(call: Sub.Event)

  /** A step of one part. Rows without a key or a schedule, which create_job without a key and
      create_jobs_batch insert, come with the work; the other rows come from their own parts. */
  ghost predicate Enabled(cron: Sch.Cron, q: Queue, e: Event) {
    match e
    case Tick(to) => q.core.clock <= to
    case Work(e0) =>
      && Jobs.Enabled(q.core, e0) && !e0.Tick?
      && (e0.Insert? ==> e0.row.scheduleId == None && e0.row.idempotencyKey == None)
    case Schedule(e0) =>
      Sch.Enabled(cron, q.sched, e0) && |q.sched.origins| == |q.sched.schedules| && !e0.Tick? && !e0.Others?
    case Submit(e0) => Sub.Enabled(q.subs, e0) && !e0.Others?
  }

  function WithJobs(q: Queue, jobs: seq<Job>): Queue {
    Queue(q.core.(db := q.core.db.(jobs := jobs)), q.sched.(jobs := jobs), q.subs.(jobs := jobs))
  }

  ghost function Do(cron: Sch.Cron, q: Queue, e: Event): Queue
    requires Enabled(cron, q, e)
  {
    match e
    case Tick(to) => q.(core := q.core.(clock := to), sched := q.sched.(clock := to))
    case Work(e0) =>
      var core := Jobs.Do(q.core, e0);
      WithJobs(q.(core := core), core.db.jobs)
    case Schedule(e0) =>
      var sched := Sch.Do(cron, q.sched, e0);
      WithJobs(q.(sched := sched), sched.jobs)
    case Submit(e0) =>
      var subs := Sub.Do(q.subs, e0);
      WithJobs(q.(subs := subs), subs.jobs)
  }

  predicate Initial(q: Queue) {
    Jobs.Initial(q.core) && Sch.Initial(q.sched) && Sub.Initial(q.subs) && Shared(q)
  }

  ghost predicate Run(cron: Sch.Cron, q: Queue, es: seq<Event>, q': Queue)
    decreases |es|
  {
    if es == [] then q' == q
    else Enabled(cron, q, es[0]) && Run(cron, Do(cron, q, es[0]), es[1..], q')
  }

  ghost predicate Inv(cron: Sch.Cron, q: Queue) {
    Shared(q) && Jobs.Inv(q.core) && Sch.Inv(cron, q.sched) && Sub.Inv(q.subs)
  }

  // ---------------------------------------------------------------- what each part sees

  // Workers and reapers see a new row inserted, or nothing.
  ghost function JobSteps(cron: Sch.Cron, q: Queue, e: Event): seq<Jobs.Event>
    requires Enabled(cron, q, e)
  {
    match e
    case Tick(to) => [Jobs.Tick(to)]
    case Work(e0) => [e0]
    case _ =>
      var jobs := Do(cron, q, e).core.db.jobs;
      if |jobs| > |q.core.db.jobs| then [Jobs.Insert(jobs[|q.core.db.jobs|])] else []
  }

  ghost function ScheduleSteps(cron: Sch.Cron, q: Queue, e: Event): seq<Sch.Event>
    requires Enabled(cron, q, e)
  {
    match e
    case Tick(to) => [Sch.Tick(to)]
    case Schedule(e0) => [e0]
    case _ => [Sch.Others(Do(cron, q, e).core.db.jobs)]
  }

  ghost function ClientSteps(cron: Sch.Cron, q: Queue, e: Event): seq<Sub.Event>
    requires Enabled(cron, q, e)
  {
    match e
    case Tick(to) => []
    case Submit(e0) => [e0]
    case _ => [Sub.Others(Do(cron, q, e).core.db.jobs)]
  }

  lemma ScheduleStepProjects(cron: Sch.Cron, q: Queue, e: Event)
    requires Inv(cron, q) && Enabled(cron, q, e) && e.Schedule?
    ensures var q' := Do(cron, q, e);
            && Jobs.Run(q.core, JobSteps(cron, q, e), q'.core)
            && Sub.OtherWork(q.subs.jobs, q'.core.db.jobs)
  {
    var q' := Do(cron, q, e);
    if e.step.Materialize? {
      var sc, now := q.sched.schedules[e.step.id].value, q.sched.calls[e.step.t].now;
      var row := Sch.OccurrenceRow(sc, e.step.id, now);
      if Insertable(q.core.db.jobs, row) {
        Sch.OccurrenceIsInsert(q.core, sc, e.step.id, now);
        assert q'.core == Jobs.Do(q.core, Jobs.Insert(row));
        Jobs.OneStep(q.core, Jobs.Insert(row));
      }
    }
  }

  lemma SubmitStepProjects(cron: Sch.Cron, q: Queue, e: Event)
    requires Inv(cron, q) && Enabled(cron, q, e) && e.Submit?
    ensures var q' := Do(cron, q, e);
            && Jobs.Run(q.core, JobSteps(cron, q, e), q'.core)
            && Sch.OtherWork(q.sched.jobs, q'.core.db.jobs)
  {
    var q' := Do(cron, q, e);
    if |q'.core.db.jobs| > |q.core.db.jobs| {
      assert q'.core == Jobs.Do(q.core, Jobs.Insert(e.call.row));
      Jobs.OneStep(q.core, Jobs.Insert(e.call.row));
    }
  }

  /** Each part of a step is a run of its module. */
  lemma StepProjects(cron: Sch.Cron, q: Queue, e: Event)
    requires Inv(cron, q) && Enabled(cron, q, e)
    ensures var q' := Do(cron, q, e);
            && Shared(q')
            && Jobs.Run(q.core, JobSteps(cron, q, e), q'.core)
            && Sch.Run(cron, q.sched, ScheduleSteps(cron, q, e), q'.sched)
            && Sub.Run(q.subs, ClientSteps(cron, q, e), q'.subs)
  {
    match e {
      case Tick(to) =>
        Jobs.OneStep(q.core, Jobs.Tick(to));
        Sch.OneStep(cron, q.sched, Sch.Tick(to));
      case Work(e0) =>
        Jobs.OneStep(q.core, e0);
        Sch.ProtocolIsOtherWork(q.core, e0);
        Sub.ProtocolIsOtherWork(q.core, e0);
        Sch.OneStep(cron, q.sched, ScheduleSteps(cron, q, e)[0]);
        Sub.OneStep(q.subs, ClientSteps(cron, q, e)[0]);
      case Schedule(e0) =>
        ScheduleStepProjects(cron, q, e);
        Sch.OneStep(cron, q.sched, e0);
        Sub.OneStep(q.subs, ClientSteps(cron, q, e)[0]);
      case Submit(e0) =>
        SubmitStepProjects(cron, q, e);
        Sch.OneStep(cron, q.sched, ScheduleSteps(cron, q, e)[0]);
        Sub.OneStep(q.subs, e0);
    }
  }

  lemma StepKeepsInv(cron: Sch.Cron, q: Queue, e: Event)
    requires Sch.IsCron(cron) && Inv(cron, q) && Enabled(cron, q, e)
    ensures Inv(cron, Do(cron, q, e))
  {
    var q' := Do(cron, q, e);
    StepProjects(cron, q, e);
    Jobs.RunKeepsInv(q.core, JobSteps(cron, q, e), q'.core);
    Sch.RunKeepsInv(cron, q.sched, ScheduleSteps(cron, q, e), q'.sched);
    Sub.RunKeepsInv(q.subs, ClientSteps(cron, q, e), q'.subs);
  }

  // ---------------------------------------------------------------- whole runs

  // What workers and reapers, schedulers, and clients see of a run.
  ghost function JobRun(cron: Sch.Cron, q: Queue, es: seq<Event>, q': Queue): seq<Jobs.Event>
    requires Run(cron, q, es, q')
    decreases |es|
  {
    if es == [] then [] else JobSteps(cron, q, es[0]) + JobRun(cron, Do(cron, q, es[0]), es[1..], q')
  }

  ghost function ScheduleRun(cron: Sch.Cron, q: Queue, es: seq<Event>, q': Queue): seq<Sch.Event>
    requires Run(cron, q, es, q')
    decreases |es|
  {
    if es == [] then [] else ScheduleSteps(cron, q, es[0]) + ScheduleRun(cron, Do(cron, q, es[0]), es[1..], q')
  }

  ghost function ClientRun(cron: Sch.Cron, q: Queue, es: seq<Event>, q': Queue): seq<Sub.Event>
    requires Run(cron, q, es, q')
    decreases |es|
  {
    if es == [] then [] else ClientSteps(cron, q, es[0]) + ClientRun(cron, Do(cron, q, es[0]), es[1..], q')
  }

  /** Every run of the whole queue is at the same time a run of the job protocol, a run of the
      schedules and a run of the submissions: what each of them assumes of its environment, the
      others do. */
  lemma {:induction false} RunProjects(cron: Sch.Cron, q: Queue, es: seq<Event>, q': Queue)
    requires Sch.IsCron(cron) && Inv(cron, q) && Run(cron, q, es, q')
    ensures Jobs.Run(q.core, JobRun(cron, q, es, q'), q'.core)
    ensures Sch.Run(cron, q.sched, ScheduleRun(cron, q, es, q'), q'.sched)
    ensures Sub.Run(q.subs, ClientRun(cron, q, es, q'), q'.subs)
    ensures Inv(cron, q')
    decreases |es|
  {
    if es != [] {
      var e, m, rest := es[0], Do(cron, q, es[0]), es[1..];
      StepProjects(cron, q, e);
      StepKeepsInv(cron, q, e);
      RunProjects(cron, m, rest, q');
      Jobs.RunConcat(q.core, JobSteps(cron, q, e), m.core, JobRun(cron, m, rest, q'), q'.core);
      Sch.RunConcat(cron, q.sched, ScheduleSteps(cron, q, e), m.sched, ScheduleRun(cron, m, rest, q'), q'.sched);
      Sub.RunConcat(q.subs, ClientSteps(cron, q, e), m.subs, ClientRun(cron, m, rest, q'), q'.subs);
    }
  }

  // The attempt log of a job of the whole queue.
  ghost predicate LogExact(db: Db, j: JobId) {
    && j < |db.jobs|
    && (forall n: nat :: (j, n) in db.attempts <==> 1 <= n <= db.jobs[j].attemptCount)
    && (j in db.deadLetters <==> db.jobs[j].status == DeadLettered)
    && db.jobs[j].attemptCount <= db.jobs[j].maxRetries + 1
  }

  lemma LogsAreExact(q: Queue, j: JobId)
    requires Jobs.Inv(q.core) && j < |q.core.db.jobs|
    ensures LogExact(q.core.db, j)
  {
    assert JobOk(q.core.db, j);
  }

  /** A cron occurrence between the latest resume and next_run_at has exactly one job while
      workers, reapers, clients and racing pauses and resumes all interleave, and that job is
      worked at most max_retries + 1 times, with the template of the schedule's creation. */
  lemma OccurrenceWorkedOnce(cron: Sch.Cron, q0: Queue, es: seq<Event>, q: Queue, id: nat, at: Time) returns (j: JobId)
    requires Sch.IsCron(cron) && Initial(q0) && Run(cron, q0, es, q)
    requires Sch.Live(q.sched, id) && id < |q.sched.origins|
    requires q.sched.origins[id].resumedAt < at < q.sched.schedules[id].value.nextRunAt
    requires cron.occurs(q.sched.schedules[id].value.expression, at)
    ensures j < |q.core.db.jobs| && Sch.OnlyJobOf(q.core.db.jobs, id, at, j)
    ensures LogExact(q.core.db, j) && Sch.OfTemplate(q.core.db.jobs[j], q.sched.origins[id])
  {
    RunProjects(cron, q0, es, q);
    Sch.OccurrencesExactlyOnce(cron, q0.sched, ScheduleRun(cron, q0, es, q), q.sched, id, at);
    j :| 0 <= j < |q.core.db.jobs| && Sch.OnlyJobOf(q.core.db.jobs, id, at, j);
    LogsAreExact(q, j);
  }

  /** A keyed submission is atomic while everything else goes on: its key has one job, whatever
      workers and schedulers did to the rows since, every call with its fingerprint got that job,
      every other call the conflict. */
  lemma SubmittedOnce(cron: Sch.Cron, q0: Queue, es: seq<Event>, q: Queue, c: nat) returns (j: JobId)
    requires Sch.IsCron(cron) && Initial(q0) && Run(cron, q0, es, q)
    requires c in q.subs.clients && q.subs.clients[c].stage.Replied? && q.subs.clients[c].key != ""
    ensures j < |q.core.db.jobs| && q.core.db.jobs[j].idempotencyKey == Some(q.subs.clients[c].key)
    ensures forall k :: 0 <= k < |q.core.db.jobs| ==>
              (q.core.db.jobs[k].idempotencyKey == Some(q.subs.clients[c].key) <==> k == j)
    ensures q.subs.clients[c].stage.reply ==
            if q.core.db.jobs[j].fingerprint == Some(q.subs.clients[c].fingerprint) then Sub.Got(j) else Sub.Conflict
    ensures LogExact(q.core.db, j)
  {
    RunProjects(cron, q0, es, q);
    Sub.OneJobPerKey(q0.subs, ClientRun(cron, q0, es, q), q.subs, c);
    j := Sub.RowOfKey(q.subs.jobs, q.subs.clients[c].key);
    LogsAreExact(q, j);
  }
}
