/**
 Recurring schedules: materialising due occurrences while clients create, pause, resume and
 delete schedules in transactions of their own.
 */
module Schedules {
  import opened Tables
  import Protocol
  import History

  // ---------------------------------------------------------------- cron

  /** Cron expressions by what they mean: which are accepted, which instants they name, and what
      next_cron_run returns. */
  datatype Cron = Cron(
    valid: string -> bool,
    occurs: (string, Time) -> bool,
    next: (string, Time) -> Time)

  // next_cron_run returns the first occurrence strictly after its argument.
  ghost predicate IsCron(cron: Cron) {
    forall expr, t :: cron.valid(expr) ==>
      && t < cron.next(expr, t) && cron.occurs(expr, cron.next(expr, t))
      && forall o :: t < o < cron.next(expr, t) ==> !cron.occurs(expr, o)
  }

  // ---------------------------------------------------------------- tables

  datatype Schedule = Schedule(
    expression: string,
    payload: Payload,
    priority: int,
    maxRetries: nat,
    timeout: nat,
    enabled: bool,
    nextRunAt: Time,
    lastRunAt: Option<Time>,
    createdAt: Time,
    updatedAt: Time)

  // A deleted schedule leaves None at its position, so that positions stay ids.
  type Schedules = seq<Option<Schedule>>

  predicate DueSchedule(schedules: Schedules, i: nat, now: Time) {
    && i < |schedules| && schedules[i].Some?
    && schedules[i].value.enabled && schedules[i].value.nextRunAt <= now
  }

  // INSERT OR IGNORE INTO jobs(... scheduled_for = run_at = next_run_at ...)
  function OccurrenceRow(sc: Schedule, i: nat, now: Time): Job {
    Job(None, None, Some(i), Some(sc.nextRunAt), Queued, sc.payload, None, sc.priority, sc.maxRetries, sc.timeout,
        0, None, sc.nextRunAt, None, None, now, now, None)
  }

  function InsertOrIgnore(jobs: seq<Job>, row: Job): seq<Job> {
    if Insertable(jobs, row) then jobs + [row] else jobs
  }

  function Advanced(cron: Cron, sc: Schedule, now: Time): Schedule {
    sc.(lastRunAt := Some(sc.nextRunAt), nextRunAt := cron.next(sc.expression, sc.nextRunAt), updatedAt := now)
  }

  // ---------------------------------------------------------------- steps

  /** A call between its clock reading and its write. set_schedule_enabled reads the row in one
      transaction (`ToggleRead`), then its clock (`Toggling`), and writes in another one. */
  datatype Call =
    | ToggleRead(id: nat, enabled: bool, expression: string, seenNext: Time)
    | Toggling(id: nat, enabled: bool, now: Time, nextRunAt: Time)
    | Creating(now: Time)
    | Materializing(now: Time)

  // Where a schedule comes from: the template it was created with, and the latest clock reading
  // that a resume has written with (its creation, before the first one). History; no code reads it.
  datatype Origin = Origin(
    expression: string,
    payload: Payload,
    priority: int,
    maxRetries: nat,
    timeout: nat,
    createdAt: Time,
    resumedAt: Time)

  datatype Sys = Sys(
    jobs: seq<Job>,
    schedules: Schedules,
    clock: Time,
    calls: map<nat, Call>,
    origins: seq<Origin>)

  datatype Event =
    | Tick(to: Time)
    | Others(jobs: seq<Job>)
    | ReadClock(t: nat, call: Call)
    | ReadRow(t: nat, id: nat, enabled: bool)
    | ComputeNext(t: nat)
    | WriteToggle(t: nat)
    | Create(t: nat, row: Schedule)
    | Materialize(t: nat, id: nat)
    | Delete(id: nat)
    | Return(t: nat)

  // The columns that a job takes over from its schedule.
  predicate OfTemplate(job: Job, og: Origin) {
    job.payload == og.payload && job.priority == og.priority && job.maxRetries == og.maxRetries && job.timeout == og.timeout
  }

  predicate SameTemplateColumns(a: Job, b: Job) {
    a.payload == b.payload && a.priority == b.priority && a.maxRetries == b.maxRetries && a.timeout == b.timeout
  }

  // Steps of workers, reapers and clients: rows keep their occurrence and the columns of their
  // template, new rows have no occurrence.
  predicate OtherWork(jobs: seq<Job>, jobs': seq<Job>) {
    && |jobs| <= |jobs'|
    && (forall i :: 0 <= i < |jobs| ==>
          && jobs'[i].scheduleId == jobs[i].scheduleId && jobs'[i].scheduledFor == jobs[i].scheduledFor
          && SameTemplateColumns(jobs'[i], jobs[i]))
    && (forall i :: |jobs| <= i < |jobs'| ==> jobs'[i].scheduleId == None)
  }

  predicate Live(s: Sys, id: nat) {
    id < |s.schedules| && s.schedules[id].Some?
  }

  predicate Enabled(cron: Cron, s: Sys, e: Event) {
    match e
    case Tick(to) => s.clock <= to
    case Others(jobs) => OtherWork(s.jobs, jobs)
    case ReadClock(t, call) =>
      t !in s.calls && (call == Creating(s.clock) || call == Materializing(s.clock))
    case ReadRow(t, id, _) => t !in s.calls && Live(s, id)
    case ComputeNext(t) => t in s.calls && s.calls[t].ToggleRead?
    case WriteToggle(t) => t in s.calls && s.calls[t].Toggling?
    case Create(t, row) =>
      // an invalid expression raises before the INSERT
      && t in s.calls && s.calls[t].Creating? && cron.valid(row.expression)
      && row.enabled && row.lastRunAt == None
      && row.createdAt == s.calls[t].now && row.updatedAt == s.calls[t].now
      && row.nextRunAt == cron.next(row.expression, s.calls[t].now)
    case Materialize(t, id) =>
      t in s.calls && s.calls[t].Materializing? && DueSchedule(s.schedules, id, s.calls[t].now)
    case Delete(id) => Live(s, id)
    case Return(t) => t in s.calls
  }

  function Max(a: Time, b: Time): Time {
    if a <= b then b else a
  }

  function Do(cron: Cron, s: Sys, e: Event): Sys
    requires Enabled(cron, s, e) && |s.origins| == |s.schedules|
  {
    match e
    case Tick(to) => s.(clock := to)
    case Others(jobs) => s.(jobs := jobs)
    case ReadClock(t, call) => s.(calls := s.calls[t := call])
    case ReadRow(t, id, enabled) =>
      var sc := s.schedules[id].value;
      s.(calls := s.calls[t := ToggleRead(id, enabled, sc.expression, sc.nextRunAt)])
    case ComputeNext(t) =>
      var c := s.calls[t];
      s.(calls := s.calls[t := Toggling(c.id, c.enabled, s.clock,
                                        if c.enabled then cron.next(c.expression, s.clock) else c.seenNext)])
    case WriteToggle(t) =>
      var c := s.calls[t];
      var s1 := s.(calls := s.calls - {t});
      // a schedule that was deleted in between matches no row
      if !Live(s, c.id) then s1
      else
        var sc := s.schedules[c.id].value;
        s1.(schedules := s.schedules[c.id := Some(sc.(enabled := c.enabled, nextRunAt := c.nextRunAt, updatedAt := c.now))],
            origins := if c.enabled
                       then s.origins[c.id := s.origins[c.id].(resumedAt := Max(s.origins[c.id].resumedAt, c.now))]
                       else s.origins)
    case Create(t, row) =>
      s.(schedules := s.schedules + [Some(row)],
         origins := s.origins + [Origin(row.expression, row.payload, row.priority, row.maxRetries, row.timeout,
                                      row.createdAt, row.createdAt)],
         calls := s.calls - {t})
    case Materialize(t, id) =>
      var sc := s.schedules[id].value;
      s.(jobs := InsertOrIgnore(s.jobs, OccurrenceRow(sc, id, s.calls[t].now)),
         schedules := s.schedules[id := Some(Advanced(cron, sc, s.calls[t].now))])
    case Delete(id) => s.(schedules := s.schedules[id := None])
    case Return(t) => s.(calls := s.calls - {t})
  }

  predicate Initial(s: Sys) {
    s.jobs == [] && s.schedules == [] && s.calls == map[] && s.origins == []
  }

  ghost predicate Run(cron: Cron, s: Sys, es: seq<Event>, s': Sys)
    decreases |es|
  {
    if es == [] then s' == s
    else Enabled(cron, s, es[0]) && |s.origins| == |s.schedules| && Run(cron, Do(cron, s, es[0]), es[1..], s')
  }

  // Every step of the job protocol that does not insert an occurrence leaves occurrences alone.
  lemma ProtocolIsOtherWork(s: Protocol.Sys, e: Protocol.Event)
    requires Protocol.Inv(s) && Protocol.Enabled(s, e)
    requires e.Insert? ==> e.row.scheduleId == None
    ensures OtherWork(s.db.jobs, Protocol.Do(s, e).db.jobs)
  {
    History.StepEvolves(s, e);
    forall i | 0 <= i < |s.db.jobs|
      ensures SameTemplateColumns(Protocol.Do(s, e).db.jobs[i], s.db.jobs[i])
    {
      assert History.SameIdentity(s.db.jobs[i], Protocol.Do(s, e).db.jobs[i]);
    }
  }

  // A materialised row is one that the protocol can insert.
  lemma OccurrenceIsInsert(s: Protocol.Sys, sc: Schedule, i: nat, now: Time)
    requires Insertable(s.db.jobs, OccurrenceRow(sc, i, now))
    ensures Protocol.Enabled(s, Protocol.Insert(OccurrenceRow(sc, i, now)))
    ensures InsertOrIgnore(s.db.jobs, OccurrenceRow(sc, i, now)) ==
            Protocol.Do(s, Protocol.Insert(OccurrenceRow(sc, i, now))).db.jobs
  {
  }

  // ---------------------------------------------------------------- the invariant

  // Every occurrence strictly between `from` and `to` has a job.
  ghost predicate Covered(cron: Cron, jobs: seq<Job>, id: nat, expr: string, from: Time, to: Time) {
    forall o :: from < o < to && cron.occurs(expr, o) ==> OccurrenceTaken(jobs, id, o)
  }

  // A value of next_run_at that may be written without leaving a gap behind.
  ghost predicate GoodNext(cron: Cron, s: Sys, id: nat, next: Time)
    requires id < |s.origins|
  {
    var og := s.origins[id];
    && cron.occurs(og.expression, next) && og.createdAt < next
    && Covered(cron, s.jobs, id, og.expression, og.resumedAt, next)
  }

  // The schedule still has the template with which it was created.
  predicate KeepsTemplate(sc: Schedule, og: Origin) {
    && sc.expression == og.expression && sc.payload == og.payload && sc.priority == og.priority
    && sc.maxRetries == og.maxRetries && sc.timeout == og.timeout && sc.createdAt == og.createdAt
  }

  ghost predicate ScheduleOk(cron: Cron, s: Sys, id: nat)
    requires id < |s.origins| && id < |s.schedules|
  {
    var og := s.origins[id];
    && cron.valid(og.expression)
    && og.createdAt <= og.resumedAt <= s.clock
    && (s.schedules[id].Some? ==>
          && KeepsTemplate(s.schedules[id].value, og)
          && GoodNext(cron, s, id, s.schedules[id].value.nextRunAt))
  }

  ghost predicate CallOk(cron: Cron, s: Sys, c: Call) {
    match c
    case ToggleRead(id, enabled, expr, seen) =>
      id < |s.origins| && expr == s.origins[id].expression && GoodNext(cron, s, id, seen)
    case Toggling(id, enabled, now, next) =>
      && id < |s.origins| && s.origins[id].createdAt <= now <= s.clock
      && (if enabled then next == cron.next(s.origins[id].expression, now) else GoodNext(cron, s, id, next))
    case Creating(now) => now <= s.clock
    case Materializing(now) => now <= s.clock
  }

  // Jobs of a schedule are true occurrences after its creation and follow its template.
  ghost predicate OccurrencesTrue(cron: Cron, s: Sys) {
    forall k :: 0 <= k < |s.jobs| && s.jobs[k].scheduleId.Some? ==>
      && s.jobs[k].scheduleId.value < |s.origins| && s.jobs[k].scheduledFor.Some?
      && var og := s.origins[s.jobs[k].scheduleId.value];
         && cron.occurs(og.expression, s.jobs[k].scheduledFor.value)
         && og.createdAt < s.jobs[k].scheduledFor.value <= s.clock
         && OfTemplate(s.jobs[k], og)
  }

  // No occurrence has two jobs.
  predicate OccurrencesUnique(jobs: seq<Job>) {
    forall k, m :: 0 <= k < m < |jobs| && jobs[k].scheduleId.Some? ==>
      jobs[k].scheduleId != jobs[m].scheduleId || jobs[k].scheduledFor != jobs[m].scheduledFor
  }

  ghost predicate Inv(cron: Cron, s: Sys) {
    && |s.origins| == |s.schedules|
    && (forall id :: 0 <= id < |s.schedules| ==> ScheduleOk(cron, s, id))
    && (forall t :: t in s.calls ==> CallOk(cron, s, s.calls[t]))
    && OccurrencesTrue(cron, s) && OccurrencesUnique(s.jobs)
  }

  // ---------------------------------------------------------------- steps keep it

  // Jobs are only added, and a later resume only shortens the interval to cover.
  lemma GoodNextStays(cron: Cron, s: Sys, s': Sys, id: nat, next: Time)
    requires id < |s.origins| && id < |s'.origins| && GoodNext(cron, s, id, next)
    requires s'.origins[id].expression == s.origins[id].expression && s'.origins[id].createdAt == s.origins[id].createdAt
    requires s.origins[id].resumedAt <= s'.origins[id].resumedAt
    requires |s.jobs| <= |s'.jobs|
    requires forall k :: 0 <= k < |s.jobs| ==>
               s'.jobs[k].scheduleId == s.jobs[k].scheduleId && s'.jobs[k].scheduledFor == s.jobs[k].scheduledFor
    ensures GoodNext(cron, s', id, next)
  {
  }

  // What every step does: jobs and schedules are only added, origins only resumed later.
  lemma StepGrows(cron: Cron, s: Sys, e: Event)
    requires Inv(cron, s) && Enabled(cron, s, e)
    ensures var s' := Do(cron, s, e);
            && |s'.origins| == |s'.schedules| && |s.origins| <= |s'.origins| && s.clock <= s'.clock
            && |s.jobs| <= |s'.jobs|
            && (forall k :: 0 <= k < |s.jobs| ==>
                  && s'.jobs[k].scheduleId == s.jobs[k].scheduleId && s'.jobs[k].scheduledFor == s.jobs[k].scheduledFor
                  && SameTemplateColumns(s'.jobs[k], s.jobs[k]))
            && (forall id :: 0 <= id < |s.origins| ==>
                  && s'.origins[id] == s.origins[id].(resumedAt := s'.origins[id].resumedAt)
                  && s.origins[id].resumedAt <= s'.origins[id].resumedAt)
  {
  }

  lemma StepKeepsCalls(cron: Cron, s: Sys, e: Event)
    requires IsCron(cron) && Inv(cron, s) && Enabled(cron, s, e)
    ensures forall t :: t in Do(cron, s, e).calls ==> CallOk(cron, Do(cron, s, e), Do(cron, s, e).calls[t])
  {
    var s' := Do(cron, s, e);
    StepGrows(cron, s, e);
    forall t | t in s'.calls
      ensures CallOk(cron, s', s'.calls[t])
    {
      if t in s.calls {
        assert CallOk(cron, s, s.calls[t]);
        match s.calls[t] {
          case ToggleRead(id, enabled, expr, seen) =>
            GoodNextStays(cron, s, s', id, seen);
            assert ScheduleOk(cron, s, id);
          case Toggling(id, enabled, now, next) =>
            if !enabled {
              GoodNextStays(cron, s, s', id, next);
            }
          case _ =>
        }
      } else if e.ReadRow? {
        assert ScheduleOk(cron, s, e.id);
        GoodNextStays(cron, s, s', e.id, s.schedules[e.id].value.nextRunAt);
      }
    }
  }

  // A resume leaves nothing to cover between its clock reading and the next occurrence.
  lemma WriteToggleIsGood(cron: Cron, s: Sys, t: nat)
    requires IsCron(cron) && Inv(cron, s) && Enabled(cron, s, WriteToggle(t)) && Live(s, s.calls[t].id)
    ensures GoodNext(cron, Do(cron, s, WriteToggle(t)), s.calls[t].id, s.calls[t].nextRunAt)
  {
    var c := s.calls[t];
    var s' := Do(cron, s, WriteToggle(t));
    assert CallOk(cron, s, c) && ScheduleOk(cron, s, c.id);
    if c.enabled {
      assert c.now <= s'.origins[c.id].resumedAt;
    } else {
      GoodNextStays(cron, s, s', c.id, c.nextRunAt);
    }
  }

  // The occurrence that is materialised has its job, whether inserted now or found there.
  lemma MaterializeIsGood(cron: Cron, s: Sys, t: nat, id: nat)
    requires IsCron(cron) && Inv(cron, s) && Enabled(cron, s, Materialize(t, id))
    ensures GoodNext(cron, Do(cron, s, Materialize(t, id)), id,
                     cron.next(s.origins[id].expression, s.schedules[id].value.nextRunAt))
  {
    var s' := Do(cron, s, Materialize(t, id));
    var sc := s.schedules[id].value;
    var row := OccurrenceRow(sc, id, s.calls[t].now);
    assert ScheduleOk(cron, s, id);
    GoodNextStays(cron, s, s', id, sc.nextRunAt);
    if Insertable(s.jobs, row) {
      assert s'.jobs[|s.jobs|] == row;
    }
    assert OccurrenceTaken(s'.jobs, id, sc.nextRunAt);
    forall o | s'.origins[id].resumedAt < o < cron.next(sc.expression, sc.nextRunAt) && cron.occurs(sc.expression, o)
      ensures OccurrenceTaken(s'.jobs, id, o)
    {
      assert o <= sc.nextRunAt;
    }
  }

  lemma StepKeepsSchedules(cron: Cron, s: Sys, e: Event)
    requires IsCron(cron) && Inv(cron, s) && Enabled(cron, s, e)
    ensures forall id :: 0 <= id < |Do(cron, s, e).schedules| ==> ScheduleOk(cron, Do(cron, s, e), id)
  {
    var s' := Do(cron, s, e);
    StepGrows(cron, s, e);
    forall id | 0 <= id < |s'.schedules|
      ensures ScheduleOk(cron, s', id)
    {
      if id < |s.schedules| {
        assert ScheduleOk(cron, s, id);
        if e.WriteToggle? && id == s.calls[e.t].id {
          assert CallOk(cron, s, s.calls[e.t]);
          if Live(s, id) {
            WriteToggleIsGood(cron, s, e.t);
          }
        } else if e.Materialize? && id == e.id {
          MaterializeIsGood(cron, s, e.t, id);
        } else if s.schedules[id].Some? {
          GoodNextStays(cron, s, s', id, s.schedules[id].value.nextRunAt);
        }
      } else {
        assert CallOk(cron, s, s.calls[e.t]);
        assert s'.origins[id].resumedAt == e.row.createdAt;
      }
    }
  }

  lemma StepKeepsTrue(cron: Cron, s: Sys, e: Event)
    requires IsCron(cron) && Inv(cron, s) && Enabled(cron, s, e)
    ensures OccurrencesTrue(cron, Do(cron, s, e))
  {
    StepGrows(cron, s, e);
    if e.Materialize? {
      assert ScheduleOk(cron, s, e.id) && CallOk(cron, s, s.calls[e.t]);
    }
  }

  // The unique index on (schedule_id, scheduled_for).
  lemma StepKeepsUnique(cron: Cron, s: Sys, e: Event)
    requires OccurrencesUnique(s.jobs) && Enabled(cron, s, e) && |s.origins| == |s.schedules|
    ensures OccurrencesUnique(Do(cron, s, e).jobs)
  {
  }

  lemma StepKeepsInv(cron: Cron, s: Sys, e: Event)
    requires IsCron(cron) && Inv(cron, s) && Enabled(cron, s, e)
    ensures Inv(cron, Do(cron, s, e))
  {
    StepGrows(cron, s, e);
    StepKeepsCalls(cron, s, e);
    StepKeepsSchedules(cron, s, e);
    StepKeepsTrue(cron, s, e);
    StepKeepsUnique(cron, s, e);
  }

  lemma {:induction false} RunKeepsInv(cron: Cron, s: Sys, es: seq<Event>, s': Sys)
    requires IsCron(cron) && Inv(cron, s) && Run(cron, s, es, s')
    ensures Inv(cron, s')
    decreases |es|
  {
    if es != [] {
      StepKeepsInv(cron, s, es[0]);
      RunKeepsInv(cron, Do(cron, s, es[0]), es[1..], s');
    }
  }

  lemma {:induction false} RunConcat(cron: Cron, s: Sys, es: seq<Event>, m: Sys, fs: seq<Event>, s': Sys)
    requires Run(cron, s, es, m) && Run(cron, m, fs, s')
    ensures Run(cron, s, es + fs, s')
    decreases |es|
  {
    if es == [] {
      assert es + fs == fs;
    } else {
      RunConcat(cron, Do(cron, s, es[0]), es[1..], m, fs, s');
      assert (es + fs)[1..] == es[1..] + fs;
    }
  }

  lemma OneStep(cron: Cron, s: Sys, e: Event)
    requires Enabled(cron, s, e) && |s.origins| == |s.schedules|
    ensures Run(cron, s, [e], Do(cron, s, e))
  {
    assert [e][1..] == [];
    assert Run(cron, Do(cron, s, e), [], Do(cron, s, e));
  }

  // ---------------------------------------------------------------- deletion

  // The schedule is gone, and no job beyond the first `n` belongs to it.
  ghost predicate Silent(s: Sys, id: nat, n: nat) {
    && id < |s.schedules| && s.schedules[id].None? && n <= |s.jobs|
    && forall k :: n <= k < |s.jobs| ==> s.jobs[k].scheduleId != Some(id)
  }

  lemma {:induction false} SilenceStays(cron: Cron, s: Sys, es: seq<Event>, s': Sys, id: nat, n: nat)
    requires Run(cron, s, es, s') && Silent(s, id, n)
    ensures Silent(s', id, n)
    decreases |es|
  {
    if es != [] {
      SilenceStays(cron, Do(cron, s, es[0]), es[1..], s', id, n);
    }
  }

  /** A deleted schedule adds no job any more, although a materialiser or a pause or resume may have
      read it before. */
  lemma DeletedSchedulesAreSilent(cron: Cron, s: Sys, id: nat, es: seq<Event>, s': Sys)
    requires |s.origins| == |s.schedules| && Enabled(cron, s, Delete(id))
    requires Run(cron, Do(cron, s, Delete(id)), es, s')
    ensures id < |s'.schedules| && s'.schedules[id].None?
    ensures forall k :: |s.jobs| <= k < |s'.jobs| ==> s'.jobs[k].scheduleId != Some(id)
  {
    SilenceStays(cron, Do(cron, s, Delete(id)), es, s', id, |s.jobs|);
  }

  // ---------------------------------------------------------------- the undisturbed toggle

  /** The two transactions of set_schedule_enabled and the clock reading between them, with nothing
      else in between: a resume starts again at the first occurrence after that reading, a pause
      keeps next_run_at, and no other column or schedule changes. */
  lemma UndisturbedToggle(cron: Cron, s: Sys, t: nat, id: nat, enabled: bool)
    requires t !in s.calls && Live(s, id) && |s.origins| == |s.schedules|
    ensures var s1 := Do(cron, s, ReadRow(t, id, enabled));
            Enabled(cron, s1, ComputeNext(t)) && |s1.origins| == |s1.schedules| &&
            var s2 := Do(cron, s1, ComputeNext(t));
            Enabled(cron, s2, WriteToggle(t)) && |s2.origins| == |s2.schedules| &&
            var s3 := Do(cron, s2, WriteToggle(t));
            && s3.jobs == s.jobs && |s3.schedules| == |s.schedules| && s3.schedules[id].Some?
            && (forall i :: 0 <= i < |s.schedules| && i != id ==> s3.schedules[i] == s.schedules[i])
            && var (was, sc) := (s.schedules[id].value, s3.schedules[id].value);
               && sc.enabled == enabled && sc.updatedAt == s.clock && sc.lastRunAt == was.lastRunAt
               && sc.expression == was.expression && sc.payload == was.payload && sc.priority == was.priority
               && sc.maxRetries == was.maxRetries && sc.timeout == was.timeout && sc.createdAt == was.createdAt
               && (!enabled ==> sc.nextRunAt == was.nextRunAt)
               && (enabled && IsCron(cron) && cron.valid(was.expression) ==>
                     && s.clock < sc.nextRunAt && cron.occurs(sc.expression, sc.nextRunAt)
                     && forall o :: s.clock < o < sc.nextRunAt ==> !cron.occurs(sc.expression, o))
  {
  }

  // ---------------------------------------------------------------- no gap, no duplicate

  predicate IsJobOf(job: Job, id: nat, at: Time) {
    job.scheduleId == Some(id) && job.scheduledFor == Some(at)
  }

  predicate OnlyJobOf(jobs: seq<Job>, id: nat, at: Time, k: nat)
    requires k < |jobs|
  {
    IsJobOf(jobs[k], id, at) && forall m :: 0 <= m < |jobs| && IsJobOf(jobs[m], id, at) ==> m == k
  }

  // Exactly one job stands for the occurrence.
  predicate TakenOnce(jobs: seq<Job>, id: nat, at: Time) {
    exists k :: 0 <= k < |jobs| && OnlyJobOf(jobs, id, at, k)
  }

  lemma UniqueIsOnce(jobs: seq<Job>, id: nat, at: Time)
    requires OccurrencesUnique(jobs) && OccurrenceTaken(jobs, id, at)
    ensures TakenOnce(jobs, id, at)
  {
    var k :| 0 <= k < |jobs| && jobs[k].scheduleId == Some(id) && jobs[k].scheduledFor == Some(at);
    assert OnlyJobOf(jobs, id, at, k);
  }

  /** Gap-free and exactly once: in every interleaving with racing pauses and resumes, stale
      writes of next_run_at included, each occurrence strictly between the latest clock reading
      of a resume (or of the creation) and next_run_at has exactly one job. */
  lemma OccurrencesExactlyOnce(cron: Cron, s0: Sys, es: seq<Event>, s: Sys, id: nat, o: Time)
    requires IsCron(cron) && Initial(s0) && Run(cron, s0, es, s)
    requires Live(s, id) && id < |s.origins|
    requires s.origins[id].resumedAt < o < s.schedules[id].value.nextRunAt
    requires cron.occurs(s.schedules[id].value.expression, o)
    ensures TakenOnce(s.jobs, id, o)
  {
    RunKeepsInv(cron, s0, es, s);
    assert ScheduleOk(cron, s, id);
    UniqueIsOnce(s.jobs, id, o);
  }

  /** Every job that carries a schedule, not only its first one, is a true occurrence of it, later
      than its creation and not in the future of the clock, with the payload, priority, retries and
      timeout with which the schedule was created. */
  lemma JobsAreOccurrences(cron: Cron, s0: Sys, es: seq<Event>, s: Sys, k: nat)
    requires IsCron(cron) && Initial(s0) && Run(cron, s0, es, s)
    requires k < |s.jobs| && s.jobs[k].scheduleId.Some?
    ensures s.jobs[k].scheduleId.value < |s.origins| && s.jobs[k].scheduledFor.Some?
    ensures var og := s.origins[s.jobs[k].scheduleId.value];
            && cron.occurs(og.expression, s.jobs[k].scheduledFor.value)
            && og.createdAt < s.jobs[k].scheduledFor.value <= s.clock
            && s.jobs[k].payload == og.payload && s.jobs[k].priority == og.priority
            && s.jobs[k].maxRetries == og.maxRetries && s.jobs[k].timeout == og.timeout
  {
    RunKeepsInv(cron, s0, es, s);
  }
}
