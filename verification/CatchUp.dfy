/**
 materialize_due_schedules as one transaction of the serial repository, and why repeated calls
 catch up.
 */
module CatchUp {
  import opened Tables
  import opened Schedules

  ghost predicate AllValid(cron: Cron, schedules: Schedules) {
    IsCron(cron) && forall i :: 0 <= i < |schedules| && schedules[i].Some? ==> cron.valid(schedules[i].value.expression)
  }

  // ---------------------------------------------------------------- one call

  // One iteration of the loop over the selected rows.
  function MaterializeRow(cron: Cron, jobs: seq<Job>, schedules: Schedules, id: nat, now: Time): (seq<Job>, Schedules)
    requires id < |schedules| && schedules[id].Some?
  {
    var sc := schedules[id].value;
    (InsertOrIgnore(jobs, OccurrenceRow(sc, id, now)), schedules[id := Some(Advanced(cron, sc, now))])
  }

  predicate AllLive(schedules: Schedules, sel: seq<nat>) {
    forall i :: 0 <= i < |sel| ==> sel[i] < |schedules| && schedules[sel[i]].Some?
  }

  function MaterializeRows(cron: Cron, jobs: seq<Job>, schedules: Schedules, sel: seq<nat>, now: Time)
      : (r: (seq<Job>, Schedules))
    requires AllLive(schedules, sel)
    ensures |r.1| == |schedules| && forall i :: 0 <= i < |schedules| ==> (r.1[i].Some? <==> schedules[i].Some?)
  {
    if sel == [] then (jobs, schedules)
    else
      var n := |sel| - 1;
      var (jobs1, schedules1) := MaterializeRows(cron, jobs, schedules, sel[..n], now);
      MaterializeRow(cron, jobs1, schedules1, sel[n], now)
  }

  // WHERE enabled AND next_run_at <= now ORDER BY next_run_at ASC LIMIT limit
  ghost predicate IsSelection(schedules: Schedules, now: Time, limit: nat, sel: seq<nat>) {
    && |sel| <= limit
    && (forall i :: 0 <= i < |sel| ==> DueSchedule(schedules, sel[i], now))
    && NoDuplicates(sel)
    && (forall i, k :: 0 <= i < k < |sel| ==> schedules[sel[i]].value.nextRunAt <= schedules[sel[k]].value.nextRunAt)
    && (forall d: nat, i :: DueSchedule(schedules, d, now) && d !in sel && 0 <= i < |sel| ==>
          schedules[sel[i]].value.nextRunAt <= schedules[d].value.nextRunAt)
    && (|sel| < limit ==> forall d: nat :: DueSchedule(schedules, d, now) ==> d in sel)
  }

  ghost function DueSet(schedules: Schedules, now: Time): set<int> {
    set i: int | 0 <= i < |schedules| && DueSchedule(schedules, i, now)
  }

  lemma {:induction false} DistinctIsCardinality(sel: seq<nat>, s: set<int>)
    requires NoDuplicates(sel)
    requires forall i :: 0 <= i < |sel| ==> sel[i] in s
    ensures |sel| <= |s|
    ensures (forall d :: d in s ==> d in sel) ==> |sel| == |s|
    decreases |sel|
  {
    if sel == [] {
      assert (forall d :: d in s ==> d in sel) ==> s == {};
    } else {
      var n := |sel| - 1;
      assert forall d :: d in s - {sel[n]} && d in sel ==> d in sel[..n];
      DistinctIsCardinality(sel[..n], s - {sel[n]});
    }
  }

  // ---------------------------------------------------------------- the measure

  // The number of occurrences from `n` up to `now`, counted as the materialiser walks them.
  ghost function DueOccurrences(cron: Cron, expr: string, n: Time, now: Time): nat
    requires IsCron(cron) && cron.valid(expr)
    decreases if now < n then 0 else now - n + 1
  {
    if now < n then 0
    else
      assert n < cron.next(expr, n);
      1 + DueOccurrences(cron, expr, cron.next(expr, n), now)
  }

  /** ... and that is the number of instants which the cron expression names there. */
  lemma {:induction false} DueOccurrencesAreInstants(cron: Cron, expr: string, n: Time, now: Time)
    requires IsCron(cron) && cron.valid(expr) && cron.occurs(expr, n)
    ensures DueOccurrences(cron, expr, n, now) == |set o | n <= o <= now && cron.occurs(expr, o)|
    decreases if now < n then 0 else now - n + 1
  {
    var all := set o | n <= o <= now && cron.occurs(expr, o);
    if now < n {
      assert all == {};
    } else {
      var next := cron.next(expr, n);
      assert n < next;
      DueOccurrencesAreInstants(cron, expr, next, now);
      var later := set o | next <= o <= now && cron.occurs(expr, o);
      assert all == {n} + later;
    }
  }

  ghost function DueOf(cron: Cron, row: Option<Schedule>, now: Time): nat
    requires IsCron(cron) && (row.Some? ==> cron.valid(row.value.expression))
  {
    if row.Some? && row.value.enabled then DueOccurrences(cron, row.value.expression, row.value.nextRunAt, now) else 0
  }

  ghost function TotalDue(cron: Cron, schedules: Schedules, now: Time): nat
    requires AllValid(cron, schedules)
  {
    if schedules == [] then 0
    else
      var n := |schedules| - 1;
      TotalDue(cron, schedules[..n], now) + DueOf(cron, schedules[n], now)
  }

  lemma {:induction false} TotalDueOfUpdate(cron: Cron, schedules: Schedules, i: nat, row: Option<Schedule>, now: Time)
    requires AllValid(cron, schedules) && i < |schedules| && (row.Some? ==> cron.valid(row.value.expression))
    ensures TotalDue(cron, schedules[i := row], now) ==
            TotalDue(cron, schedules, now) - DueOf(cron, schedules[i], now) + DueOf(cron, row, now)
  {
    var n := |schedules| - 1;
    if i < n {
      TotalDueOfUpdate(cron, schedules[..n], i, row, now);
      assert schedules[i := row][..n] == schedules[..n][i := row];
    } else {
      assert schedules[i := row][..n] == schedules[..n];
    }
  }

  lemma {:induction false} SomethingDue(cron: Cron, schedules: Schedules, now: Time)
    requires AllValid(cron, schedules)
    ensures TotalDue(cron, schedules, now) > 0 <==> exists d: nat :: DueSchedule(schedules, d, now)
  {
    if schedules != [] {
      var n := |schedules| - 1;
      SomethingDue(cron, schedules[..n], now);
      assert forall d: nat :: d < n ==> (DueSchedule(schedules, d, now) <==> DueSchedule(schedules[..n], d, now));
      assert DueSchedule(schedules, n, now) <==> DueOf(cron, schedules[n], now) > 0;
    }
  }

  // ---------------------------------------------------------------- progress

  // Each selected schedule moves on by one occurrence, and no other schedule changes.
  lemma {:induction false} SchedulesAdvance(cron: Cron, jobs: seq<Job>, schedules: Schedules, sel: seq<nat>, now: Time)
    requires AllLive(schedules, sel) && NoDuplicates(sel)
    ensures var after := MaterializeRows(cron, jobs, schedules, sel, now).1;
            && (forall i :: 0 <= i < |sel| ==> after[sel[i]] == Some(Advanced(cron, schedules[sel[i]].value, now)))
            && (forall d: nat :: d < |schedules| && d !in sel ==> after[d] == schedules[d])
    decreases |sel|
  {
    if sel != [] {
      var n := |sel| - 1;
      assert forall i :: 0 <= i < n ==> sel[..n][i] == sel[i];
      SchedulesAdvance(cron, jobs, schedules, sel[..n], now);
      assert sel[n] !in sel[..n];
      assert forall d: nat :: d in sel[..n] ==> d in sel;
    }
  }

  /** The UPDATE of a materialised schedule sets the last run to the occurrence, the next one to the
      first occurrence after it, and keeps the template, the pause flag and the creation time. */
  ghost predicate MovedOn(cron: Cron, was: Schedule, sc: Schedule, now: Time) {
    && sc.expression == was.expression && sc.payload == was.payload && sc.priority == was.priority
    && sc.maxRetries == was.maxRetries && sc.timeout == was.timeout
    && sc.enabled == was.enabled && sc.createdAt == was.createdAt
    && sc.updatedAt == now && sc.lastRunAt == Some(was.nextRunAt)
    && (IsCron(cron) && cron.valid(was.expression) ==>
          && was.nextRunAt < sc.nextRunAt && cron.occurs(was.expression, sc.nextRunAt)
          && forall o :: was.nextRunAt < o < sc.nextRunAt ==> !cron.occurs(was.expression, o))
  }

  lemma AdvancedMovesOn(cron: Cron, sc: Schedule, now: Time)
    ensures MovedOn(cron, sc, Advanced(cron, sc, now), now)
  {
  }

  /** After the call each selected schedule has moved on by one occurrence; every other schedule is
      as it was. */
  lemma SelectedMoveOn(cron: Cron, jobs: seq<Job>, schedules: Schedules, sel: seq<nat>, now: Time)
    requires AllLive(schedules, sel) && NoDuplicates(sel)
    ensures var after := MaterializeRows(cron, jobs, schedules, sel, now).1;
            && |after| == |schedules|
            && (forall i :: 0 <= i < |sel| ==>
                  after[sel[i]].Some? && MovedOn(cron, schedules[sel[i]].value, after[sel[i]].value, now))
            && (forall d: nat :: d < |schedules| && d !in sel ==> after[d] == schedules[d])
  {
    SchedulesAdvance(cron, jobs, schedules, sel, now);
    forall i | 0 <= i < |sel|
      ensures MovedOn(cron, schedules[sel[i]].value, Advanced(cron, schedules[sel[i]].value, now), now)
    {
      AdvancedMovesOn(cron, schedules[sel[i]].value, now);
    }
  }

  // Row `i` of the selection finds its schedule as the SELECT returned it.
  lemma RowStep(cron: Cron, jobs: seq<Job>, schedules: Schedules, sel: seq<nat>, i: nat, now: Time)
    requires AllLive(schedules, sel) && NoDuplicates(sel) && i < |sel|
    ensures AllLive(schedules, sel[..i]) && AllLive(schedules, sel[..i + 1])
    ensures var (jobs1, schedules1) := MaterializeRows(cron, jobs, schedules, sel[..i], now);
            && schedules1[sel[i]] == schedules[sel[i]]
            && MaterializeRows(cron, jobs, schedules, sel[..i + 1], now) ==
               (InsertOrIgnore(jobs1, OccurrenceRow(schedules[sel[i]].value, sel[i], now)),
                schedules1[sel[i] := Some(Advanced(cron, schedules[sel[i]].value, now))])
            && MovedOn(cron, schedules[sel[i]].value, Advanced(cron, schedules[sel[i]].value, now), now)
  {
    AdvancedMovesOn(cron, schedules[sel[i]].value, now);
    assert sel[..i + 1][..i] == sel[..i];
    SchedulesAdvance(cron, jobs, schedules, sel[..i], now);
    assert sel[i] !in sel[..i];
  }

  // The row is queued for the schedule's next occurrence and has the columns of its template.
  predicate IsOccurrenceOf(row: Job, sc: Schedule, id: nat, now: Time) {
    && FreshRow(row) && row.scheduleId == Some(id) && row.scheduledFor == Some(sc.nextRunAt) && row.runAt == sc.nextRunAt
    && row.payload == sc.payload && row.priority == sc.priority
    && row.maxRetries == sc.maxRetries && row.timeout == sc.timeout
    && row.createdAt == now && row.updatedAt == now && row.idempotencyKey == None && row.fingerprint == None
  }

  // The job of every selected occurrence exists afterwards; existing rows stay.
  lemma {:induction false} OccurrencesInserted(cron: Cron, jobs: seq<Job>, schedules: Schedules, sel: seq<nat>, now: Time)
    requires AllLive(schedules, sel) && NoDuplicates(sel)
    ensures var after := MaterializeRows(cron, jobs, schedules, sel, now).0;
            && |jobs| <= |after| <= |jobs| + |sel| && after[..|jobs|] == jobs
            && (forall i :: 0 <= i < |sel| ==> OccurrenceTaken(after, sel[i], schedules[sel[i]].value.nextRunAt))
    decreases |sel|
  {
    if sel != [] {
      var n := |sel| - 1;
      assert forall i :: 0 <= i < n ==> sel[..n][i] == sel[i];
      OccurrencesInserted(cron, jobs, schedules, sel[..n], now);
      SchedulesAdvance(cron, jobs, schedules, sel[..n], now);
      assert sel[n] !in sel[..n];
      var (jobs1, schedules1) := MaterializeRows(cron, jobs, schedules, sel[..n], now);
      var after := MaterializeRows(cron, jobs, schedules, sel, now).0;
      var row := OccurrenceRow(schedules[sel[n]].value, sel[n], now);
      assert after == InsertOrIgnore(jobs1, row);
      assert after[..|jobs1|] == jobs1;
      if Insertable(jobs1, row) {
        assert after[|jobs1|] == row;
      }
      assert OccurrenceTaken(after, sel[n], row.runAt);
      forall i | 0 <= i < n
        ensures OccurrenceTaken(after, sel[i], schedules[sel[i]].value.nextRunAt)
      {
        TakenStays(jobs1, after, sel[..n][i], schedules[sel[i]].value.nextRunAt);
      }
      assert after[..|jobs|] == after[..|jobs1|][..|jobs|];
    }
  }

  // The new rows are such jobs and no others.
  lemma {:induction false} NewRowsAreOccurrences(cron: Cron, jobs: seq<Job>, schedules: Schedules, sel: seq<nat>,
                                                 now: Time, k: nat) returns (i: nat)
    requires AllLive(schedules, sel) && NoDuplicates(sel)
    requires |jobs| <= k < |MaterializeRows(cron, jobs, schedules, sel, now).0|
    ensures i < |sel|
    ensures IsOccurrenceOf(MaterializeRows(cron, jobs, schedules, sel, now).0[k], schedules[sel[i]].value, sel[i], now)
    decreases |sel|
  {
    var n := |sel| - 1;
    assert forall i :: 0 <= i < n ==> sel[..n][i] == sel[i];
    var jobs1 := MaterializeRows(cron, jobs, schedules, sel[..n], now).0;
    if k < |jobs1| {
      i := NewRowsAreOccurrences(cron, jobs, schedules, sel[..n], now, k);
    } else {
      i := n;
      SchedulesAdvance(cron, jobs, schedules, sel[..n], now);
      assert sel[n] !in sel[..n];
    }
  }

  // The jobs after the call: the old ones, the missing occurrences of the selection, and no others.
  ghost predicate OccurrencesAdded(jobs: seq<Job>, schedules: Schedules, sel: seq<nat>, now: Time, jobs': seq<Job>)
    requires AllLive(schedules, sel)
  {
    && |jobs| <= |jobs'| && jobs'[..|jobs|] == jobs
    && (forall i :: 0 <= i < |sel| ==> OccurrenceTaken(jobs', sel[i], schedules[sel[i]].value.nextRunAt))
    && (forall k :: |jobs| <= k < |jobs'| ==>
          exists i :: 0 <= i < |sel| && IsOccurrenceOf(jobs'[k], schedules[sel[i]].value, sel[i], now))
  }

  lemma CallAddsOccurrences(cron: Cron, jobs: seq<Job>, schedules: Schedules, sel: seq<nat>, now: Time)
    requires AllLive(schedules, sel) && NoDuplicates(sel)
    ensures OccurrencesAdded(jobs, schedules, sel, now, MaterializeRows(cron, jobs, schedules, sel, now).0)
  {
    OccurrencesInserted(cron, jobs, schedules, sel, now);
    var jobs' := MaterializeRows(cron, jobs, schedules, sel, now).0;
    forall k | |jobs| <= k < |jobs'|
      ensures exists i :: 0 <= i < |sel| && IsOccurrenceOf(jobs'[k], schedules[sel[i]].value, sel[i], now)
    {
      var i := NewRowsAreOccurrences(cron, jobs, schedules, sel, now, k);
    }
  }

  lemma {:induction false} TotalDrops(cron: Cron, jobs: seq<Job>, schedules: Schedules, sel: seq<nat>, now: Time)
    requires AllValid(cron, schedules) && AllLive(schedules, sel) && NoDuplicates(sel)
    requires forall i :: 0 <= i < |sel| ==> DueSchedule(schedules, sel[i], now)
    ensures var after := MaterializeRows(cron, jobs, schedules, sel, now).1;
            AllValid(cron, after) && TotalDue(cron, after, now) == TotalDue(cron, schedules, now) - |sel|
    decreases |sel|
  {
    if sel != [] {
      var n := |sel| - 1;
      assert forall i :: 0 <= i < n ==> sel[..n][i] == sel[i];
      TotalDrops(cron, jobs, schedules, sel[..n], now);
      SchedulesAdvance(cron, jobs, schedules, sel[..n], now);
      assert sel[n] !in sel[..n];
      var schedules1 := MaterializeRows(cron, jobs, schedules, sel[..n], now).1;
      var sc := schedules[sel[n]].value;
      assert DueSchedule(schedules, sel[n], now);
      assert sc.nextRunAt < cron.next(sc.expression, sc.nextRunAt);
      TotalDueOfUpdate(cron, schedules1, sel[n], Some(Advanced(cron, sc, now)), now);
    }
  }

  lemma TakenStays(jobs: seq<Job>, jobs': seq<Job>, id: nat, at: Time)
    requires OccurrenceTaken(jobs, id, at) && |jobs| <= |jobs'| && jobs'[..|jobs|] == jobs
    ensures OccurrenceTaken(jobs', id, at)
  {
  }

  /** At a fixed clock each call lowers the number of due occurrences over all enabled schedules
      by exactly min(limit, number of due schedules). */
  lemma CallLowersTotal(cron: Cron, jobs: seq<Job>, schedules: Schedules, sel: seq<nat>, now: Time, limit: nat)
    requires AllValid(cron, schedules) && IsSelection(schedules, now, limit, sel)
    ensures |sel| == (if |DueSet(schedules, now)| <= limit then |DueSet(schedules, now)| else limit)
    ensures AllValid(cron, MaterializeRows(cron, jobs, schedules, sel, now).1)
    ensures TotalDue(cron, MaterializeRows(cron, jobs, schedules, sel, now).1, now) ==
            TotalDue(cron, schedules, now) - |sel|
  {
    TotalDrops(cron, jobs, schedules, sel, now);
    DistinctIsCardinality(sel, DueSet(schedules, now));
  }

  function CallEvents(t: nat, sel: seq<nat>): seq<Event> {
    if sel == [] then [] else CallEvents(t, sel[..|sel| - 1]) + [Materialize(t, sel[|sel| - 1])]
  }

  // The system once the rows of the selection have been materialised.
  function AfterRows(cron: Cron, s: Sys, sel: seq<nat>, now: Time): Sys
    requires AllLive(s.schedules, sel)
  {
    var (jobs', schedules') := MaterializeRows(cron, s.jobs, s.schedules, sel, now);
    s.(jobs := jobs', schedules := schedules')
  }

  lemma RowIsStep(cron: Cron, s: Sys, t: nat, sel: seq<nat>)
    requires t in s.calls && s.calls[t].Materializing? && |s.origins| == |s.schedules| && sel != []
    requires AllLive(s.schedules, sel) && NoDuplicates(sel)
    requires DueSchedule(s.schedules, sel[|sel| - 1], s.calls[t].now)
    ensures var n, now := |sel| - 1, s.calls[t].now;
            && AllLive(s.schedules, sel[..n])
            && Enabled(cron, AfterRows(cron, s, sel[..n], now), Materialize(t, sel[n]))
            && |AfterRows(cron, s, sel[..n], now).schedules| == |s.schedules|
            && Do(cron, AfterRows(cron, s, sel[..n], now), Materialize(t, sel[n])) == AfterRows(cron, s, sel, now)
  {
    assert sel[..|sel| - 1 + 1] == sel;
    RowStep(cron, s.jobs, s.schedules, sel, |sel| - 1, s.calls[t].now);
  }

  /** The serial call is a run of the interleaved system, so its jobs are covered by the
      exactly-once result as well. */
  lemma {:induction false} CallIsRun(cron: Cron, s: Sys, t: nat, sel: seq<nat>)
    requires t in s.calls && s.calls[t].Materializing? && |s.origins| == |s.schedules|
    requires AllLive(s.schedules, sel) && NoDuplicates(sel)
    requires forall i :: 0 <= i < |sel| ==> DueSchedule(s.schedules, sel[i], s.calls[t].now)
    ensures Run(cron, s, CallEvents(t, sel), AfterRows(cron, s, sel, s.calls[t].now))
    decreases |sel|
  {
    if sel != [] {
      var n, now := |sel| - 1, s.calls[t].now;
      RowIsStep(cron, s, t, sel);
      CallIsRun(cron, s, t, sel[..n]);
      var m := AfterRows(cron, s, sel[..n], now);
      OneStep(cron, m, Materialize(t, sel[n]));
      RunConcat(cron, s, CallEvents(t, sel[..n]), m, [Materialize(t, sel[n])], AfterRows(cron, s, sel, now));
    }
  }

  /** Calls at a fixed clock, each of which finds something due. */
  ghost predicate Calls(cron: Cron, jobs: seq<Job>, schedules: Schedules, now: Time, limit: nat,
                        sels: seq<seq<nat>>, jobs': seq<Job>, schedules': Schedules)
    decreases |sels|
  {
    if sels == [] then jobs' == jobs && schedules' == schedules
    else
      && IsSelection(schedules, now, limit, sels[0]) && (exists d: nat :: DueSchedule(schedules, d, now))
      && var (jobs1, schedules1) := MaterializeRows(cron, jobs, schedules, sels[0], now);
         Calls(cron, jobs1, schedules1, now, limit, sels[1..], jobs', schedules')
  }

  /** Catch-up terminates: with a limit of at least one there are at most as many such calls as
      occurrences were due, and when no further call finds anything, none is due. */
  lemma {:induction false} CatchUpTerminates(cron: Cron, jobs: seq<Job>, schedules: Schedules, now: Time, limit: nat,
                                             sels: seq<seq<nat>>, jobs': seq<Job>, schedules': Schedules)
    requires AllValid(cron, schedules) && limit >= 1
    requires Calls(cron, jobs, schedules, now, limit, sels, jobs', schedules')
    ensures AllValid(cron, schedules')
    ensures |sels| + TotalDue(cron, schedules', now) <= TotalDue(cron, schedules, now)
    ensures (forall d: nat :: !DueSchedule(schedules', d, now)) <==> TotalDue(cron, schedules', now) == 0
    decreases |sels|
  {
    if sels == [] {
      SomethingDue(cron, schedules, now);
    } else {
      var (jobs1, schedules1) := MaterializeRows(cron, jobs, schedules, sels[0], now);
      CallLowersTotal(cron, jobs, schedules, sels[0], now, limit);
      CatchUpTerminates(cron, jobs1, schedules1, now, limit, sels[1..], jobs', schedules');
    }
  }
}
