/**
 Idempotent submission by many concurrent clients, each in up to three transactions: look the
 key up, insert the row, and look the key up again when the unique index refuses the row.
 */
module Submission {
  import opened Tables
  import Protocol

  // A returned job, IdempotencyConflictError, or the database error passed on to the caller.
  datatype Reply = Got(id: JobId) | Conflict | IntegrityError

  datatype Stage = Called | Missed | Refused | Replied(reply: Reply)

  /** One create_job call with an idempotency key. `promise` is a history variable: the reply of
      the atomic call, set when the atomic call takes effect. */
  datatype Client = Client(key: string, fingerprint: string, stage: Stage, promise: Option<Reply>)

  // The object that create_job should look like: for each key the first fingerprint and its job.
  datatype Entry = Entry(fingerprint: string, id: JobId)
  type KeyTable = map<string, Entry>

  function AtomicReply(table: KeyTable, key: string, fingerprint: string, id: JobId): Reply {
    if key !in table then Got(id)
    else if table[key].fingerprint == fingerprint then Got(table[key].id)
    else Conflict
  }

  function AtomicTable(table: KeyTable, key: string, fingerprint: string, id: JobId): KeyTable {
    if key in table then table else table[key := Entry(fingerprint, id)]
  }

  datatype Sub = Sub(jobs: seq<Job>, clients: map<nat, Client>, table: KeyTable)

  datatype Event =
    | Others(jobs: seq<Job>)
    | Call(c: nat, key: string, fingerprint: string)
    | Lookup(c: nat)
    | InsertRow(c: nat, row: Job)
    | LookupAgain(c: nat)

  // ---------------------------------------------------------------- steps

  // Steps of workers, reapers and schedulers, and submissions without a key.
  ghost predicate OtherWork(jobs: seq<Job>, jobs': seq<Job>) {
    && |jobs| <= |jobs'|
    && (forall i :: 0 <= i < |jobs| ==>
          jobs'[i].idempotencyKey == jobs[i].idempotencyKey && jobs'[i].fingerprint == jobs[i].fingerprint)
    && (forall i :: |jobs| <= i < |jobs'| ==> jobs'[i].idempotencyKey == None)
  }

  // SELECT * FROM jobs WHERE idempotency_key = key; the unique index leaves one row at most.
  ghost function RowOfKey(jobs: seq<Job>, key: string): JobId
    requires KeyTaken(jobs, key)
    ensures RowOfKey(jobs, key) < |jobs| && jobs[RowOfKey(jobs, key)].idempotencyKey == Some(key)
  {
    var i: nat :| i < |jobs| && jobs[i].idempotencyKey == Some(key);
    i
  }

  ghost function LookupReply(jobs: seq<Job>, c: Client): Reply
    requires KeyTaken(jobs, c.key)
  {
    var i := RowOfKey(jobs, c.key);
    if jobs[i].fingerprint == Some(c.fingerprint) then Got(i) else Conflict
  }

  ghost predicate Enabled(s: Sub, e: Event) {
    match e
    case Others(jobs) => OtherWork(s.jobs, jobs)
    case Call(c, _, _) => c !in s.clients || s.clients[c].stage.Replied?
    case Lookup(c) => c in s.clients && s.clients[c].stage == Called
    case InsertRow(c, row) =>
      && c in s.clients && s.clients[c].stage == Missed && FreshRow(row)
      && row.idempotencyKey == Some(s.clients[c].key) && row.fingerprint == Some(s.clients[c].fingerprint)
      && row.scheduleId == None
    case LookupAgain(c) => c in s.clients && s.clients[c].stage == Refused
  }

  // Client `c` reaches `stage` in the step in which its atomic call takes effect.
  function Decide(s: Sub, c: nat, stage: Stage, newId: JobId): Sub
    requires c in s.clients
  {
    var cl := s.clients[c];
    s.(clients := s.clients[c := cl.(stage := stage,
                                     promise := Some(AtomicReply(s.table, cl.key, cl.fingerprint, newId)))],
       table := AtomicTable(s.table, cl.key, cl.fingerprint, newId))
  }

  ghost function Do(s: Sub, e: Event): Sub
    requires Enabled(s, e)
  {
    match e
    case Others(jobs) => s.(jobs := jobs)
    case Call(c, key, fingerprint) => s.(clients := s.clients[c := Client(key, fingerprint, Called, None)])
    case Lookup(c) =>
      var cl := s.clients[c];
      // an empty key is no key for the lookup
      if cl.key != "" && KeyTaken(s.jobs, cl.key)
      then Decide(s, c, Replied(LookupReply(s.jobs, cl)), |s.jobs|)
      else s.(clients := s.clients[c := cl.(stage := Missed)])
    case InsertRow(c, row) =>
      if KeyTaken(s.jobs, s.clients[c].key)
      then Decide(s, c, Refused, |s.jobs|)
      else Decide(s, c, Replied(Got(|s.jobs|)), |s.jobs|).(jobs := s.jobs + [row])
    case LookupAgain(c) =>
      var cl := s.clients[c];
      s.(clients := s.clients[c := cl.(stage := Replied(
        if cl.key == "" then IntegrityError
        else if KeyTaken(s.jobs, cl.key) then LookupReply(s.jobs, cl)
        else Conflict))])
  }

  ghost predicate Run(s: Sub, es: seq<Event>, s': Sub)
    decreases |es|
  {
    if es == [] then s' == s else Enabled(s, es[0]) && Run(Do(s, es[0]), es[1..], s')
  }

  lemma OneStep(s: Sub, e: Event)
    requires Enabled(s, e)
    ensures Run(s, [e], Do(s, e))
  {
    assert [e][1..] == [];
    assert Run(Do(s, e), [], Do(s, e));
  }

  lemma {:induction false} RunConcat(s: Sub, es: seq<Event>, m: Sub, fs: seq<Event>, s': Sub)
    requires Run(s, es, m) && Run(m, fs, s')
    ensures Run(s, es + fs, s')
    decreases |es|
  {
    if es == [] {
      assert es + fs == fs;
    } else {
      RunConcat(Do(s, es[0]), es[1..], m, fs, s');
      assert (es + fs)[1..] == es[1..] + fs;
    }
  }

  predicate Initial(s: Sub) {
    s == Sub([], map[], map[])
  }

  /** The environment of the clients is what the rest of the system does: every step of the job
      protocol that does not insert a row with a key. */
  lemma ProtocolIsOtherWork(s: Protocol.Sys, e: Protocol.Event)
    requires Protocol.Inv(s) && Protocol.Enabled(s, e)
    requires e.Insert? ==> e.row.idempotencyKey == None
    ensures OtherWork(s.db.jobs, Protocol.Do(s, e).db.jobs)
  {
  }

  // ---------------------------------------------------------------- the invariant

  // The keyed rows of the jobs table are exactly the entries of the atomic object.
  ghost predicate Agrees(jobs: seq<Job>, table: KeyTable) {
    && (forall i :: 0 <= i < |jobs| && jobs[i].idempotencyKey.Some? ==>
          && jobs[i].idempotencyKey.value in table
          && table[jobs[i].idempotencyKey.value].id == i
          && jobs[i].fingerprint == Some(table[jobs[i].idempotencyKey.value].fingerprint))
    && (forall key :: key in table ==>
          table[key].id < |jobs| && jobs[table[key].id].idempotencyKey == Some(key))
  }

  ghost predicate ClientOk(s: Sub, c: Client) {
    match c.stage
    case Called => c.promise == None
    case Missed => c.promise == None
    case Refused => c.key in s.table && c.promise == Some(AtomicReply(s.table, c.key, c.fingerprint, 0))
    case Replied(reply) =>
      && c.key in s.table && c.promise == Some(AtomicReply(s.table, c.key, c.fingerprint, 0))
      && (c.key != "" ==> c.promise == Some(reply))
  }

  ghost predicate Inv(s: Sub) {
    && Agrees(s.jobs, s.table)
    && (forall c :: c in s.clients ==> ClientOk(s, s.clients[c]))
  }

  lemma KeyTakenIffInTable(jobs: seq<Job>, table: KeyTable, key: string)
    requires Agrees(jobs, table)
    ensures KeyTaken(jobs, key) <==> key in table
    ensures key in table ==> RowOfKey(jobs, key) == table[key].id
  {
  }

  lemma StepKeepsInv(s: Sub, e: Event)
    requires Inv(s) && Enabled(s, e)
    ensures Inv(Do(s, e))
  {
    var s' := Do(s, e);
    if e.Lookup? || e.InsertRow? || e.LookupAgain? {
      KeyTakenIffInTable(s.jobs, s.table, s.clients[e.c].key);
    }
    forall c | c in s'.clients
      ensures ClientOk(s', s'.clients[c])
    {
      if c in s.clients {
        assert ClientOk(s, s.clients[c]);
      }
    }
  }

  lemma {:induction false} RunKeepsInv(s: Sub, es: seq<Event>, s': Sub)
    requires Inv(s) && Run(s, es, s')
    ensures Inv(s')
    decreases |es|
  {
    if es != [] {
      StepKeepsInv(s, es[0]);
      RunKeepsInv(Do(s, es[0]), es[1..], s');
    }
  }

  // ---------------------------------------------------------------- linearizability

  predicate Waiting(c: Client) {
    c.stage == Called || c.stage == Missed
  }

  // Client `c` leaves the waiting stages in this step: its call takes effect.
  ghost predicate TakesEffect(s: Sub, e: Event, c: nat)
    requires Enabled(s, e)
  {
    c in s.clients && Waiting(s.clients[c]) && c in Do(s, e).clients && !Waiting(Do(s, e).clients[c])
  }

  /** Every call takes effect in one step between its start and its reply, on the atomic object
      that stands for the keyed rows; in every other step that object stays as it is. */
  lemma OneAtomicStep(s: Sub, e: Event)
    requires Enabled(s, e)
    ensures forall c :: TakesEffect(s, e, c) ==>
              var cl := s.clients[c];
              && Do(s, e).clients[c].promise == Some(AtomicReply(s.table, cl.key, cl.fingerprint, |s.jobs|))
              && Do(s, e).table == AtomicTable(s.table, cl.key, cl.fingerprint, |s.jobs|)
    ensures (forall c :: !TakesEffect(s, e, c)) ==> Do(s, e).table == s.table
  {
  }

  /** Idempotent submission is linearizable for every non-empty key: each call returns the reply
      of its atomic call, in every interleaving. */
  lemma RepliesAreAtomic(s0: Sub, es: seq<Event>, s: Sub, c: nat)
    requires Initial(s0) && Run(s0, es, s)
    requires c in s.clients && s.clients[c].stage.Replied? && s.clients[c].key != ""
    ensures s.clients[c].promise == Some(s.clients[c].stage.reply)
  {
    RunKeepsInv(s0, es, s);
  }

  /** For the callers: a key has exactly one job, the calls that carry the fingerprint of that
      job all return it, and all others get the conflict. */
  lemma OneJobPerKey(s0: Sub, es: seq<Event>, s: Sub, c: nat)
    requires Initial(s0) && Run(s0, es, s)
    requires c in s.clients && s.clients[c].stage.Replied? && s.clients[c].key != ""
    ensures var key := s.clients[c].key;
            KeyTaken(s.jobs, key) &&
            var i := RowOfKey(s.jobs, key);
            && (forall k :: 0 <= k < |s.jobs| && s.jobs[k].idempotencyKey == Some(key) ==> k == i)
            && (s.jobs[i].fingerprint == Some(s.clients[c].fingerprint) <==> s.clients[c].stage.reply == Got(i))
            && (s.jobs[i].fingerprint != Some(s.clients[c].fingerprint) <==> s.clients[c].stage.reply == Conflict)
  {
    RunKeepsInv(s0, es, s);
    KeyTakenIffInTable(s.jobs, s.table, s.clients[c].key);
    assert ClientOk(s, s.clients[c]);
  }

  // ---------------------------------------------------------------- the empty key

  /** Exactly the non-empty keys are idempotent once the unique index has refused the row: the
      second lookup then gives the reply of the atomic call, and the empty key never does. */
  lemma RefusedCallIsAtomicIffKeyed(s: Sub, c: nat)
    requires Inv(s) && c in s.clients && s.clients[c].stage == Refused
    ensures Do(s, LookupAgain(c)).clients[c].promise == s.clients[c].promise
    ensures s.clients[c].promise == Some(Do(s, LookupAgain(c)).clients[c].stage.reply) <==> s.clients[c].key != ""
  {
  }

  /** The empty key is "no key" for both lookups but a key for the unique index, so the second
      submission with it fails, whatever its fingerprint. */
  lemma EmptyKeyIsNotIdempotent(s: Sub, c: nat, row: Job)
    requires Inv(s) && KeyTaken(s.jobs, "")
    requires c in s.clients && s.clients[c].stage == Called && s.clients[c].key == ""
    requires FreshRow(row) && row.idempotencyKey == Some("") && row.scheduleId == None
    requires row.fingerprint == Some(s.clients[c].fingerprint)
    ensures var s1 := Do(s, Lookup(c));
            Enabled(s1, InsertRow(c, row)) &&
            var s2 := Do(s1, InsertRow(c, row));
            && Enabled(s2, LookupAgain(c))
            && Do(s2, LookupAgain(c)).clients[c].stage == Replied(IntegrityError)
  {
  }
}
