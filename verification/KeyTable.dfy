/**
 What the idempotency table keeps through every run of the executor: completed rows are never
 rewritten, a key's work is committed at most once, and a replay answers the original result.
 */
module KeyTable {
  import opened Common
  import opened Keys
  import opened Plans
  import opened Idempotency
  import opened Transactions
  import opened Executor

  predicate IsNonce(row: KeyRow) {
    row.command == NONCE_COMMAND && row.result.principal.None?
  }

  predicate IsComplete(row: KeyRow) {
    var e := row.result;
    e.status == Some(Complete) && e.principal.Some? && e.fingerprint.Some? && e.scope.Some? && e.summary.Some?
    && e.events.Some?
  }

  /** Every committed row is a completed reservation or a login nonce. */
  predicate Sound(keys: map<string, KeyRow>) {
    forall k | k in keys :: IsComplete(keys[k]) || IsNonce(keys[k])
  }

  /** Apart from nonces coming and going, the rows are the same. */
  predicate SameButNonces(before: map<string, KeyRow>, after: map<string, KeyRow>) {
    && (forall k | k in before && !IsNonce(before[k]) :: k in after && after[k] == before[k])
    && forall k | k in after && !IsNonce(after[k]) :: k in before && before[k] == after[k]
  }

  /** The login commands delete only nonces: their loaders select by that command. */
  predicate Careful(ops: seq<StateOp>, keys: map<string, KeyRow>) {
    forall op | op in ops && op.DeleteNonce? && op.key in keys :: IsNonce(keys[op.key])
  }

  ghost predicate CarefulCall(call: Call) {
    forall db, loaded | call.command.load(db, call.input) == Some(loaded) ::
      var d := call.command.decide(call.input, loaded, call.actor);
      d.Accept? ==> Careful(d.plan.ops, db.keys)
  }

  // ---------------------------------------------------------------- statements and the key table

  lemma OpKeepsKeys(schema: Schema, db: Db, op: StateOp)
    requires Careful([op], db.keys)
    ensures ApplyOp(schema, db, op).Ok? ==> SameButNonces(db.keys, ApplyOp(schema, db, op).value.keys)
  {
    assert op in [op];
  }

  lemma {:induction false} OpsKeepKeys(schema: Schema, tx: Tx, ops: seq<StateOp>)
    requires Careful(ops, tx.db.keys)
    ensures ApplyOps(schema, tx, ops).Ok? ==> SameButNonces(tx.db.keys, ApplyOps(schema, tx, ops).value.db.keys)
    decreases |ops|
  {
    if ops != [] && ApplyOps(schema, tx, ops).Ok? {
      OpKeepsKeys(schema, tx.db, ops[0]);
      var db := ApplyOp(schema, tx.db, ops[0]).value;
      OpsKeepKeys(schema, Spend(tx.(db := db)).value, ops[1..]);
    }
  }

  lemma {:induction false} EventsWritten(tx: Tx, events: seq<Event>, actor: Actor)
    ensures var r := AppendEvents(tx, events, actor);
            r.Ok? ==> && r.value.db == tx.db.(events := tx.db.events + EventRows(events, actor))
                      && forall e | e in events :: e.application.Some?
    decreases |events|
  {
    if events != [] && AppendEvents(tx, events, actor).Ok? {
      var next := Spend(tx.(db := tx.db.(events := tx.db.events + [EventRow(events[0], actor.user)]))).value;
      EventsWritten(next, events[1..], actor);
      assert EventRows(events, actor) == [EventRow(events[0], actor.user)] + EventRows(events[1..], actor);
      assert events == [events[0]] + events[1..];
    }
  }

  function EventRows(events: seq<Event>, actor: Actor): seq<EventRow> {
    seq(|events|, i requires 0 <= i < |events| => EventRow(events[i], actor.user))
  }

  lemma {:induction false} JobsWritten(tx: Tx, jobs: seq<Job>)
    ensures var r := DeferJobs(tx, jobs); r.Ok? ==> r.value.db == tx.db.(jobs := tx.db.jobs + jobs)
    decreases |jobs|
  {
    if jobs != [] && DeferJobs(tx, jobs).Ok? {
      var next := Spend(tx.(db := tx.db.(jobs := tx.db.jobs + [jobs[0]]))).value;
      JobsWritten(next, jobs[1..]);
      assert jobs == [jobs[0]] + jobs[1..];
    }
  }

  function AuditRows(call: Call, plan: Plan): seq<AuditRow> {
    var audit := AuditOf(call, plan);
    if audit.Some? then [AuditRow(call.actor.user, call.command.name, audit.value)] else []
  }

  /** A finished transaction holds the whole plan: its operations, events in order, audit, jobs and completed key. */
  lemma FinishWritesPlan(schema: Schema, tx: Tx, call: Call, plan: Plan, scope: ScopeIds, owned: bool)
    requires Finish(schema, tx, call, plan, scope, owned).Ok?
    ensures var done := Finish(schema, tx, call, plan, scope, owned).value.db;
            && ApplyOps(schema, tx, plan.ops).Ok?
            && var worked := ApplyOps(schema, tx, plan.ops).value.db;
            && done.tables == worked.tables
            && done.events == worked.events + EventRows(plan.events, call.actor)
            && done.audits == worked.audits + AuditRows(call, plan)
            && done.jobs == worked.jobs + plan.jobs
            && done.keys == (if Keyed(call) && owned then CompleteRow(worked.keys, ClaimOf(call), ResultOf(plan), scope)
                             else worked.keys)
  {
    var t1 := ApplyOps(schema, tx, plan.ops).value;
    EventsWritten(t1, plan.events, call.actor);
    var t2 := AppendEvents(t1, plan.events, call.actor).value;
    var t3 := WriteAudit(t2, call.actor, call.command.name, AuditOf(call, plan)).value;
    JobsWritten(t3, plan.jobs);
  }

  lemma {:induction false} OpsTouchOnlyTables(schema: Schema, tx: Tx, ops: seq<StateOp>)
    ensures var r := ApplyOps(schema, tx, ops);
            r.Ok? ==>
              && r.value.db.events == tx.db.events
              && r.value.db.audits == tx.db.audits
              && r.value.db.jobs == tx.db.jobs
    decreases |ops|
  {
    if ops != [] && ApplyOps(schema, tx, ops).Ok? {
      var db := ApplyOp(schema, tx.db, ops[0]).value;
      OpsTouchOnlyTables(schema, Spend(tx.(db := db)).value, ops[1..]);
    }
  }

  // ---------------------------------------------------------------- one run and the key table

  /** The decision a committed run carried out: what it loaded in the transaction, and the plan it accepted. */
  datatype Work = Work(reserved: Db, loaded: Loaded, plan: Plan)

  function ReservedDb(db: Db, call: Call): Db {
    if Keyed(call) && call.key.value !in db.keys then db.(keys := db.keys[call.key.value := Pending(ClaimOf(call))])
    else db
  }

  /** The row a keyed run leaves: its result under its claim, with the scope it loaded. */
  function WorkRow(call: Call, work: Work): KeyRow
    requires Keyed(call)
  {
    Completed(ClaimOf(call), ResultOf(work.plan), work.loaded.scope)
  }

  /** A commit is the work of an accepted plan, and under a key only of a key not yet in the table. */
  lemma CommitIs(schema: Schema, db: Db, budget: Option<nat>, call: Call) returns (work: Work, tx: Tx)
    ensures var end := Transact(schema, Tx(db, budget), call);
            end.Committed? ==>
              && (Keyed(call) ==> call.key.value !in db.keys && |call.key.value| <= MAX_STORED_KEY_LENGTH)
              && !call.dryRun
              && work.reserved == ReservedDb(db, call) == tx.db
              && call.command.load(work.reserved, call.input) == Some(work.loaded)
              && call.command.checkScope(call.actor, work.loaded).InScope?
              && call.command.decide(call.input, work.loaded, call.actor) == Accept(work.plan)
              && call.command.validSummary(work.plan.summary)
              && end.result == ResultOf(work.plan)
              && (call.command.bulk ==> work.plan.summary.rows.Some?)
              && var done := Finish(schema, tx, call, work.plan, work.loaded.scope, Keyed(call));
              && done.Ok?
              && done.value.db == end.db
  {
    tx := Tx(db, budget);
    work := Work(db, Loaded(ScopeIds(None, None, None, None), None, []), Plan([], [], [], None, Summary(None, map[])));
    if Transact(schema, tx, call).Committed? {
      if Keyed(call) { tx := Spend(tx).value; }
      tx := Spend(tx.(db := ReservedDb(db, call))).value;
      var loaded := call.command.load(tx.db, call.input).value;
      work := Work(tx.db, loaded, call.command.decide(call.input, loaded, call.actor).plan);
    }
  }

  /** What a commit adds to the append-only tables, whatever the state operations did to the others. */
  lemma CommitAppends(schema: Schema, db: Db, budget: Option<nat>, call: Call) returns (work: Work)
    ensures var end := Transact(schema, Tx(db, budget), call);
            end.Committed? ==>
              && end.result == ResultOf(work.plan)
              && end.db.events == db.events + EventRows(work.plan.events, call.actor)
              && end.db.audits == db.audits + AuditRows(call, work.plan)
              && end.db.jobs == db.jobs + work.plan.jobs
  {
    var tx;
    work, tx := CommitIs(schema, db, budget, call);
    if Transact(schema, Tx(db, budget), call).Committed? {
      FinishWritesPlan(schema, tx, call, work.plan, work.loaded.scope, Keyed(call));
      OpsTouchOnlyTables(schema, tx, work.plan.ops);
    }
  }

  function KeysAfter(keys: map<string, KeyRow>, call: Call, work: Work): map<string, KeyRow> {
    if Keyed(call) then keys[call.key.value := WorkRow(call, work)] else keys
  }

  lemma CompletedIsNew(c: Claim, result: Result, scope: ScopeIds)
    ensures IsComplete(Completed(c, result, scope)) && !IsNonce(Completed(c, result, scope))
    ensures !IsNonce(Pending(c))
  {
  }

  /** A commit completes its own key and otherwise moves only nonces. */
  lemma CommitKeys(schema: Schema, db: Db, budget: Option<nat>, call: Call) returns (work: Work)
    requires CarefulCall(call)
    ensures var end := Transact(schema, Tx(db, budget), call);
            end.Committed? ==>
              && (Keyed(call) ==> call.key.value !in db.keys)
              && call.command.load(ReservedDb(db, call), call.input) == Some(work.loaded)
              && end.result == ResultOf(work.plan)
              && SameButNonces(KeysAfter(db.keys, call, work), end.db.keys)
  {
    var tx;
    work, tx := CommitIs(schema, db, budget, call);
    var end := Transact(schema, Tx(db, budget), call);
    if end.Committed? {
      FinishWritesPlan(schema, tx, call, work.plan, work.loaded.scope, Keyed(call));
      OpsKeepKeys(schema, tx, work.plan.ops);
      if Keyed(call) {
        CompletedIsNew(ClaimOf(call), ResultOf(work.plan), work.loaded.scope);
        var worked := ApplyOps(schema, tx, work.plan.ops).value.db.keys;
        assert call.key.value in worked && worked[call.key.value] == Pending(ClaimOf(call));
        assert end.db.keys == worked[call.key.value := WorkRow(call, work)];
      }
    }
  }

  lemma SoundnessCarries(before: map<string, KeyRow>, after: map<string, KeyRow>)
    requires Sound(before) && SameButNonces(before, after)
    ensures Sound(after)
  {
  }

  /** Completed rows stay, as they are. */
  predicate Retained(before: map<string, KeyRow>, after: map<string, KeyRow>) {
    forall k | k in before && !IsNonce(before[k]) :: k in after && after[k] == before[k]
  }

  /** The faults the code raises for table states it calls impossible. */
  predicate IsInternal(f: Fault) {
    f in {IncompleteReservation, NoScopeSnapshot, CachedWithoutScope, BrokenEnvelope}
  }

  lemma {:induction false} OpsFaultPlainly(schema: Schema, tx: Tx, ops: seq<StateOp>)
    ensures ApplyOps(schema, tx, ops).Failed? ==> !IsInternal(ApplyOps(schema, tx, ops).fault)
    decreases |ops|
  {
    if ops != [] && ApplyOp(schema, tx.db, ops[0]).Ok? {
      var next := Spend(tx.(db := ApplyOp(schema, tx.db, ops[0]).value));
      if next.Ok? { OpsFaultPlainly(schema, next.value, ops[1..]); }
    }
  }

  lemma {:induction false} EventsFaultPlainly(tx: Tx, events: seq<Event>, actor: Actor)
    ensures AppendEvents(tx, events, actor).Failed? ==> !IsInternal(AppendEvents(tx, events, actor).fault)
    decreases |events|
  {
    if events != [] {
      var next := Spend(tx.(db := tx.db.(events := tx.db.events + [EventRow(events[0], actor.user)])));
      if next.Ok? { EventsFaultPlainly(next.value, events[1..], actor); }
    }
  }

  lemma {:induction false} JobsFaultPlainly(tx: Tx, jobs: seq<Job>)
    ensures DeferJobs(tx, jobs).Failed? ==> !IsInternal(DeferJobs(tx, jobs).fault)
    decreases |jobs|
  {
    if jobs != [] {
      var next := Spend(tx.(db := tx.db.(jobs := tx.db.jobs + [jobs[0]])));
      if next.Ok? { JobsFaultPlainly(next.value, jobs[1..]); }
    }
  }

  lemma FinishFaultsPlainly(schema: Schema, tx: Tx, call: Call, plan: Plan, scope: ScopeIds, owned: bool)
    ensures var r := Finish(schema, tx, call, plan, scope, owned); r.Failed? ==> !IsInternal(r.fault)
  {
    OpsFaultPlainly(schema, tx, plan.ops);
    var r1 := ApplyOps(schema, tx, plan.ops);
    if r1.Ok? {
      EventsFaultPlainly(r1.value, plan.events, call.actor);
      var r2 := AppendEvents(r1.value, plan.events, call.actor);
      if r2.Ok? {
        var r3 := WriteAudit(r2.value, call.actor, call.command.name, AuditOf(call, plan));
        if r3.Ok? { JobsFaultPlainly(r3.value, plan.jobs); }
      }
    }
  }

  lemma ProceedFaultsPlainly(schema: Schema, tx: Tx, call: Call, owned: bool)
    ensures var end := Proceed(schema, tx, call, owned);
            end.RolledBack? && end.outcome.Faulted? ==> !IsInternal(end.outcome.fault)
  {
    if Spend(tx).Ok? {
      var tx := Spend(tx).value;
      var loaded := call.command.load(tx.db, call.input);
      if loaded.Some? {
        var decision := call.command.decide(call.input, loaded.value, call.actor);
        if decision.Accept? { FinishFaultsPlainly(schema, tx, call, decision.plan, loaded.value.scope, owned); }
      }
    }
  }

  lemma SoundRowsAnswer(keys: map<string, KeyRow>, c: Claim)
    requires Sound(keys)
    ensures var answer := Reserve(keys, c).1;
            && (answer.Broken? ==> !IsInternal(answer.fault))
            && (answer.Reserved? && answer.reservation.cached.Some? ==> answer.reservation.scope.Some?)
  {
  }

  /** From a sound table no run meets the RuntimeErrors of the replay path. */
  lemma NoInternalFault(schema: Schema, db: Db, call: Call, weather: Weather)
    requires Sound(db.keys)
    ensures var o := Attempt(schema, db, call, weather).1; o.Faulted? ==> !IsInternal(o.fault)
  {
    var tx := Tx(db, weather.budget);
    ProceedFaultsPlainly(schema, tx, call, false);
    if Keyed(call) && Spend(tx).Ok? {
      var spent := Spend(tx).value;
      SoundRowsAnswer(db.keys, ClaimOf(call));
      var (keys, answer) := Reserve(spent.db.keys, ClaimOf(call));
      if answer.Reserved? {
        ProceedFaultsPlainly(schema, spent.(db := spent.db.(keys := keys)), call, answer.reservation.owned);
      }
    }
  }

  // ---------------------------------------------------------------- refusals change nothing

  /** A key that is in the table for another command, principal or request is refused, and nothing is written. */
  lemma MismatchIsRefused(schema: Schema, db: Db, call: Call, weather: Weather)
    requires Keyed(call) && call.key.value in db.keys && |call.key.value| <= MAX_STORED_KEY_LENGTH
    requires !Matches(db.keys[call.key.value], ClaimOf(call))
    requires call.command.admits(call.actor, call.input) && !call.command.sessionEffect && weather.budget != Some(0)
    ensures Attempt(schema, db, call, weather) == (db, Rejected(KeyConflict))
  {
  }

  /** Whatever happens, either nothing was written or an accepted plan was committed. */
  lemma AllOrNothing(schema: Schema, db: Db, call: Call, weather: Weather)
    ensures var (db', o) := Attempt(schema, db, call, weather);
            db' != db ==>
              && !call.dryRun
              && Transact(schema, Tx(db, weather.budget), call).Committed?
              && (o.Done? || o == Faulted(ConnectionLost))
    ensures Attempt(schema, db, call, weather).1.Previewed? ==> call.dryRun
  {
    var work, tx := CommitIs(schema, db, weather.budget, call);
  }

  // ---------------------------------------------------------------- every history

  /** Any runs by anyone, in commit order. */
  type History = seq<(Call, Weather)>

  function After(schema: Schema, db: Db, h: History): Db
    decreases |h|
  {
    if h == [] then db else After(schema, Attempt(schema, db, h[0].0, h[0].1).0, h[1..])
  }

  ghost predicate CarefulHistory(h: History) {
    forall i | 0 <= i < |h| :: CarefulCall(h[i].0)
  }

  /** This run commits work under key k. */
  predicate CommitsKey(schema: Schema, db: Db, call: Call, weather: Weather, k: string) {
    && Keyed(call)
    && call.key.value == k
    && call.command.admits(call.actor, call.input)
    && !call.command.sessionEffect
    && Transact(schema, Tx(db, weather.budget), call).Committed?
  }

  function Commits(schema: Schema, db: Db, h: History, k: string): nat
    decreases |h|
  {
    if h == [] then 0
    else
      (if CommitsKey(schema, db, h[0].0, h[0].1, k) then 1 else 0)
      + Commits(schema, Attempt(schema, db, h[0].0, h[0].1).0, h[1..], k)
  }

  predicate HoldsResult(keys: map<string, KeyRow>, k: string) {
    k in keys && !IsNonce(keys[k])
  }

  /** One run keeps the table sound and its results in place; a key gains a result exactly when its own run commits. */
  lemma AttemptKeepsTable(schema: Schema, db: Db, call: Call, weather: Weather)
    requires Sound(db.keys) && CarefulCall(call)
    ensures var db' := Attempt(schema, db, call, weather).0;
            && Sound(db'.keys)
            && Retained(db.keys, db'.keys)
            && forall k ::
                && (HoldsResult(db'.keys, k) <==> HoldsResult(db.keys, k) || CommitsKey(schema, db, call, weather, k))
                           && (CommitsKey(schema, db, call, weather, k) ==> k !in db.keys)
  {
    var work := CommitKeys(schema, db, weather.budget, call);
    var db' := Attempt(schema, db, call, weather).0;
    if call.command.admits(call.actor, call.input) && !(call.command.sessionEffect && call.key.Some?)
       && Transact(schema, Tx(db, weather.budget), call).Committed?
    {
      var keys := KeysAfter(db.keys, call, work);
      if Keyed(call) { CompletedIsNew(ClaimOf(call), ResultOf(work.plan), work.loaded.scope); }
      assert Sound(keys);
      SoundnessCarries(keys, db'.keys);
    }
  }

  /** Over any history a key's work is committed at most once, and exactly when its row appears. */
  lemma {:induction false} KeyCommitsOnce(schema: Schema, db: Db, h: History, k: string)
    requires Sound(db.keys) && CarefulHistory(h)
    ensures var db' := After(schema, db, h);
            && Sound(db'.keys)
            && Retained(db.keys, db'.keys)
            && Commits(schema, db, h, k) == (if HoldsResult(db'.keys, k) && !HoldsResult(db.keys, k) then 1 else 0)
    decreases |h|
  {
    if h != [] {
      var (call, weather) := h[0];
      AttemptKeepsTable(schema, db, call, weather);
      assert forall i | 0 <= i < |h[1..]| :: h[1..][i] == h[i + 1];
      KeyCommitsOnce(schema, Attempt(schema, db, call, weather).0, h[1..], k);
    }
  }
}
