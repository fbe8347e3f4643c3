/**
 What one database transaction does, statement by statement (backend/app/core/executor.py:378-473).
 A failing statement aborts the transaction, so only the writes of a completed one are described.
 */
module Transactions {
  import opened Common
  import opened Keys
  import opened Plans
  import opened Idempotency

  /** An open transaction; `budget` statements still succeed before the database fails (None: all of them). */
  datatype Tx = Tx(db: Db, budget: Option<nat>)

  function Spend(tx: Tx): Step<Tx> {
    match tx.budget
    case None => Ok(tx)
    case Some(n) => if n == 0 then Failed(DatabaseFailed) else Ok(Tx(tx.db, Some(n - 1)))
  }

  // ---------------------------------------------------------------- state operations

  function Cell(row: Row, column: string): Value {
    if column in row then row[column] else Null
  }

  predicate RowMatches(row: Row, where: Row) {
    forall column | column in where :: Cell(row, column) == where[column]
  }

  function Updated(rows: seq<Row>, where: Row, values: Row): seq<Row> {
    seq(|rows|, i requires 0 <= i < |rows| => if RowMatches(rows[i], where) then rows[i] + values else rows[i])
  }

  function Remaining(rows: seq<Row>, where: Row): seq<Row> {
    if rows == [] then []
    else (if RowMatches(rows[0], where) then [] else [rows[0]]) + Remaining(rows[1..], where)
  }

  function RowsOf(db: Db, model: string): seq<Row> {
    if model in db.tables then db.tables[model] else []
  }

  function WithRows(db: Db, model: string, rows: seq<Row>): Db {
    db.(tables := db.tables[model := rows])
  }

  function ApplyOp(schema: Schema, db: Db, op: StateOp): Step<Db> {
    match op
    case Insert(model, values) =>
      if model !in schema then Failed(UnknownModel)
      else if !(values.Keys <= schema[model]) then Failed(UnknownColumn)
      else Ok(WithRows(db, model, RowsOf(db, model) + [values]))
    case Update(model, where, values) =>
      if model !in schema then Failed(UnknownModel)
      else if where == map[] then Failed(MissingWhere)
      else if !(where.Keys + values.Keys <= schema[model]) then Failed(UnknownColumn)
      else Ok(WithRows(db, model, Updated(RowsOf(db, model), where, values)))
    case Delete(model, where) =>
      if model !in schema then Failed(UnknownModel)
      else if where == map[] then Failed(MissingWhere)
      else if !(where.Keys <= schema[model]) then Failed(UnknownColumn)
      else Ok(WithRows(db, model, Remaining(RowsOf(db, model), where)))
    case InsertNonce(key, expiresAt) =>
      if |key| > MAX_STORED_KEY_LENGTH then Failed(KeyTooLong)
      else if key in db.keys then Failed(KeyTaken)
      else Ok(db.(keys := db.keys[key := Nonce(expiresAt)]))
    case DeleteNonce(key) => Ok(db.(keys := db.keys - {key}))
  }

  function Nonce(expiresAt: int): KeyRow {
    KeyRow(NONCE_COMMAND, Envelope(None, None, None, None, None, None, Some(expiresAt)))
  }

  function ApplyOps(schema: Schema, tx: Tx, ops: seq<StateOp>): Step<Tx>
    decreases |ops|
  {
    if ops == [] then Ok(tx)
    else
      var db :- ApplyOp(schema, tx.db, ops[0]);
      var next :- Spend(tx.(db := db));
      ApplyOps(schema, next, ops[1..])
  }

  // ---------------------------------------------------------------- events, audit, deferred jobs

  function AppendEvents(tx: Tx, events: seq<Event>, actor: Actor): Step<Tx>
    decreases |events|
  {
    if events == [] then Ok(tx)
    else if events[0].application.None? then Failed(EventWithoutApplication)
    else
      var next :- Spend(tx.(db := tx.db.(events := tx.db.events + [EventRow(events[0], actor.user)])));
      AppendEvents(next, events[1..], actor)
  }

  function WriteAudit(tx: Tx, actor: Actor, action: string, audit: Option<Audit>): Step<Tx> {
    match audit
    case None => Ok(tx)
    case Some(a) => Spend(tx.(db := tx.db.(audits := tx.db.audits + [AuditRow(actor.user, action, a)])))
  }

  function DeferJobs(tx: Tx, jobs: seq<Job>): Step<Tx>
    decreases |jobs|
  {
    if jobs == [] then Ok(tx)
    else
      var next :- Spend(tx.(db := tx.db.(jobs := tx.db.jobs + [jobs[0]])));
      DeferJobs(next, jobs[1..])
  }

  // ---------------------------------------------------------------- the session

  /** The session object the executor's helpers write through. */
  class Transaction {
    var db: Db
    var budget: Option<nat>

    constructor (db: Db, budget: Option<nat>)
      ensures View() == Tx(db, budget)
    {
      this.db, this.budget := db, budget;
    }

    ghost function View(): Tx
      reads this
    {
      Tx(db, budget)
    }

    method Statement() returns (status: Step<()>)
      modifies `budget
      ensures match Spend(old(View()))
              case Ok(tx) => status == Ok(()) && View() == tx
              case Failed(f) => status == Failed(f)
    {
      if budget == Some(0) { return Failed(DatabaseFailed); }
      if budget.Some? { budget := Some(budget.value - 1); }
      return Ok(());
    }

    method ApplyStateOps(schema: Schema, ops: seq<StateOp>) returns (status: Step<()>)
      modifies this
      ensures match ApplyOps(schema, old(View()), ops)
              case Ok(tx) => status == Ok(()) && View() == tx
              case Failed(f) => status == Failed(f)
    {
      for i := 0 to |ops|
        invariant ApplyOps(schema, old(View()), ops) == ApplyOps(schema, View(), ops[i..])
      {
        var changed := ApplyOp(schema, db, ops[i]);
        if changed.Failed? { return Failed(changed.fault); }
        db := changed.value;
        var _ :- Statement();
        assert ops[i..][1..] == ops[i + 1..];
      }
      return Ok(());
    }

    method AppendEventRows(events: seq<Event>, actor: Actor) returns (status: Step<()>)
      modifies this
      ensures match AppendEvents(old(View()), events, actor)
              case Ok(tx) => status == Ok(()) && View() == tx
              case Failed(f) => status == Failed(f)
    {
      for i := 0 to |events|
        invariant AppendEvents(old(View()), events, actor) == AppendEvents(View(), events[i..], actor)
      {
        if events[i].application.None? { return Failed(EventWithoutApplication); }
        db := db.(events := db.events + [EventRow(events[i], actor.user)]);
        var _ :- Statement();
        assert events[i..][1..] == events[i + 1..];
      }
      return Ok(());
    }

    method WriteAuditRow(actor: Actor, action: string, audit: Option<Audit>) returns (status: Step<()>)
      modifies this
      ensures match WriteAudit(old(View()), actor, action, audit)
              case Ok(tx) => status == Ok(()) && View() == tx
              case Failed(f) => status == Failed(f)
    {
      if audit.None? { return Ok(()); }
      db := db.(audits := db.audits + [AuditRow(actor.user, action, audit.value)]);
      status := Statement();
    }

    method Defer(jobs: seq<Job>) returns (status: Step<()>)
      modifies this
      ensures match DeferJobs(old(View()), jobs)
              case Ok(tx) => status == Ok(()) && View() == tx
              case Failed(f) => status == Failed(f)
    {
      for i := 0 to |jobs|
        invariant DeferJobs(old(View()), jobs) == DeferJobs(View(), jobs[i..])
      {
        db := db.(jobs := db.jobs + [jobs[i]]);
        var _ :- Statement();
        assert jobs[i..][1..] == jobs[i + 1..];
      }
      return Ok(());
    }

    /** `idempotency.reserve`: insert unless the key exists, otherwise read the row that does. */
    method ReserveKey(c: Claim) returns (answer: Reserving)
      modifies `db
      ensures (db.keys, answer) == Reserve(old(db.keys), c)
      ensures db == old(db).(keys := db.keys)
    {
      if |c.key| > MAX_STORED_KEY_LENGTH { return Broken(KeyTooLong); }
      if c.key !in db.keys {
        db := db.(keys := db.keys[c.key := Pending(c)]);
        return Reserved(Reservation(true, None, None));
      }
      var row := db.keys[c.key];
      if !Matches(row, c) { return Conflict; }
      var envelope := row.result;
      if envelope.status != Some(Complete) { return Broken(IncompleteReservation); }
      if envelope.summary.None? || envelope.events.None? { return Broken(BrokenEnvelope); }
      if envelope.scope.None? { return Broken(NoScopeSnapshot); }
      var cached := Result(envelope.summary.value, EventsFrom(envelope.events.value));
      return Reserved(Reservation(false, Some(cached), Some(ScopeFromPayload(envelope.scope.value))));
    }

    /** `idempotency.complete`. */
    method CompleteKey(c: Claim, result: Result, scope: ScopeIds)
      modifies `db
      ensures db == old(db).(keys := CompleteRow(old(db.keys), c, result, scope))
    {
      if c.key in db.keys {
        var envelope := Envelope(Some(Complete), Some(c.principal), Some(c.fingerprint), Some(ScopePayloadOf(scope)),
                                 Some(result.summary), Some(PayloadsOf(result.events)), None);
        db := db.(keys := db.keys[c.key := KeyRow(db.keys[c.key].command, envelope)]);
      }
    }
  }
}
