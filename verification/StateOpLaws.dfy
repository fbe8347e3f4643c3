/**
 What a plan's state operations do to the rows they name (backend/app/core/executor.py:378-397): the
 meaning of the insert, update and delete statements, one by one and over a whole plan.
 */
module StateOpLaws {
  import opened Common
  import opened Keys
  import opened Plans
  import opened Idempotency
  import opened Transactions
  import opened Executor
  import opened KeyTable

  // ---------------------------------------------------------------- one operation

  function TableOf(db: Db, model: string): seq<Row> {
    if model in db.tables then db.tables[model] else []
  }

  /** The row holds every one of these values; a column it does not have is null. */
  predicate HoldsAll(row: Row, wanted: Row) {
    forall column | column in wanted ::
      if column in row then row[column] == wanted[column] else wanted[column] == Null
  }

  /** The given values in the columns they name, the row's own in the others. */
  predicate Overwritten(row: Row, values: Row, after: Row) {
    && after.Keys == row.Keys + values.Keys
    && (forall column | column in values :: after[column] == values[column])
    && forall column | column in row && column !in values :: after[column] == row[column]
  }

  /** Every row keeps its place; the rows selected are overwritten, the others are as they were. */
  predicate UpdatesRows(rows: seq<Row>, where: Row, values: Row, after: seq<Row>) {
    && |after| == |rows|
    && forall i | 0 <= i < |rows| ::
         if HoldsAll(rows[i], where) then Overwritten(rows[i], values, after[i]) else after[i] == rows[i]
  }

  /** The rows at these places, in order. */
  predicate RowsAt(rows: seq<Row>, places: seq<nat>, after: seq<Row>) {
    && |after| == |places|
    && (forall j, k | 0 <= j < k < |places| :: places[j] < places[k])
    && forall j | 0 <= j < |places| :: places[j] < |rows| && after[j] == rows[places[j]]
  }

  /** The places of exactly the rows not selected. */
  predicate Unselected(rows: seq<Row>, where: Row, places: seq<nat>) {
    forall i | 0 <= i < |rows| :: i in places <==> !HoldsAll(rows[i], where)
  }

  ghost predicate DeletesRows(rows: seq<Row>, where: Row, after: seq<Row>) {
    exists places :: RowsAt(rows, places, after) && Unselected(rows, where, places)
  }

  /** Only this table may differ. */
  ghost predicate OnlyTable(before: Db, model: string, after: Db) {
    && after == before.(tables := after.tables)
    && forall other | other != model ::
         (other in after.tables <==> other in before.tables)
         && (other in before.tables ==> after.tables[other] == before.tables[other])
  }

  /** Only login nonces may differ, and of them only the one under this key. */
  ghost predicate OnlyNonce(before: Db, key: string, after: Db) {
    && after == before.(keys := after.keys)
    && forall other | other != key ::
         (other in after.keys <==> other in before.keys)
         && (other in before.keys ==> after.keys[other] == before.keys[other])
  }

  /** What the statement asks of the database. */
  ghost predicate CarriesOut(before: Db, op: StateOp, after: Db) {
    match op
    case Insert(model, values) =>
      OnlyTable(before, model, after) && TableOf(after, model) == TableOf(before, model) + [values]
    case Update(model, where, values) =>
      OnlyTable(before, model, after) && UpdatesRows(TableOf(before, model), where, values, TableOf(after, model))
    case Delete(model, where) =>
      OnlyTable(before, model, after) && DeletesRows(TableOf(before, model), where, TableOf(after, model))
    case InsertNonce(key, expiresAt) =>
      && OnlyNonce(before, key, after) && key !in before.keys && key in after.keys
      && IsNonce(after.keys[key]) && after.keys[key].result.expiresAt == Some(expiresAt)
    case DeleteNonce(key) => OnlyNonce(before, key, after) && key !in after.keys
  }

  lemma {:induction false} RemainingKeeps(rows: seq<Row>, where: Row) returns (places: seq<nat>)
    ensures RowsAt(rows, places, Remaining(rows, where)) && Unselected(rows, where, places)
  {
    if rows == [] {
      places := [];
    } else {
      var later := RemainingKeeps(rows[1..], where);
      SelectedAlike(rows[0], where);
      places := Behind(!HoldsAll(rows[0], where), later);
      RowsMove(!HoldsAll(rows[0], where), rows, later, Remaining(rows[1..], where));
      SelectionMoves(rows, where, later);
    }
  }

  function Shifted(places: seq<nat>): (shifted: seq<nat>)
    ensures |shifted| == |places| && forall j | 0 <= j < |places| :: shifted[j] == places[j] + 1
  {
    if places == [] then [] else [places[0] + 1] + Shifted(places[1..])
  }

  /** The places kept once a row comes before the others, as the first one kept or not. */
  function Behind(kept: bool, later: seq<nat>): (places: seq<nat>)
    ensures var n := if kept then 1 else 0;
            && |places| == n + |later|
            && (kept ==> places[0] == 0)
            && forall j | n <= j < |places| :: places[j] == later[j - n] + 1
  {
    if kept then [0] + Shifted(later) else Shifted(later)
  }

  lemma RowsMove(kept: bool, rows: seq<Row>, later: seq<nat>, rest: seq<Row>)
    requires rows != [] && RowsAt(rows[1..], later, rest)
    ensures RowsAt(rows, Behind(kept, later), (if kept then [rows[0]] else []) + rest)
  {
    var n := if kept then 1 else 0;
    var places, after := Behind(kept, later), (if kept then [rows[0]] else []) + rest;
    forall j | n <= j < |places| ensures places[j] < |rows| && after[j] == rows[places[j]] {
      assert after[j] == rest[j - n] == rows[1..][later[j - n]];
    }
  }

  lemma SelectionMoves(rows: seq<Row>, where: Row, later: seq<nat>)
    requires rows != [] && Unselected(rows[1..], where, later)
    ensures Unselected(rows, where, Behind(!HoldsAll(rows[0], where), later))
  {
    var kept := !HoldsAll(rows[0], where);
    forall i | 0 <= i < |rows| ensures i in Behind(kept, later) <==> !HoldsAll(rows[i], where) {
      if 0 < i {
        assert rows[1..][i - 1] == rows[i];
        PlaceMoves(kept, later, i);
      }
    }
  }

  lemma PlaceMoves(kept: bool, later: seq<nat>, i: nat)
    requires 0 < i
    ensures i in Behind(kept, later) <==> i - 1 in later
  {
    var places := Behind(kept, later);
    var n := if kept then 1 else 0;
    if i - 1 in later {
      var j :| 0 <= j < |later| && later[j] == i - 1;
      assert places[n + j] == i;
    }
  }

  lemma SelectedAlike(row: Row, where: Row)
    ensures RowMatches(row, where) <==> HoldsAll(row, where)
  {
    forall column | column in where
      ensures Cell(row, column) == where[column] <==>
                (if column in row then row[column] == where[column] else where[column] == Null)
    {}
  }

  /** A successful operation does to the database exactly what its statement says. */
  lemma OpCarriesOut(schema: Schema, db: Db, op: StateOp)
    requires ApplyOp(schema, db, op).Ok?
    ensures CarriesOut(db, op, ApplyOp(schema, db, op).value)
  {
    match op
    case Update(model, where, values) =>
      forall i | 0 <= i < |RowsOf(db, model)| { SelectedAlike(RowsOf(db, model)[i], where); }
    case Delete(model, where) =>
      var places := RemainingKeeps(RowsOf(db, model), where);
    case _ =>
  }

  /** The operation names a table and columns the schema has, and an update or delete says which rows. */
  predicate IsRunnable(schema: Schema, db: Db, op: StateOp) {
    match op
    case Insert(model, values) => model in schema && forall c | c in values :: c in schema[model]
    case Update(model, where, values) =>
      && model in schema && where.Keys != {}
      && (forall c | c in where :: c in schema[model]) && forall c | c in values :: c in schema[model]
    case Delete(model, where) => model in schema && where.Keys != {} && forall c | c in where :: c in schema[model]
    case InsertNonce(key, _) => |key| <= 256 && key !in db.keys
    case DeleteNonce(_) => true
  }

  lemma OpSucceedsIff(schema: Schema, db: Db, op: StateOp)
    ensures ApplyOp(schema, db, op).Ok? <==> IsRunnable(schema, db, op)
  {
    match op
    case Update(model, where, _) => assert where == map[] <==> where.Keys == {};
    case Delete(model, where) => assert where == map[] <==> where.Keys == {};
    case _ =>
  }

  // ---------------------------------------------------------------- a whole plan

  /** From the first database through these ones, each by the plan's next operation. */
  ghost predicate PlanLeads(ops: seq<StateOp>, states: seq<Db>) {
    && |states| == |ops| + 1
    && forall i | 0 <= i < |ops| :: CarriesOut(states[i], ops[i], states[i + 1])
  }

  /** Operations that all succeed were carried out one after the other, in the plan's order. */
  lemma {:induction false} OpsCarryOut(schema: Schema, tx: Tx, ops: seq<StateOp>) returns (states: seq<Db>)
    requires ApplyOps(schema, tx, ops).Ok?
    ensures PlanLeads(ops, states)
    ensures states[0] == tx.db && states[|ops|] == ApplyOps(schema, tx, ops).value.db
    decreases |ops|
  {
    if ops == [] {
      states := [tx.db];
    } else {
      OpCarriesOut(schema, tx.db, ops[0]);
      var next := Spend(tx.(db := ApplyOp(schema, tx.db, ops[0]).value)).value;
      var later := OpsCarryOut(schema, next, ops[1..]);
      states := [tx.db] + later;
      forall i | 0 <= i < |ops| ensures CarriesOut(states[i], ops[i], states[i + 1]) {
        if i > 0 { assert CarriesOut(later[i - 1], ops[1..][i - 1], later[i]); }
      }
    }
  }

  /** The audit row a committed run owes: its plan's, or for a bulk command the batch's if it was given one. */
  ghost predicate Audits(before: Db, call: Call, plan: Plan, after: Db) {
    var due := if call.command.bulk then call.batchAudit else plan.audit;
    match due
    case Some(audit) => after.audits == before.audits + [AuditRow(call.actor.user, call.command.name, audit)]
    case None => after.audits == before.audits
  }

  /**
   A committed run leaves exactly what its plan asks for: the tables its operations lead to, its events
   under the actor in plan order, the audit row it owes, its jobs, and its own key completed.
   */
  lemma CommitCarriesOut(schema: Schema, db: Db, budget: Option<nat>, call: Call)
    returns (work: Work, states: seq<Db>)
    requires Transact(schema, Tx(db, budget), call).Committed?
    ensures var end := Transact(schema, Tx(db, budget), call);
            && call.command.load(ReservedDb(db, call), call.input) == Some(work.loaded)
            && call.command.decide(call.input, work.loaded, call.actor) == Accept(work.plan)
            && PlanLeads(work.plan.ops, states)
            && states[0] == ReservedDb(db, call)
            && end.db.tables == states[|work.plan.ops|].tables
            && Audits(db, call, work.plan, end.db)
            && |end.db.events| == |db.events| + |work.plan.events|
            && (forall i | 0 <= i < |db.events| :: end.db.events[i] == db.events[i])
            && (forall i | 0 <= i < |work.plan.events| ::
                  && end.db.events[|db.events| + i].event == work.plan.events[i]
                  && end.db.events[|db.events| + i].actor == call.actor.user)
            && end.db.jobs == db.jobs + work.plan.jobs
            && end.result == Result(work.plan.summary, work.plan.events)
  {
    var tx;
    work, tx := CommitIs(schema, db, budget, call);
    FinishWritesPlan(schema, tx, call, work.plan, work.loaded.scope, Keyed(call));
    OpsTouchOnlyTables(schema, tx, work.plan.ops);
    states := OpsCarryOut(schema, tx, work.plan.ops);
  }
}
