/** The command executor (backend/app/core/executor.py:123-376). */
module Executor {
  import opened Common
  import opened Keys
  import opened Plans
  import opened Idempotency
  import opened Transactions

  /** What a loader read: the ids in scope, whether it saw the cycle archived (None: it does not say), and the rest. */
  datatype Loaded = Loaded(scope: ScopeIds, archived: Option<bool>, rows: seq<Row>)

  /** What the authorizer says of a loaded state. */
  datatype ScopeVerdict = InScope | OutOfScope | ArchivedCycle | ArchivalUnreported

  datatype Decision = Reject(code: string) | Accept(plan: Plan)

  /**
   A registered command. Its loader (None: it raised), decider, authorizer checks and models
   are whatever functions the registry holds; `load` includes the override resolver.
   */
  datatype Command = Command(
    name: string,
    bulk: bool,
    sessionEffect: bool,
    validInput: Input -> bool,
    admits: (Actor, Input) -> bool,
    checkScope: (Actor, Loaded) -> ScopeVerdict,
    admitsReplay: (Actor, ScopeIds) -> bool,
    load: (Db, Input) -> Option<Loaded>,
    decide: (Input, Loaded, Actor) -> Decision,
    validSummary: Summary -> bool)

  datatype Call = Call(command: Command, input: Input, actor: Actor, key: Option<string>, dryRun: bool,
                       batchAudit: Option<Audit>, fingerprint: Option<Input>)

  /** How the connection behaves: where the database fails, and whether the commit's reply is lost. */
  datatype Weather = Weather(budget: Option<nat>, lostCommit: bool)

  const FAIR := Weather(None, false)

  function FairWeather(k: nat): Weather {
    FAIR
  }

  datatype Outcome = Done(result: Result) | Previewed(result: Result) | Rejected(reason: Reason) | Denied
    | Faulted(fault: Fault)

  /** How a transaction ends. */
  datatype Ending = RolledBack(outcome: Outcome) | Committed(db: Db, result: Result)

  // ---------------------------------------------------------------- one run

  function ClaimOf(call: Call): Claim
    requires call.key.Some?
  {
    Claim(call.key.value, call.command.name, call.actor.principal,
          if call.fingerprint.Some? then call.fingerprint.value else call.input)
  }

  predicate Keyed(call: Call) {
    call.key.Some? && !call.dryRun
  }

  function AuditOf(call: Call, plan: Plan): Option<Audit> {
    if call.command.bulk then call.batchAudit else plan.audit
  }

  /** Applying an accepted plan, completing the reservation, and committing. */
  function Finish(schema: Schema, tx: Tx, call: Call, plan: Plan, scope: ScopeIds, owned: bool): Step<Tx> {
    var t1 :- ApplyOps(schema, tx, plan.ops);
    var t2 :- AppendEvents(t1, plan.events, call.actor);
    var t3 :- WriteAudit(t2, call.actor, call.command.name, AuditOf(call, plan));
    var t4 :- DeferJobs(t3, plan.jobs);
    var t5 :- if Keyed(call) && owned
              then Spend(t4.(db := t4.db.(keys := CompleteRow(t4.db.keys, ClaimOf(call), ResultOf(plan), scope))))
              else Ok(t4);
    Spend(t5)
  }

  function ResultOf(plan: Plan): Result {
    Result(plan.summary, plan.events)
  }

  /** What `check_scope` raises for a loaded state, if anything. */
  function Refusal(verdict: ScopeVerdict): Option<Outcome> {
    match verdict
    case InScope => None
    case OutOfScope => Some(Denied)
    case ArchivedCycle => Some(Rejected(CycleArchived))
    case ArchivalUnreported => Some(Faulted(NoArchivedFlag))
  }

  /** Loading, deciding and applying, after any reservation. */
  function Proceed(schema: Schema, tx: Tx, call: Call, owned: bool): Ending {
    match Spend(tx)
    case Failed(f) => RolledBack(Faulted(f))
    case Ok(tx) =>
      match call.command.load(tx.db, call.input)
      case None => RolledBack(Faulted(LoaderFailed))
      case Some(loaded) =>
        var refusal := Refusal(call.command.checkScope(call.actor, loaded));
        if refusal.Some? then RolledBack(refusal.value)
        else
          match call.command.decide(call.input, loaded, call.actor)
          case Reject(code) => RolledBack(Rejected(ByDecision(code)))
          case Accept(plan) =>
            if !call.command.validSummary(plan.summary) then RolledBack(Faulted(InvalidSummary))
            else if call.command.bulk && plan.summary.rows.None? then RolledBack(Faulted(SummaryWithoutRows))
            else if call.dryRun then RolledBack(Previewed(ResultOf(plan)))
            else
              match Finish(schema, tx, call, plan, loaded.scope, owned)
              case Failed(f) => RolledBack(Faulted(f))
              case Ok(done) => Committed(done.db, ResultOf(plan))
  }

  function Transact(schema: Schema, tx: Tx, call: Call): Ending {
    if !Keyed(call) then Proceed(schema, tx, call, false)
    else
      match Spend(tx)
      case Failed(f) => RolledBack(Faulted(f))
      case Ok(tx) =>
        match Reserve(tx.db.keys, ClaimOf(call))
        case (_, Conflict) => RolledBack(Rejected(KeyConflict))
        case (_, Broken(f)) => RolledBack(Faulted(f))
        case (keys, Reserved(r)) =>
          if r.cached.Some? then
            if r.scope.None? then RolledBack(Faulted(CachedWithoutScope))
            else if !call.command.admitsReplay(call.actor, r.scope.value) then RolledBack(Denied)
            else RolledBack(Done(r.cached.value))
          else Proceed(schema, tx.(db := tx.db.(keys := keys)), call, r.owned)
  }

  function Attempt(schema: Schema, db: Db, call: Call, weather: Weather): (Db, Outcome) {
    if !call.command.admits(call.actor, call.input) then (db, Denied)
    else if call.command.sessionEffect && call.key.Some? then (db, Rejected(SessionEffectWithKey))
    else
      match Transact(schema, Tx(db, weather.budget), call)
      case RolledBack(outcome) => (db, outcome)
      case Committed(db', result) => (db', if weather.lostCommit then Faulted(ConnectionLost) else Done(result))
  }

  // ---------------------------------------------------------------- bulk runs

  datatype Batch = Batch(command: Command, rows: seq<Row>, batchKey: string, actor: Actor, dryRun: bool, fields: Row)

  datatype BulkOutcome =
    | BulkDone(rows: seq<Row>, events: seq<Event>)
    | BulkPreviewed(rows: seq<Row>, events: seq<Event>)
    | BulkRejected(reason: Reason)
    | BulkDenied
    | Interrupted(completed: seq<nat>, failed: nat, why: Option<Reason>)
    | NotBulk | FieldsRestateRows | InvalidBatch

  function Chunks(b: Batch): nat {
    ChunkCount(|b.rows|)
  }

  function BatchInput(b: Batch): Input {
    Input(b.fields, b.rows, b.batchKey)
  }

  function ChunkInput(b: Batch, k: nat): Input
    requires 1 <= k <= Chunks(b)
  {
    Input(b.fields, ChunkRows(b.rows, k), b.batchKey)
  }

  function BatchAudit(b: Batch): Audit {
    Audit("bulk_batch",
          map["batch_key" := Text(b.batchKey), "row_count" := Number(|b.rows|), "chunk_count" := Number(Chunks(b))])
  }

  function ChunkCall(b: Batch, k: nat): Call
    requires 1 <= k <= Chunks(b)
  {
    Call(b.command, ChunkInput(b, k), b.actor, if b.dryRun then None else Some(StoredKey(b.batchKey, k)), b.dryRun,
         if !b.dryRun && k == 1 then Some(BatchAudit(b)) else None,
         if b.dryRun then None else Some(BatchInput(b)))
  }

  function UpTo(k: nat): seq<nat> {
    seq(k, i requires 0 <= i < k => i + 1)
  }

  /** What chunk k's outcome means for the batch, if it ends it. */
  function Ends(k: nat, o: Outcome): Option<BulkOutcome>
    requires k >= 1
  {
    match o
    case Done(r) => if r.summary.rows.Some? then None else Some(Interrupted(UpTo(k - 1), k, None))
    case Previewed(r) => if r.summary.rows.Some? then None else Some(Interrupted(UpTo(k - 1), k, None))
    case Rejected(reason) => Some(if k == 1 then BulkRejected(reason) else Interrupted(UpTo(k - 1), k, Some(reason)))
    case Denied => Some(BulkDenied)
    case Faulted(_) => Some(Interrupted(UpTo(k - 1), k, None))
  }

  /** What earlier chunks returned, and the connection's behaviour at each chunk. */
  datatype Progress = Progress(rows: seq<Row>, events: seq<Event>, weather: nat -> Weather)

  /** Chunks k, k + 1, ... of the batch. */
  function RunChunks(schema: Schema, db: Db, b: Batch, k: nat, p: Progress): (Db, BulkOutcome)
    requires 1 <= k <= Chunks(b) + 1
    decreases Chunks(b) + 1 - k, 1
  {
    if k > Chunks(b) then (db, if b.dryRun then BulkPreviewed(p.rows, p.events) else BulkDone(p.rows, p.events))
    else if !b.command.validInput(ChunkInput(b, k)) then (db, Interrupted(UpTo(k - 1), k, None))
    else Continue(schema, Attempt(schema, db, ChunkCall(b, k), p.weather(k)), b, k, p)
  }

  /** The batch after chunk k came back. */
  function Continue(schema: Schema, tried: (Db, Outcome), b: Batch, k: nat, p: Progress): (Db, BulkOutcome)
    requires 1 <= k <= Chunks(b)
    decreases Chunks(b) + 1 - k, 0
  {
    match Ends(k, tried.1)
    case Some(end) => (tried.0, end)
    case None => RunChunks(schema, tried.0, b, k + 1, With(p, tried.1.result))
  }

  function With(p: Progress, r: Result): Progress
    requires r.summary.rows.Some?
  {
    p.(rows := p.rows + r.summary.rows.value, events := p.events + r.events)
  }

  function Bulk(schema: Schema, db: Db, b: Batch, weather: nat -> Weather): (Db, BulkOutcome) {
    if !b.command.bulk then (db, NotBulk)
    else if "rows" in b.fields || "batch_key" in b.fields then (db, FieldsRestateRows)
    else if !b.command.validInput(BatchInput(b)) then (db, InvalidBatch)
    else RunChunks(schema, db, b, 1, Progress([], [], weather))
  }

  // ---------------------------------------------------------------- the executor object

  class Executor {
    const schema: Schema
    var db: Db

    constructor (schema: Schema, db: Db)
      ensures this.schema == schema && this.db == db
    {
      this.schema, this.db := schema, db;
    }

    /** `_run_impl`: the transaction writes to its own session; only a commit reaches the database. */
    method Run(call: Call, weather: Weather) returns (outcome: Outcome)
      modifies `db
      ensures (db, outcome) == Attempt(schema, old(db), call, weather)
    {
      if !call.command.admits(call.actor, call.input) { return Denied; }
      if call.command.sessionEffect && call.key.Some? { return Rejected(SessionEffectWithKey); }
      var session := new Transaction(db, weather.budget);
      var owned := false;
      if call.key.Some? && !call.dryRun {
        var sent := session.Statement();
        if sent.Failed? { return Faulted(sent.fault); }
        var answer := session.ReserveKey(ClaimOf(call));
        if answer.Conflict? { return Rejected(KeyConflict); }
        if answer.Broken? { return Faulted(answer.fault); }
        var reservation := answer.reservation;
        if reservation.cached.Some? {
          if reservation.scope.None? { return Faulted(CachedWithoutScope); }
          if !call.command.admitsReplay(call.actor, reservation.scope.value) { return Denied; }
          return Done(reservation.cached.value);
        }
        owned := reservation.owned;
      }
      outcome := Decide(session, call, owned, weather);
    }

    method Decide(session: Transaction, call: Call, owned: bool, weather: Weather) returns (outcome: Outcome)
      modifies `db, session
      ensures match Proceed(schema, old(session.View()), call, owned)
              case RolledBack(o) => outcome == o && db == old(db)
              case Committed(db', result) =>
                db == db' && outcome == if weather.lostCommit then Faulted(ConnectionLost) else Done(result)
    {
      var sent := session.Statement();
      if sent.Failed? { return Faulted(sent.fault); }
      var loaded := call.command.load(session.db, call.input);
      if loaded.None? { return Faulted(LoaderFailed); }
      match call.command.checkScope(call.actor, loaded.value) {
        case InScope =>
        case OutOfScope => return Denied;
        case ArchivedCycle => return Rejected(CycleArchived);
        case ArchivalUnreported => return Faulted(NoArchivedFlag);
      }
      var decision := call.command.decide(call.input, loaded.value, call.actor);
      if decision.Reject? { return Rejected(ByDecision(decision.code)); }
      var plan := decision.plan;
      if !call.command.validSummary(plan.summary) { return Faulted(InvalidSummary); }
      if call.command.bulk && plan.summary.rows.None? { return Faulted(SummaryWithoutRows); }
      if call.dryRun { return Previewed(ResultOf(plan)); }
      var applied := Apply(session, call, plan, loaded.value.scope, owned);
      if applied.Failed? { return Faulted(applied.fault); }
      db := session.db;
      outcome := if weather.lostCommit then Faulted(ConnectionLost) else Done(ResultOf(plan));
    }

    method Apply(session: Transaction, call: Call, plan: Plan, scope: ScopeIds, owned: bool) returns (status: Step<()>)
      requires !call.dryRun
      modifies session
      ensures match Finish(schema, old(session.View()), call, plan, scope, owned)
              case Ok(tx) => status == Ok(()) && session.View() == tx
              case Failed(f) => status == Failed(f)
    {
      var _ :- session.ApplyStateOps(schema, plan.ops);
      var _ :- session.AppendEventRows(plan.events, call.actor);
      var audit := if call.command.bulk then call.batchAudit else plan.audit;
      var _ :- session.WriteAuditRow(call.actor, call.command.name, audit);
      var _ :- session.Defer(plan.jobs);
      if call.key.Some? && owned {
        session.CompleteKey(ClaimOf(call), ResultOf(plan), scope);
        var _ :- session.Statement();
      }
      status := session.Statement();
    }

    /** `run_bulk`: one transaction per chunk, in order, until one does not come back with a result. */
    method RunBulk(b: Batch, weather: nat -> Weather) returns (outcome: BulkOutcome)
      modifies `db
      ensures (db, outcome) == Bulk(schema, old(db), b, weather)
    {
      if !b.command.bulk { return NotBulk; }
      if "rows" in b.fields || "batch_key" in b.fields { return FieldsRestateRows; }
      if !b.command.validInput(BatchInput(b)) { return InvalidBatch; }
      var completed: seq<nat> := [];
      var rows: seq<Row> := [];
      var events: seq<Event> := [];
      for k := 1 to Chunks(b) + 1
        invariant completed == UpTo(k - 1)
        invariant Bulk(schema, old(db), b, weather) == RunChunks(schema, db, b, k, Progress(rows, events, weather))
      {
        if !b.command.validInput(ChunkInput(b, k)) { return Interrupted(completed, k, None); }
        var o := Run(ChunkCall(b, k), weather(k));
        match o {
          case Done(r) => if r.summary.rows.None? { return Interrupted(completed, k, None); }
          case Previewed(r) => if r.summary.rows.None? { return Interrupted(completed, k, None); }
          case Rejected(reason) =>
            return if completed == [] then BulkRejected(reason) else Interrupted(completed, k, Some(reason));
          case Denied => return BulkDenied;
          case Faulted(_) => return Interrupted(completed, k, None);
        }
        rows := rows + o.result.summary.rows.value;
        events := events + o.result.events;
        completed := completed + [k];
      }
      return if b.dryRun then BulkPreviewed(rows, events) else BulkDone(rows, events);
    }
  }
}
