/**
 Command plans, results and the database they are written to (backend/app/core/plan.py,
 backend/app/core/executor.py).
 */
module Plans {
  import opened Common

  datatype Value = Null | Number(int) | Text(string)

  type Row = map<string, Value>

  datatype EventType =
    | Created | Advanced | Eliminated | Waitlisted | AttendanceMarked | VenueAssigned | RoundFinalized
    | OfferExtended | Accepted | Declined | AutoDeclined | Withdrawn | AutoWithdrawn | OfferTerminated
    | Reinstated | Edited | ForcedTransition | Overridden | ExternalRecorded | ExternalUpdated

  datatype Event = Event(application: Option<Id>, eventType: EventType, fromStatus: Option<string>,
                         toStatus: Option<string>, fromRound: Option<Id>, toRound: Option<Id>,
                         reason: Option<string>, payload: Row)

  datatype ScopeIds = ScopeIds(cycle: Option<Id>, job: Option<Id>, enrollment: Option<Id>, application: Option<Id>)

  datatype Actor = Actor(principal: string, user: Option<Id>)

  datatype Audit = Audit(subjectType: string, details: Row)

  datatype Job = Job(task: string, args: Row, scheduleAt: Option<int>)

  /**
   One state operation. The two nonce operations are those the login commands aim at the
   idempotency table itself, as an insert of a nonce and a delete by key.
   */
  datatype StateOp =
    | Insert(model: string, values: Row)
    | Update(model: string, where: Row, values: Row)
    | Delete(model: string, where: Row)
    | InsertNonce(key: string, expiresAt: int)
    | DeleteNonce(key: string)

  /** `rows` is None when the summary holds no list under that name. */
  datatype Summary = Summary(rows: Option<seq<Row>>, fields: Row)

  datatype Plan = Plan(ops: seq<StateOp>, events: seq<Event>, jobs: seq<Job>, audit: Option<Audit>, summary: Summary)

  datatype Result = Result(summary: Summary, events: seq<Event>)

  /** What a caller sees instead of a result. */
  datatype Fault =
    | UnknownModel | UnknownColumn | MissingWhere | KeyTaken | KeyTooLong | EventWithoutApplication
    | LoaderFailed | NoArchivedFlag | InvalidSummary | SummaryWithoutRows
    | IncompleteReservation | NoScopeSnapshot | CachedWithoutScope | BrokenEnvelope
    | DatabaseFailed | ConnectionLost

  datatype Reason = SessionEffectWithKey | KeyConflict | CycleArchived | ByDecision(code: string)

  // ---------------------------------------------------------------- the idempotency table

  datatype Status = InProgress | Complete

  datatype ScopePayload = ScopePayload(cycle: Option<Id>, job: Option<Id>, enrollment: Option<Id>,
                                       application: Option<Id>)

  datatype EventPayload = EventPayload(application: Option<Id>, eventType: EventType, fromStatus: Option<string>,
                                       toStatus: Option<string>, fromRound: Option<Id>, toRound: Option<Id>,
                                       reason: Option<string>, payload: Option<Row>)

  /** A JSON object: every member may be missing. A login nonce has only an expiry. */
  datatype Envelope = Envelope(status: Option<Status>, principal: Option<string>, fingerprint: Option<Input>,
                               scope: Option<ScopePayload>, summary: Option<Summary>,
                               events: Option<seq<EventPayload>>, expiresAt: Option<int>)

  datatype KeyRow = KeyRow(command: string, result: Envelope)

  // ---------------------------------------------------------------- the database

  /** A request body; requests are told apart by a collision-free digest, so the digest is the request. */
  datatype Input = Input(fields: Row, rows: seq<Row>, batchKey: string)

  datatype EventRow = EventRow(event: Event, actor: Option<Id>)

  datatype AuditRow = AuditRow(actor: Option<Id>, action: string, audit: Audit)

  datatype Db = Db(tables: map<string, seq<Row>>, keys: map<string, KeyRow>, events: seq<EventRow>,
                   audits: seq<AuditRow>, jobs: seq<Job>)

  /** Column names by table; never the idempotency table, which the nonce operations address. */
  type Schema = map<string, set<string>>

  datatype Step<+T> = Ok(value: T) | Failed(fault: Fault) {
    predicate IsFailure() {
      Failed?
    }

    function PropagateFailure<U>(): Step<U>
      requires Failed?
    {
      Failed(fault)
    }

    function Extract(): T
      requires Ok?
    {
      value
    }
  }
}
