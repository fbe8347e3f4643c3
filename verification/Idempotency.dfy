/** Reservations in the idempotency table (backend/app/core/idempotency.py). */
module Idempotency {
  import opened Common
  import opened Keys
  import opened Plans

  const NONCE_COMMAND := "issue_oauth_state"

  // ---------------------------------------------------------------- payloads

  function ScopePayloadOf(s: ScopeIds): ScopePayload {
    ScopePayload(s.cycle, s.job, s.enrollment, s.application)
  }

  function ScopeFromPayload(p: ScopePayload): ScopeIds {
    ScopeIds(p.cycle, p.job, p.enrollment, p.application)
  }

  function EventPayloadOf(e: Event): EventPayload {
    EventPayload(e.application, e.eventType, e.fromStatus, e.toStatus, e.fromRound, e.toRound, e.reason,
                 Some(e.payload))
  }

  function EventFromPayload(p: EventPayload): Event {
    Event(p.application, p.eventType, p.fromStatus, p.toStatus, p.fromRound, p.toRound, p.reason,
          if p.payload.Some? then p.payload.value else map[])
  }

  function PayloadsOf(events: seq<Event>): seq<EventPayload> {
    seq(|events|, i requires 0 <= i < |events| => EventPayloadOf(events[i]))
  }

  function EventsFrom(payloads: seq<EventPayload>): seq<Event> {
    seq(|payloads|, i requires 0 <= i < |payloads| => EventFromPayload(payloads[i]))
  }

  lemma EventsReadBack(events: seq<Event>)
    ensures EventsFrom(PayloadsOf(events)) == events
  {
    forall i | 0 <= i < |events| ensures EventsFrom(PayloadsOf(events))[i] == events[i] {}
  }

  // ---------------------------------------------------------------- reserving and completing

  /** Who asks for what under which digest. */
  datatype Claim = Claim(key: string, command: string, principal: string, fingerprint: Input)

  function Pending(c: Claim): KeyRow {
    KeyRow(c.command, Envelope(Some(InProgress), Some(c.principal), Some(c.fingerprint), None, None, None, None))
  }

  function Completed(c: Claim, result: Result, scope: ScopeIds): KeyRow {
    KeyRow(c.command, Envelope(Some(Complete), Some(c.principal), Some(c.fingerprint), Some(ScopePayloadOf(scope)),
                               Some(result.summary), Some(PayloadsOf(result.events)), None))
  }

  predicate Matches(row: KeyRow, c: Claim) {
    && row.command == c.command
    && row.result.principal == Some(c.principal)
    && row.result.fingerprint == Some(c.fingerprint)
  }

  datatype Reservation = Reservation(owned: bool, cached: Option<Result>, scope: Option<ScopeIds>)

  datatype Reserving = Reserved(reservation: Reservation) | Conflict | Broken(fault: Fault)

  /** What a key that is already in the table answers. */
  function ReadReservation(row: KeyRow, c: Claim): Reserving {
    if !Matches(row, c) then Conflict
    else if row.result.status != Some(Complete) then Broken(IncompleteReservation)
    else if row.result.summary.None? || row.result.events.None? then Broken(BrokenEnvelope)
    else if row.result.scope.None? then Broken(NoScopeSnapshot)
    else
      Reserved(Reservation(false, Some(Result(row.result.summary.value, EventsFrom(row.result.events.value))),
                           Some(ScopeFromPayload(row.result.scope.value))))
  }

  /** The table after `reserve`, and its answer. The length check precedes the conflict test, as in the database. */
  function Reserve(keys: map<string, KeyRow>, c: Claim): (map<string, KeyRow>, Reserving) {
    if |c.key| > MAX_STORED_KEY_LENGTH then (keys, Broken(KeyTooLong))
    else if c.key !in keys then (keys[c.key := Pending(c)], Reserved(Reservation(true, None, None)))
    else (keys, ReadReservation(keys[c.key], c))
  }

  function CompleteRow(keys: map<string, KeyRow>, c: Claim, result: Result, scope: ScopeIds): map<string, KeyRow> {
    if c.key in keys
    then keys[c.key := KeyRow(keys[c.key].command, Completed(c, result, scope).result)]
    else keys
  }

  /**
   Reserving a key that was completed for the same claim answers the original result and scope, and changes nothing.
   */
  lemma ReserveAfterComplete(keys: map<string, KeyRow>, c: Claim, result: Result, scope: ScopeIds)
    requires |c.key| <= MAX_STORED_KEY_LENGTH && c.key !in keys
    ensures var reserved := Reserve(keys, c).0;
            var kept := CompleteRow(reserved, c, result, scope);
            Reserve(kept, c) == (kept, Reserved(Reservation(false, Some(result), Some(scope))))
  {
    EventsReadBack(result.events);
  }

  lemma CompletedAnswers(c: Claim, result: Result, scope: ScopeIds)
    ensures ReadReservation(Completed(c, result, scope), c) == Reserved(Reservation(false, Some(result), Some(scope)))
  {
    EventsReadBack(result.events);
  }
}
