/** Replaying: a committed key answers its original result, and a batch lands exactly once under interference. */
module Replay {
  import opened Common
  import opened Keys
  import opened Plans
  import opened Idempotency
  import opened Transactions
  import opened Executor
  import opened KeyTable

  /** What a run answers when its key already holds this result of the same claim. */
  function Replayed(call: Call, weather: Weather, result: Result, scope: ScopeIds): Outcome {
    if !call.command.admits(call.actor, call.input) then Denied
    else if call.command.sessionEffect && call.key.Some? then Rejected(SessionEffectWithKey)
    else if weather.budget == Some(0) then Faulted(DatabaseFailed)
    else if !call.command.admitsReplay(call.actor, scope) then Denied
    else Done(result)
  }

  lemma RowAnswers(schema: Schema, db: Db, call: Call, weather: Weather, result: Result, scope: ScopeIds)
    requires Keyed(call) && |call.key.value| <= MAX_STORED_KEY_LENGTH
    requires call.key.value in db.keys && db.keys[call.key.value] == Completed(ClaimOf(call), result, scope)
    ensures Attempt(schema, db, call, weather) == (db, Replayed(call, weather, result, scope))
  {
    CompletedAnswers(ClaimOf(call), result, scope);
  }

  /** A commit under a key leaves its completed row. */
  lemma CommitLeavesRow(schema: Schema, db: Db, call: Call, weather: Weather) returns (work: Work)
    requires CarefulCall(call) && Keyed(call) && CommitsKey(schema, db, call, weather, call.key.value)
    ensures var keys := Attempt(schema, db, call, weather).0.keys;
            && call.key.value in keys
            && keys[call.key.value] == WorkRow(call, work)
            && call.command.load(ReservedDb(db, call), call.input) == Some(work.loaded)
            && HoldsResult(keys, call.key.value)
            && Transact(schema, Tx(db, weather.budget), call).result == ResultOf(work.plan)
            && |call.key.value| <= MAX_STORED_KEY_LENGTH
  {
    work := CommitKeys(schema, db, weather.budget, call);
    var _, _ := CommitIs(schema, db, weather.budget, call);
    CompletedIsNew(ClaimOf(call), ResultOf(work.plan), work.loaded.scope);
    assert call.key.value in KeysAfter(db.keys, call, work);
  }

  /**
   However much happens in between, repeating a committed request answers the original result -
   unless the caller may no longer see the scope it was loaded with or the database fails - and
   changes nothing.
   */
  lemma ReplayReturnsOriginal(schema: Schema, db: Db, call: Call, weather: Weather, h: History, again: Call,
                              later: Weather)
    returns (scope: ScopeIds)
    requires Sound(db.keys) && CarefulCall(call) && CarefulHistory(h)
    requires Keyed(call) && CommitsKey(schema, db, call, weather, call.key.value)
    requires Keyed(again) && ClaimOf(again) == ClaimOf(call)
    ensures var original := Transact(schema, Tx(db, weather.budget), call).result;
            var now := After(schema, Attempt(schema, db, call, weather).0, h);
            Attempt(schema, now, again, later) == (now, Replayed(again, later, original, scope))
    ensures var loaded := call.command.load(ReservedDb(db, call), call.input);
            loaded.Some? && scope == loaded.value.scope
  {
    var work := CommitLeavesRow(schema, db, call, weather);
    scope := work.loaded.scope;
    AttemptKeepsTable(schema, db, call, weather);
    KeyCommitsOnce(schema, Attempt(schema, db, call, weather).0, h, call.key.value);
    RowAnswers(schema, After(schema, Attempt(schema, db, call, weather).0, h), again, later, ResultOf(work.plan),
               scope);
  }

  /** A result handed out by a run is its own commit's, or that of the row under its key. */
  lemma DoneComesFrom(schema: Schema, db: Db, call: Call, weather: Weather)
    requires Keyed(call) && Attempt(schema, db, call, weather).1.Done?
    ensures var k := call.key.value;
            || (CommitsKey(schema, db, call, weather, k)
                && Attempt(schema, db, call, weather).1.result == Transact(schema, Tx(db, weather.budget), call).result)
            || (k in db.keys && |k| <= MAX_STORED_KEY_LENGTH && Matches(db.keys[k], ClaimOf(call)))
  {
  }

  function StateAt(schema: Schema, db: Db, h: History, i: nat): Db
    requires i <= |h|
  {
    After(schema, db, h[..i])
  }

  lemma StateAtStep(schema: Schema, db: Db, h: History, i: nat)
    requires 0 < i <= |h|
    ensures StateAt(schema, db, h, i) == StateAt(schema, Attempt(schema, db, h[0].0, h[0].1).0, h[1..], i - 1)
  {
    assert h[..i][1..] == h[1..][..i - 1];
  }

  /** A result returned under a new key was committed by an equal request, once, at or before that point. */
  lemma {:induction false} ResultWasCommitted(schema: Schema, db: Db, h: History, p: nat) returns (q: nat)
    requires Sound(db.keys) && CarefulHistory(h) && p < |h| && Keyed(h[p].0)
    requires !HoldsResult(db.keys, h[p].0.key.value)
    requires Attempt(schema, StateAt(schema, db, h, p), h[p].0, h[p].1).1.Done?
    ensures q <= p && Keyed(h[q].0) && ClaimOf(h[q].0) == ClaimOf(h[p].0)
    ensures CommitsKey(schema, StateAt(schema, db, h, q), h[q].0, h[q].1, h[p].0.key.value)
    ensures Transact(schema, Tx(StateAt(schema, db, h, q), h[q].1.budget), h[q].0).result
         == Attempt(schema, StateAt(schema, db, h, p), h[p].0, h[p].1).1.result
    decreases p
  {
    var (call, weather) := h[0];
    var k := h[p].0.key.value;
    assert h[..0] == [];
    if p == 0 {
      q := 0;
      DoneComesFrom(schema, db, call, weather);
    } else {
      StateAtStep(schema, db, h, p);
      AttemptKeepsTable(schema, db, call, weather);
      if CommitsKey(schema, db, call, weather, k) {
        q := 0;
        CommittedAnswersOnly(schema, db, h, p);
      } else {
        assert forall i | 0 <= i < |h[1..]| :: h[1..][i] == h[i + 1];
        var q' := ResultWasCommitted(schema, Attempt(schema, db, call, weather).0, h[1..], p - 1);
        q := q' + 1;
        StateAtStep(schema, db, h, q);
      }
    }
  }

  lemma CommittedAnswersOnly(schema: Schema, db: Db, h: History, p: nat)
    requires Sound(db.keys) && CarefulHistory(h) && 0 < p < |h| && Keyed(h[p].0)
    requires Attempt(schema, StateAt(schema, db, h, p), h[p].0, h[p].1).1.Done?
    requires CommitsKey(schema, db, h[0].0, h[0].1, h[p].0.key.value)
    ensures ClaimOf(h[0].0) == ClaimOf(h[p].0)
    ensures Transact(schema, Tx(db, h[0].1.budget), h[0].0).result
        == Attempt(schema, StateAt(schema, db, h, p), h[p].0, h[p].1).1.result
  {
    var (call, weather) := h[0];
    var after := Attempt(schema, db, call, weather).0;
    var now := StateAt(schema, db, h, p);
    var k := call.key.value;
    var work := CommitLeavesRow(schema, db, call, weather);
    StateAtStep(schema, db, h, p);
    AttemptKeepsTable(schema, db, call, weather);
    var between := h[1..][..p - 1];
    assert forall i | 0 <= i < |between| :: between[i] == h[i + 1];
    KeyCommitsOnce(schema, after, between, k);
    assert now.keys[k] == WorkRow(call, work);
    DoneComesFrom(schema, now, h[p].0, h[p].1);
    AttemptKeepsRow(schema, now, h[p].0, h[p].1, work, call);
  }

  lemma AttemptKeepsRow(schema: Schema, db: Db, call: Call, weather: Weather, work: Work, owner: Call)
    requires Keyed(call) && Keyed(owner) && call.key == owner.key && |call.key.value| <= MAX_STORED_KEY_LENGTH
    requires call.key.value in db.keys && db.keys[call.key.value] == WorkRow(owner, work)
    requires Attempt(schema, db, call, weather).1.Done?
    ensures ClaimOf(call) == ClaimOf(owner) && Attempt(schema, db, call, weather).1.result == ResultOf(work.plan)
  {
    var _, _ := CommitIs(schema, db, weather.budget, call);
    DoneComesFrom(schema, db, call, weather);
    RowAnswers(schema, db, call, weather, ResultOf(work.plan), work.loaded.scope);
  }

  // ---------------------------------------------------------------- a batch under interference

  /** This run commits chunk k of the batch, and writes the batch's audit row exactly if it is the first chunk. */
  ghost predicate LandsAt(schema: Schema, db: Db, h: History, b: Batch, k: nat, q: nat)
    requires 1 <= k <= Chunks(b)
  {
    && q < |h|
    && h[q].0 == ChunkCall(b, k)
    && var before := StateAt(schema, db, h, q);
    && CommitsKey(schema, before, h[q].0, h[q].1, StoredKey(b.batchKey, k))
    && Attempt(schema, before, h[q].0, h[q].1).0.audits == before.audits + BatchAuditRows(b, k)
  }

  function BatchAuditRows(b: Batch, k: nat): seq<AuditRow> {
    if k == 1 then [AuditRow(b.actor.user, b.command.name, BatchAudit(b))] else []
  }

  /** Chunk k came back with a result at this point of the history. */
  ghost predicate ReturnsAt(schema: Schema, db: Db, h: History, b: Batch, k: nat, p: nat)
    requires 1 <= k <= Chunks(b)
  {
    && p < |h|
    && h[p].0 == ChunkCall(b, k)
    && Attempt(schema, StateAt(schema, db, h, p), h[p].0, h[p].1).1.Done?
  }

  /**
   Whatever else runs in between, and however often the batch was interrupted, once every chunk
   has come back each was committed exactly once, by a request with the same claim, and what came back
   is what that commit produced; committed by the batch itself, the first wrote the batch's one audit row.
   */
  lemma BulkExactlyOnce(schema: Schema, db: Db, h: History, b: Batch, k: nat, p: nat) returns (q: nat)
    requires Sound(db.keys) && CarefulHistory(h)
    requires b.command.bulk && !b.dryRun && 1 <= k <= Chunks(b) && !HoldsResult(db.keys, StoredKey(b.batchKey, k))
    requires ReturnsAt(schema, db, h, b, k, p)
    ensures Commits(schema, db, h, StoredKey(b.batchKey, k)) == 1
    ensures q <= p && Keyed(h[q].0) && ClaimOf(h[q].0) == ClaimOf(ChunkCall(b, k))
    ensures CommitsKey(schema, StateAt(schema, db, h, q), h[q].0, h[q].1, StoredKey(b.batchKey, k))
    ensures h[q].0 == ChunkCall(b, k) ==> LandsAt(schema, db, h, b, k, q)
    ensures Transact(schema, Tx(StateAt(schema, db, h, q), h[q].1.budget), h[q].0).result
         == Attempt(schema, StateAt(schema, db, h, p), h[p].0, h[p].1).1.result
  {
    q := ResultWasCommitted(schema, db, h, p);
    var key := StoredKey(b.batchKey, k);
    var before := StateAt(schema, db, h, q);
    var work := CommitAppends(schema, before, h[q].1.budget, h[q].0);
    CommitCounts(schema, db, h, q, key);
    KeyCommitsOnce(schema, db, h, key);
  }

  lemma {:induction false} CommitCounts(schema: Schema, db: Db, h: History, q: nat, k: string)
    requires q < |h| && CommitsKey(schema, StateAt(schema, db, h, q), h[q].0, h[q].1, k)
    ensures Commits(schema, db, h, k) >= 1
    decreases q
  {
    if q == 0 {
      assert h[..0] == [];
    } else {
      StateAtStep(schema, db, h, q);
      CommitCounts(schema, Attempt(schema, db, h[0].0, h[0].1).0, h[1..], q - 1, k);
    }
  }
}
