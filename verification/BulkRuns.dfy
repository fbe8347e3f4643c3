/**
 A batch with nothing else running: any number of interrupted tries and then a completing one
 end where a single uninterrupted try ends, with the same answer.
 */
module BulkRuns {
  import opened Common
  import opened Keys
  import opened Plans
  import opened Idempotency
  import opened Transactions
  import opened Executor
  import opened KeyTable
  import opened Replay

  // ---------------------------------------------------------------- interruptions only cut runs short

  function Unlimited(tx: Tx): Tx {
    Tx(tx.db, None)
  }

  lemma {:induction false} OpsUnlimited(schema: Schema, tx: Tx, ops: seq<StateOp>)
    ensures ApplyOps(schema, tx, ops).Ok? ==>
              ApplyOps(schema, Unlimited(tx), ops) == Ok(Unlimited(ApplyOps(schema, tx, ops).value))
    decreases |ops|
  {
    if ops != [] && ApplyOps(schema, tx, ops).Ok? {
      var db := ApplyOp(schema, tx.db, ops[0]).value;
      OpsUnlimited(schema, Spend(tx.(db := db)).value, ops[1..]);
    }
  }

  lemma {:induction false} EventsUnlimited(tx: Tx, events: seq<Event>, actor: Actor)
    ensures AppendEvents(tx, events, actor).Ok? ==>
              AppendEvents(Unlimited(tx), events, actor) == Ok(Unlimited(AppendEvents(tx, events, actor).value))
    decreases |events|
  {
    if events != [] && AppendEvents(tx, events, actor).Ok? {
      var db := tx.db.(events := tx.db.events + [EventRow(events[0], actor.user)]);
      EventsUnlimited(Spend(tx.(db := db)).value, events[1..], actor);
    }
  }

  lemma {:induction false} JobsUnlimited(tx: Tx, jobs: seq<Job>)
    ensures DeferJobs(tx, jobs).Ok? ==> DeferJobs(Unlimited(tx), jobs) == Ok(Unlimited(DeferJobs(tx, jobs).value))
    decreases |jobs|
  {
    if jobs != [] && DeferJobs(tx, jobs).Ok? {
      var db := tx.db.(jobs := tx.db.jobs + [jobs[0]]);
      JobsUnlimited(Spend(tx.(db := db)).value, jobs[1..]);
    }
  }

  lemma FinishUnlimited(schema: Schema, tx: Tx, call: Call, plan: Plan, scope: ScopeIds, owned: bool)
    ensures Finish(schema, tx, call, plan, scope, owned).Ok? ==>
              Finish(schema, Unlimited(tx), call, plan, scope, owned)
              == Ok(Unlimited(Finish(schema, tx, call, plan, scope, owned).value))
  {
    if Finish(schema, tx, call, plan, scope, owned).Ok? {
      OpsUnlimited(schema, tx, plan.ops);
      var t1 := ApplyOps(schema, tx, plan.ops).value;
      EventsUnlimited(t1, plan.events, call.actor);
      var t2 := AppendEvents(t1, plan.events, call.actor).value;
      var t3 := WriteAudit(t2, call.actor, call.command.name, AuditOf(call, plan)).value;
      JobsUnlimited(t3, plan.jobs);
    }
  }

  /** A run that commits at all commits what an undisturbed run would have. */
  lemma CommitIsUndisturbed(schema: Schema, db: Db, budget: Option<nat>, call: Call)
    ensures Transact(schema, Tx(db, budget), call).Committed? ==>
              Transact(schema, Tx(db, None), call) == Transact(schema, Tx(db, budget), call)
  {
    var work, tx := CommitIs(schema, db, budget, call);
    FinishUnlimited(schema, tx, call, work.plan, work.loaded.scope, Keyed(call));
  }

  // ---------------------------------------------------------------- the chunks of one batch

  /** The database after the first j chunks of an undisturbed batch. */
  function Landed(schema: Schema, db: Db, b: Batch, j: nat): Db
    requires j <= Chunks(b)
  {
    if j == 0 then db else Attempt(schema, Landed(schema, db, b, j - 1), ChunkCall(b, j), FAIR).0
  }

  /** Chunk k would be committed in its turn. */
  ghost predicate Lands(schema: Schema, db: Db, b: Batch, k: nat)
    requires 1 <= k <= Chunks(b)
  {
    && b.command.validInput(ChunkInput(b, k))
    && CommitsKey(schema, Landed(schema, db, b, k - 1), ChunkCall(b, k), FAIR, StoredKey(b.batchKey, k))
  }

  ghost predicate FirstLand(schema: Schema, db: Db, b: Batch, j: nat)
    requires j <= Chunks(b)
  {
    forall k | 1 <= k <= j :: Lands(schema, db, b, k)
  }

  function ResultAt(schema: Schema, db: Db, b: Batch, k: nat): Result
    requires 1 <= k <= Chunks(b)
  {
    match Transact(schema, Tx(Landed(schema, db, b, k - 1), None), ChunkCall(b, k))
    case Committed(_, r) => r
    case RolledBack(_) => Result(Summary(None, map[]), [])
  }

  function RowsIn(r: Result): seq<Row> {
    if r.summary.rows.Some? then r.summary.rows.value else []
  }

  /** The rows and events chunks k, k + 1, ... committed, in order. */
  function RowsFrom(schema: Schema, db: Db, b: Batch, k: nat): seq<Row>
    requires 1 <= k <= Chunks(b) + 1
    decreases Chunks(b) + 1 - k
  {
    if k > Chunks(b) then [] else RowsIn(ResultAt(schema, db, b, k)) + RowsFrom(schema, db, b, k + 1)
  }

  function EventsFrom(schema: Schema, db: Db, b: Batch, k: nat): seq<Event>
    requires 1 <= k <= Chunks(b) + 1
    decreases Chunks(b) + 1 - k
  {
    if k > Chunks(b) then [] else ResultAt(schema, db, b, k).events + EventsFrom(schema, db, b, k + 1)
  }

  /** A batch to run from here: bulk, for real, careful, under keys that hold no result yet. */
  ghost predicate Unstarted(db: Db, b: Batch) {
    && Sound(db.keys)
    && b.command.bulk && !b.dryRun
    && forall k | 1 <= k <= Chunks(b) :: CarefulCall(ChunkCall(b, k)) && !HoldsResult(db.keys, StoredKey(b.batchKey, k))
  }

  /** A landed chunk's key holds exactly what that chunk returned. */
  ghost predicate HoldsChunk(keys: map<string, KeyRow>, schema: Schema, db: Db, b: Batch, k: nat)
    requires 1 <= k <= Chunks(b) && !b.dryRun
  {
    var key := StoredKey(b.batchKey, k);
    && |key| <= MAX_STORED_KEY_LENGTH
    && HoldsResult(keys, key)
    && exists scope :: keys[key] == Completed(ClaimOf(ChunkCall(b, k)), ResultAt(schema, db, b, k), scope)
  }

  /** Committing chunk j adds its row and touches no other chunk's. */
  lemma LandingAddsRow(schema: Schema, db: Db, b: Batch, j: nat)
    requires Unstarted(db, b) && 1 <= j <= Chunks(b) && Lands(schema, db, b, j)
             && Sound(Landed(schema, db, b, j - 1).keys)
    ensures var before, after := Landed(schema, db, b, j - 1).keys, Landed(schema, db, b, j).keys;
            && Sound(after)
            && HoldsChunk(after, schema, db, b, j)
            && Retained(before, after)
            && forall k | 1 <= k <= Chunks(b) && k != j ::
                 HoldsResult(after, StoredKey(b.batchKey, k)) == HoldsResult(before, StoredKey(b.batchKey, k))
  {
    var before := Landed(schema, db, b, j - 1);
    var call := ChunkCall(b, j);
    AttemptKeepsTable(schema, before, call, FAIR);
    var work := CommitLeavesRow(schema, before, call, FAIR);
    assert Landed(schema, db, b, j).keys[StoredKey(b.batchKey, j)]
        == Completed(ClaimOf(call), ResultAt(schema, db, b, j), work.loaded.scope);
    forall k | 1 <= k <= Chunks(b) && k != j
      ensures HoldsResult(Landed(schema, db, b, j).keys, StoredKey(b.batchKey, k))
          == HoldsResult(before.keys, StoredKey(b.batchKey, k))
    {
      StoredKeyIsInjective(b.batchKey, k, b.batchKey, j);
    }
  }

  /** The first j chunks hold their results, the others none. */
  ghost predicate HoldsFirst(keys: map<string, KeyRow>, schema: Schema, db: Db, b: Batch, j: nat)
    requires j <= Chunks(b) && !b.dryRun
  {
    && Sound(keys)
    && (forall k | 1 <= k <= j :: HoldsChunk(keys, schema, db, b, k))
    && forall k | j < k <= Chunks(b) :: !HoldsResult(keys, StoredKey(b.batchKey, k))
  }

  lemma HeldChunksStay(before: map<string, KeyRow>, after: map<string, KeyRow>, schema: Schema, db: Db, b: Batch,
                       j: nat)
    requires !b.dryRun && 1 <= j <= Chunks(b) && HoldsFirst(before, schema, db, b, j - 1)
    requires Sound(after) && Retained(before, after) && HoldsChunk(after, schema, db, b, j)
    requires forall k | 1 <= k <= Chunks(b) && k != j ::
               HoldsResult(after, StoredKey(b.batchKey, k)) == HoldsResult(before, StoredKey(b.batchKey, k))
    ensures HoldsFirst(after, schema, db, b, j)
  {
    forall k | 1 <= k < j ensures HoldsChunk(after, schema, db, b, k) {
      assert HoldsChunk(before, schema, db, b, k);
    }
  }

  lemma {:induction false} LandedKeys(schema: Schema, db: Db, b: Batch, j: nat)
    requires Unstarted(db, b) && j <= Chunks(b) && FirstLand(schema, db, b, j)
    ensures HoldsFirst(Landed(schema, db, b, j).keys, schema, db, b, j)
  {
    if j > 0 {
      LandedKeys(schema, db, b, j - 1);
      assert Lands(schema, db, b, j);
      LandingAddsRow(schema, db, b, j);
      HeldChunksStay(Landed(schema, db, b, j - 1).keys, Landed(schema, db, b, j).keys, schema, db, b, j);
    }
  }

  /** What a try at chunk k comes to: how many chunks have landed now, and the only result it can return. */
  ghost predicate Tried(schema: Schema, db: Db, b: Batch, j: nat, k: nat, tried: (Db, Outcome))
    requires 1 <= k <= Chunks(b)
  {
    && j <= Chunks(b)
    && FirstLand(schema, db, b, j)
    && tried.0 == Landed(schema, db, b, j)
    && !tried.1.Previewed?
    && (tried.1.Done? ==> k <= j && tried.1.result == ResultAt(schema, db, b, k))
  }

  /** A try at a chunk that has landed answers its result or stops the batch; it writes nothing. */
  lemma TryLandedChunk(schema: Schema, db: Db, b: Batch, j: nat, k: nat, weather: Weather)
    requires Unstarted(db, b) && j <= Chunks(b) && FirstLand(schema, db, b, j) && 1 <= k <= j
    ensures Tried(schema, db, b, j, k, Attempt(schema, Landed(schema, db, b, j), ChunkCall(b, k), weather))
  {
    LandedKeys(schema, db, b, j);
    var now, call := Landed(schema, db, b, j), ChunkCall(b, k);
    assert HoldsChunk(now.keys, schema, db, b, k);
    var scope :| now.keys[StoredKey(b.batchKey, k)] == Completed(ClaimOf(call), ResultAt(schema, db, b, k), scope);
    RowAnswers(schema, now, call, weather, ResultAt(schema, db, b, k), scope);
  }

  /** Under a key that holds no result, a run writes and returns only what an undisturbed run would. */
  lemma NewKeyRun(schema: Schema, db: Db, call: Call, weather: Weather)
    requires Keyed(call) && !HoldsResult(db.keys, call.key.value)
    ensures var (db', o) := Attempt(schema, db, call, weather);
            && !o.Previewed?
            && (db' != db || o.Done? ==>
                  && CommitsKey(schema, db, call, FAIR, call.key.value)
                  && db' == Attempt(schema, db, call, FAIR).0
                  && (o.Done? ==> o.result == Transact(schema, Tx(db, None), call).result))
  {
    AllOrNothing(schema, db, call, weather);
    CommitIsUndisturbed(schema, db, weather.budget, call);
    if Attempt(schema, db, call, weather).1.Done? {
      DoneComesFrom(schema, db, call, weather);
    }
  }

  lemma NextHasLanded(schema: Schema, db: Db, b: Batch, j: nat, tried: (Db, Outcome))
    requires j < Chunks(b) && FirstLand(schema, db, b, j) && Lands(schema, db, b, j + 1)
    requires tried.0 == Landed(schema, db, b, j + 1) && !tried.1.Previewed?
    requires tried.1.Done? ==> tried.1.result == ResultAt(schema, db, b, j + 1)
    ensures Tried(schema, db, b, j + 1, j + 1, tried)
  {
  }

  /** A try at the next chunk either commits what an undisturbed run would, or writes nothing and returns no result. */
  lemma TryNextChunk(schema: Schema, db: Db, b: Batch, j: nat, weather: Weather) returns (j': nat)
    requires Unstarted(db, b) && j < Chunks(b) && FirstLand(schema, db, b, j)
             && b.command.validInput(ChunkInput(b, j + 1))
    ensures j <= j' <= j + 1
    ensures Tried(schema, db, b, j', j + 1, Attempt(schema, Landed(schema, db, b, j), ChunkCall(b, j + 1), weather))
  {
    LandedKeys(schema, db, b, j);
    var now, call := Landed(schema, db, b, j), ChunkCall(b, j + 1);
    NewKeyRun(schema, now, call, weather);
    var tried := Attempt(schema, now, call, weather);
    j' := j;
    if tried.0 != now || tried.1.Done? {
      assert Lands(schema, db, b, j + 1);
      NextHasLanded(schema, db, b, j, tried);
      j' := j + 1;
    }
  }

  /** One more try at chunk k when the first j have landed. */
  lemma TryChunk(schema: Schema, db: Db, b: Batch, j: nat, k: nat, weather: Weather) returns (j': nat)
    requires Unstarted(db, b) && j <= Chunks(b) && FirstLand(schema, db, b, j) && 1 <= k <= j + 1 && k <= Chunks(b)
    requires b.command.validInput(ChunkInput(b, k))
    ensures j <= j'
    ensures Tried(schema, db, b, j', k, Attempt(schema, Landed(schema, db, b, j), ChunkCall(b, k), weather))
  {
    if k <= j {
      j' := j;
      TryLandedChunk(schema, db, b, j, k, weather);
    } else {
      j' := TryNextChunk(schema, db, b, j, weather);
    }
  }

  lemma LandedHasRows(schema: Schema, db: Db, b: Batch, k: nat)
    requires b.command.bulk && 1 <= k <= Chunks(b) && Lands(schema, db, b, k)
    ensures ResultAt(schema, db, b, k).summary.rows.Some?
  {
    var _, _ := CommitIs(schema, Landed(schema, db, b, k - 1), None, ChunkCall(b, k));
  }

  /** A try from chunk k on leaves a prefix of the chunks landed, and all of them if it completes. */
  ghost predicate LeavesPrefix(schema: Schema, db: Db, b: Batch, j: nat, k: nat, p: Progress, tried: (Db, BulkOutcome))
    requires 1 <= k <= Chunks(b) + 1
  {
    && j <= Chunks(b)
    && FirstLand(schema, db, b, j)
    && tried.0 == Landed(schema, db, b, j)
    && (tried.1.BulkDone? ==> && j == Chunks(b)
                              && tried.1.rows == p.rows + RowsFrom(schema, db, b, k)
                              && tried.1.events == p.events + EventsFrom(schema, db, b, k))
  }

  lemma {:induction false} TryFrom(schema: Schema, db: Db, b: Batch, j: nat, k: nat, p: Progress) returns (j': nat)
    requires Unstarted(db, b) && j <= Chunks(b) && FirstLand(schema, db, b, j) && 1 <= k <= j + 1
    ensures LeavesPrefix(schema, db, b, j', k, p, RunChunks(schema, Landed(schema, db, b, j), b, k, p))
    decreases Chunks(b) + 1 - k, 1
  {
    j' := j;
    if k <= Chunks(b) && b.command.validInput(ChunkInput(b, k)) {
      j' := TryChunk(schema, db, b, j, k, p.weather(k));
      var tried := Attempt(schema, Landed(schema, db, b, j), ChunkCall(b, k), p.weather(k));
      j' := ContinueFrom(schema, db, b, j', k, p, tried);
    }
  }

  lemma {:induction false} ContinueFrom(schema: Schema, db: Db, b: Batch, j: nat, k: nat, p: Progress,
                                        tried: (Db, Outcome))
    returns (j': nat)
    requires Unstarted(db, b) && 1 <= k <= Chunks(b) && Tried(schema, db, b, j, k, tried)
    ensures LeavesPrefix(schema, db, b, j', k, p, Continue(schema, tried, b, k, p))
    decreases Chunks(b) + 1 - k, 0
  {
    j' := j;
    if Ends(k, tried.1).None? {
      var r := tried.1.result;
      j' := TryFrom(schema, db, b, j, k + 1, With(p, r));
      Regroup(p.rows, RowsIn(r), RowsFrom(schema, db, b, k + 1));
      Regroup(p.events, r.events, EventsFrom(schema, db, b, k + 1));
    }
  }

  lemma Regroup<T>(a: seq<T>, b: seq<T>, c: seq<T>)
    ensures (a + b) + c == a + (b + c)
  {
  }

  // ---------------------------------------------------------------- tries in a row

  function AfterTries(schema: Schema, db: Db, b: Batch, tries: seq<nat -> Weather>): Db
    decreases |tries|
  {
    if tries == [] then db else Bulk(schema, AfterTries(schema, db, b, tries[..|tries| - 1]), b, tries[|tries| - 1]).0
  }

  /** Every sequence of tries, however interrupted, leaves exactly some number of leading chunks done. */
  lemma {:induction false} TriesLeavePrefix(schema: Schema, db: Db, b: Batch, tries: seq<nat -> Weather>)
    returns (j: nat)
    requires Unstarted(db, b)
    ensures j <= Chunks(b) && FirstLand(schema, db, b, j)
    ensures AfterTries(schema, db, b, tries) == Landed(schema, db, b, j)
    decreases |tries|
  {
    if tries == [] {
      j := 0;
    } else {
      j := TriesLeavePrefix(schema, db, b, tries[..|tries| - 1]);
      if BatchAdmissible(b) { j := TryFrom(schema, db, b, j, 1, Progress([], [], tries[|tries| - 1])); }
    }
  }

  predicate BatchAdmissible(b: Batch) {
    "rows" !in b.fields && "batch_key" !in b.fields && b.command.validInput(BatchInput(b))
  }

  lemma FairLanding(schema: Schema, db: Db, b: Batch, k: nat)
    requires b.command.bulk && 1 <= k <= Chunks(b) && Lands(schema, db, b, k)
    ensures Attempt(schema, Landed(schema, db, b, k - 1), ChunkCall(b, k), FAIR)
         == (Landed(schema, db, b, k), Done(ResultAt(schema, db, b, k)))
  {
  }

  lemma FairStep(schema: Schema, db: Db, b: Batch, k: nat, p: Progress)
    requires b.command.bulk && !b.dryRun && 1 <= k <= Chunks(b) && Lands(schema, db, b, k) && p.weather == FairWeather
    ensures ResultAt(schema, db, b, k).summary.rows.Some?
    ensures RunChunks(schema, Landed(schema, db, b, k - 1), b, k, p)
         == RunChunks(schema, Landed(schema, db, b, k), b, k + 1, With(p, ResultAt(schema, db, b, k)))
  {
    LandedHasRows(schema, db, b, k);
    FairLanding(schema, db, b, k);
    assert p.weather(k) == FAIR;
    assert RunChunks(schema, Landed(schema, db, b, k - 1), b, k, p)
        == Continue(schema, (Landed(schema, db, b, k), Done(ResultAt(schema, db, b, k))), b, k, p);
  }

  lemma {:induction false} UndisturbedFrom(schema: Schema, db: Db, b: Batch, k: nat, p: Progress)
    requires b.command.bulk && !b.dryRun && 1 <= k <= Chunks(b) + 1 && FirstLand(schema, db, b, Chunks(b))
             && p.weather == FairWeather
    ensures RunChunks(schema, Landed(schema, db, b, k - 1), b, k, p)
         == (Landed(schema, db, b, Chunks(b)),
             BulkDone(p.rows + RowsFrom(schema, db, b, k), p.events + EventsFrom(schema, db, b, k)))
    decreases Chunks(b) + 1 - k
  {
    if k > Chunks(b) {
      assert p.rows + [] == p.rows && p.events + [] == p.events;
    } else {
      assert Lands(schema, db, b, k);
      FairStep(schema, db, b, k, p);
      var r := ResultAt(schema, db, b, k);
      UndisturbedFrom(schema, db, b, k + 1, With(p, r));
      Regroup(p.rows, RowsIn(r), RowsFrom(schema, db, b, k + 1));
      Regroup(p.events, r.events, EventsFrom(schema, db, b, k + 1));
    }
  }

  lemma {:induction false} LandedAudits(schema: Schema, db: Db, b: Batch, j: nat)
    requires b.command.bulk && !b.dryRun && j <= Chunks(b) && FirstLand(schema, db, b, j)
    ensures Landed(schema, db, b, j).audits == db.audits + (if j == 0 then [] else BatchAuditRows(b, 1))
  {
    if j > 0 {
      LandedAudits(schema, db, b, j - 1);
      assert Lands(schema, db, b, j);
      var work := CommitAppends(schema, Landed(schema, db, b, j - 1), None, ChunkCall(b, j));
    }
  }

  /** A completing try ends where an undisturbed run from the start ends. */
  lemma CompletingTry(schema: Schema, db: Db, b: Batch, j: nat, last: nat -> Weather)
    requires Unstarted(db, b) && BatchAdmissible(b) && j <= Chunks(b) && FirstLand(schema, db, b, j)
    requires Bulk(schema, Landed(schema, db, b, j), b, last).1.BulkDone?
    ensures FirstLand(schema, db, b, Chunks(b))
    ensures Bulk(schema, Landed(schema, db, b, j), b, last)
         == (Landed(schema, db, b, Chunks(b)), BulkDone(RowsFrom(schema, db, b, 1), EventsFrom(schema, db, b, 1)))
  {
    var j' := TryFrom(schema, db, b, j, 1, Progress([], [], last));
    assert [] + RowsFrom(schema, db, b, 1) == RowsFrom(schema, db, b, 1);
    assert [] + EventsFrom(schema, db, b, 1) == EventsFrom(schema, db, b, 1);
  }

  lemma UndisturbedTry(schema: Schema, db: Db, b: Batch)
    requires Unstarted(db, b) && BatchAdmissible(b) && FirstLand(schema, db, b, Chunks(b))
    ensures Bulk(schema, db, b, FairWeather)
         == (Landed(schema, db, b, Chunks(b)), BulkDone(RowsFrom(schema, db, b, 1), EventsFrom(schema, db, b, 1)))
  {
    UndisturbedFrom(schema, db, b, 1, Progress([], [], FairWeather));
    assert [] + RowsFrom(schema, db, b, 1) == RowsFrom(schema, db, b, 1);
    assert [] + EventsFrom(schema, db, b, 1) == EventsFrom(schema, db, b, 1);
  }

  /**
   However many tries were cut short wherever, when one completes, the database and the answer
   are those of a single undisturbed run; the answer is what the chunks committed, in order,
   and the batch's audit row was written once.
   */
  lemma InterruptedTriesConverge(schema: Schema, db: Db, b: Batch, tries: seq<nat -> Weather>, last: nat -> Weather)
    requires Unstarted(db, b)
    requires Bulk(schema, AfterTries(schema, db, b, tries), b, last).1.BulkDone?
    ensures var (final, answer) := Bulk(schema, AfterTries(schema, db, b, tries), b, last);
            && Bulk(schema, db, b, FairWeather) == (final, answer)
            && answer == BulkDone(RowsFrom(schema, db, b, 1), EventsFrom(schema, db, b, 1))
            && final.audits == db.audits + BatchAuditRows(b, 1)
  {
    var j := TriesLeavePrefix(schema, db, b, tries);
    CompletingTry(schema, db, b, j, last);
    UndisturbedTry(schema, db, b);
    LandedAudits(schema, db, b, Chunks(b));
  }
}
