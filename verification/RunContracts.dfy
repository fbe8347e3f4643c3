/** What callers may conclude from an executor answer: previews, interrupted batches, impossible faults. */
module RunContracts {
  import opened Common
  import opened Keys
  import opened Plans
  import opened Idempotency
  import opened Transactions
  import opened Executor
  import opened KeyTable
  import opened Replay

  // ---------------------------------------------------------------- previews

  function DryCall(call: Call): Call {
    call.(dryRun := true)
  }

  /** Both runs load the same state: a real run under a key also sees its own reservation. */
  predicate LoadsAlike(db: Db, call: Call) {
    call.command.load(ReservedDb(db, call), call.input) == call.command.load(db, call.input)
  }

  /**
   From the same state a preview and an undisturbed real run reach the same verdict: a real result
   was previewed exactly, a refusal is the same refusal, and only applying the plan can still fail.
   */
  lemma PreviewParity(schema: Schema, db: Db, call: Call)
    requires !call.dryRun && LoadsAlike(db, call)
    requires Keyed(call) ==> call.key.value !in db.keys && |call.key.value| <= MAX_STORED_KEY_LENGTH
    ensures var preview := Attempt(schema, db, DryCall(call), FAIR);
            var actual := Attempt(schema, db, call, FAIR);
            && preview.0 == db
            && (actual.1.Done? ==> preview.1 == Previewed(actual.1.result))
            && (preview.1.Previewed? ==> actual.1 == Done(preview.1.result) || (actual.0 == db && actual.1.Faulted?))
            && (!preview.1.Previewed? ==> actual == preview)
  {
    AllOrNothing(schema, db, DryCall(call), FAIR);
  }

  // ---------------------------------------------------------------- who may act

  /** The state a run decides on, or is shown a preview of. */
  predicate AdmittedOn(db: Db, call: Call) {
    var loaded := call.command.load(db, call.input);
    loaded.Some? && call.command.checkScope(call.actor, loaded.value).InScope?
  }

  /** A result of this claim is stored, with a scope its caller may still see. */
  predicate AdmittedToReplay(db: Db, call: Call) {
    Keyed(call) && call.key.value in db.keys
    && var answer := ReadReservation(db.keys[call.key.value], ClaimOf(call));
    answer.Reserved? && answer.reservation.scope.Some?
    && call.command.admitsReplay(call.actor, answer.reservation.scope.value)
  }

  /**
   Nothing is written, shown or replayed unless the request and what it loaded - or the stored scope - were both
   admitted.
   */
  lemma OnlyTheAdmittedAct(schema: Schema, db: Db, call: Call, weather: Weather)
    ensures var (db', o) := Attempt(schema, db, call, weather);
            o.Done? || o.Previewed? || db' != db ==>
              && call.command.admits(call.actor, call.input)
              && !(call.command.sessionEffect && call.key.Some?)
              && (AdmittedOn(ReservedDb(db, call), call) || AdmittedToReplay(db, call))
  {
    var work, tx := CommitIs(schema, db, weather.budget, call);
  }

  // ---------------------------------------------------------------- impossible faults

  /** From a database without keys, no history of runs ever reaches an internal RuntimeError. */
  lemma InternalFaultsAreUnreachable(schema: Schema, db: Db, h: History, call: Call, weather: Weather)
    requires db.keys == map[] && CarefulHistory(h)
    ensures var o := Attempt(schema, After(schema, db, h), call, weather).1; o.Faulted? ==> !IsInternal(o.fault)
  {
    KeyCommitsOnce(schema, db, h, "");
    NoInternalFault(schema, After(schema, db, h), call, weather);
  }

  // ---------------------------------------------------------------- batches that stop early

  ghost predicate CarefulBatch(b: Batch) {
    && b.command.bulk && !b.dryRun
    && forall k | 1 <= k <= Chunks(b) :: CarefulCall(ChunkCall(b, k))
  }

  /** Where a batch stopped: every earlier chunk is in the database, and the answer says so. */
  ghost predicate StopsAt(b: Batch, k: nat, start: Db, tried: (Db, BulkOutcome), stopped: nat) {
    var (final, end) := tried;
    && 1 <= k <= stopped <= Chunks(b) + 1
    && Sound(final.keys)
    && Retained(start.keys, final.keys)
    && (forall i | k <= i < stopped :: HoldsResult(final.keys, StoredKey(b.batchKey, i)))
    && (end.BulkDone? <==> stopped == Chunks(b) + 1)
    && (end.Interrupted? ==> end.completed == UpTo(stopped - 1) && end.failed == stopped)
    && (end.BulkRejected? ==> stopped == 1)
    && (stopped == k && !end.Interrupted? && !end.BulkDone? ==> final == start)
    && ((forall i | k <= i < stopped :: HoldsResult(start.keys, StoredKey(b.batchKey, i))) && !end.Interrupted?
        ==> final == start)
  }

  lemma DoneHoldsResult(schema: Schema, db: Db, call: Call, weather: Weather)
    requires Sound(db.keys) && CarefulCall(call) && Keyed(call) && Attempt(schema, db, call, weather).1.Done?
    ensures HoldsResult(Attempt(schema, db, call, weather).0.keys, call.key.value)
  {
    DoneComesFrom(schema, db, call, weather);
    AttemptKeepsTable(schema, db, call, weather);
  }

  lemma RefusedChangesNothing(schema: Schema, db: Db, call: Call, weather: Weather)
    ensures var (db', o) := Attempt(schema, db, call, weather);
            (o.Rejected? || o.Denied? ==> db' == db) && (!call.dryRun ==> !o.Previewed?)
  {
    AllOrNothing(schema, db, call, weather);
  }

  /** What one chunk run leaves behind. */
  ghost predicate ChunkTried(b: Batch, k: nat, start: Db, tried: (Db, Outcome)) {
    && Sound(tried.0.keys)
    && Retained(start.keys, tried.0.keys)
    && !tried.1.Previewed?
    && (tried.1.Done? ==> HoldsResult(tried.0.keys, StoredKey(b.batchKey, k)))
    && (tried.1.Rejected? || tried.1.Denied? ==> tried.0 == start)
    && (tried.1.Done? && HoldsResult(start.keys, StoredKey(b.batchKey, k)) ==> tried.0 == start)
  }

  /** Repeating what a key already holds writes nothing. */
  lemma RepeatChangesNothing(schema: Schema, db: Db, call: Call, weather: Weather)
    requires Keyed(call) && call.key.value in db.keys
    ensures Attempt(schema, db, call, weather).0 == db
  {
    var work, tx := CommitIs(schema, db, weather.budget, call);
  }

  lemma ChunkTriedIs(schema: Schema, db: Db, b: Batch, k: nat, weather: Weather)
    requires Sound(db.keys) && CarefulBatch(b) && 1 <= k <= Chunks(b)
    ensures ChunkTried(b, k, db, Attempt(schema, db, ChunkCall(b, k), weather))
  {
    var call := ChunkCall(b, k);
    AttemptKeepsTable(schema, db, call, weather);
    RefusedChangesNothing(schema, db, call, weather);
    if HoldsResult(db.keys, StoredKey(b.batchKey, k)) { RepeatChangesNothing(schema, db, call, weather); }
    if Attempt(schema, db, call, weather).1.Done? { DoneHoldsResult(schema, db, call, weather); }
  }

  /** Where the batch was denied: the chunk it stopped at, tried on the database it left, is what is denied. */
  ghost predicate DeniedAt(schema: Schema, b: Batch, weather: nat -> Weather, tried: (Db, BulkOutcome), stopped: nat) {
    tried.1.BulkDenied? ==>
      && 1 <= stopped <= Chunks(b)
      && Attempt(schema, tried.0, ChunkCall(b, stopped), weather(stopped)) == (tried.0, Denied)
  }

  lemma {:induction false} StopFrom(schema: Schema, db: Db, b: Batch, k: nat, p: Progress) returns (stopped: nat)
    requires Sound(db.keys) && CarefulBatch(b) && 1 <= k <= Chunks(b) + 1
    ensures StopsAt(b, k, db, RunChunks(schema, db, b, k, p), stopped)
    ensures DeniedAt(schema, b, p.weather, RunChunks(schema, db, b, k, p), stopped)
    decreases Chunks(b) + 1 - k, 1
  {
    stopped := k;
    if k <= Chunks(b) && b.command.validInput(ChunkInput(b, k)) {
      ChunkTriedIs(schema, db, b, k, p.weather(k));
      stopped := StopAfter(schema, db, Attempt(schema, db, ChunkCall(b, k), p.weather(k)), b, k, p);
    }
  }

  lemma {:induction false} StopAfter(schema: Schema, start: Db, tried: (Db, Outcome), b: Batch, k: nat, p: Progress)
    returns (stopped: nat)
    requires CarefulBatch(b) && 1 <= k <= Chunks(b) && ChunkTried(b, k, start, tried)
    requires tried == Attempt(schema, start, ChunkCall(b, k), p.weather(k))
    ensures StopsAt(b, k, start, Continue(schema, tried, b, k, p), stopped)
    ensures DeniedAt(schema, b, p.weather, Continue(schema, tried, b, k, p), stopped)
    decreases Chunks(b) + 1 - k, 0
  {
    stopped := k;
    if Ends(k, tried.1).None? {
      stopped := StopFrom(schema, tried.0, b, k + 1, With(p, tried.1.result));
      StopsEarlier(b, k, start, tried.0, RunChunks(schema, tried.0, b, k + 1, With(p, tried.1.result)), stopped);
    }
  }

  lemma StopsEarlier(b: Batch, k: nat, start: Db, middle: Db, tried: (Db, BulkOutcome), stopped: nat)
    requires 1 <= k <= Chunks(b) && StopsAt(b, k + 1, middle, tried, stopped)
    requires Retained(start.keys, middle.keys) && HoldsResult(middle.keys, StoredKey(b.batchKey, k))
    requires HoldsResult(start.keys, StoredKey(b.batchKey, k)) ==> middle == start
    ensures StopsAt(b, k, start, tried, stopped)
  {
  }

  /**
   A batch that stopped at some chunk has every earlier chunk durably done, and says so exactly
   when it is interrupted; a plain rejection means nothing was written.
   */
  lemma StoppedBatch(schema: Schema, db: Db, b: Batch, weather: nat -> Weather) returns (stopped: nat)
    requires Sound(db.keys) && CarefulBatch(b)
    requires "rows" !in b.fields && "batch_key" !in b.fields && b.command.validInput(BatchInput(b))
    ensures StopsAt(b, 1, db, Bulk(schema, db, b, weather), stopped)
    ensures DeniedAt(schema, b, weather, Bulk(schema, db, b, weather), stopped)
    ensures Bulk(schema, db, b, weather).1.BulkRejected? ==> Bulk(schema, db, b, weather).0 == db
  {
    stopped := StopFrom(schema, db, b, 1, Progress([], [], weather));
  }

  // ---------------------------------------------------------------- denied batches

  /** Every chunk before this one had its result when the batch was tried. */
  predicate AllReplayed(db: Db, b: Batch, stopped: nat) {
    forall k | 1 <= k < stopped :: HoldsResult(db.keys, StoredKey(b.batchKey, k))
  }

  /**
   Under any authorizer: a batch denied at some chunk wrote nothing exactly if the database already held
   the result of every earlier chunk, so that this try committed none of them.
   */
  lemma DeniedWroteNothingIff(schema: Schema, db: Db, b: Batch, weather: nat -> Weather) returns (stopped: nat)
    requires Sound(db.keys) && CarefulBatch(b)
    requires "rows" !in b.fields && "batch_key" !in b.fields && b.command.validInput(BatchInput(b))
    requires Bulk(schema, db, b, weather).1.BulkDenied?
    ensures 1 <= stopped <= Chunks(b) && StopsAt(b, 1, db, Bulk(schema, db, b, weather), stopped)
    ensures var final := Bulk(schema, db, b, weather).0;
            Attempt(schema, final, ChunkCall(b, stopped), weather(stopped)) == (final, Denied)
    ensures Bulk(schema, db, b, weather).0 == db <==> AllReplayed(db, b, stopped)
  {
    stopped := StoppedBatch(schema, db, b, weather);
  }

  /** The scope stored with the result that chunk k's key already holds, if it answers this batch. */
  function StoredScope(db: Db, b: Batch, k: nat): Option<ScopeIds>
    requires 1 <= k <= Chunks(b)
  {
    var call := ChunkCall(b, k);
    if !Keyed(call) || call.key.value !in db.keys then None
    else
      var answer := ReadReservation(db.keys[call.key.value], ClaimOf(call));
      if answer.Reserved? then answer.reservation.scope else None
  }

  /** The scope check of chunk k on any state it may load comes out one way, and so does its replay check. */
  ghost predicate ChunkAnswers(db: Db, b: Batch, k: nat, permitted: bool)
    requires 1 <= k <= Chunks(b)
  {
    && (forall d: Db | b.command.load(d, ChunkInput(b, k)).Some? ::
          var verdict := b.command.checkScope(b.actor, b.command.load(d, ChunkInput(b, k)).value);
          (verdict.InScope? ==> permitted) && (verdict.OutOfScope? ==> !permitted))
    && (StoredScope(db, b, k).Some? ==> (b.command.admitsReplay(b.actor, StoredScope(db, b, k).value) <==> permitted))
  }

  /** The authorizer's answers do not vary across the chunks of the batch. */
  ghost predicate OneAnswer(db: Db, b: Batch, permitted: bool) {
    forall k | 1 <= k <= Chunks(b) ::
      && b.command.admits(b.actor, ChunkInput(b, k)) == b.command.admits(b.actor, ChunkInput(b, 1))
      && ChunkAnswers(db, b, k, permitted)
  }

  /** From chunk k on, the results held under the batch's keys are those it started from. */
  predicate NothingAhead(before: Db, now: Db, b: Batch, k: nat) {
    forall i | k <= i <= Chunks(b) && HoldsResult(now.keys, StoredKey(b.batchKey, i)) ::
      StoredKey(b.batchKey, i) in before.keys
      && before.keys[StoredKey(b.batchKey, i)] == now.keys[StoredKey(b.batchKey, i)]
  }

  lemma ChunkPasses(schema: Schema, before: Db, now: Db, b: Batch, k: nat, weather: Weather)
    requires CarefulBatch(b) && 1 <= k <= Chunks(b)
    requires NothingAhead(before, now, b, k) && ChunkAnswers(before, b, k, true)
    requires b.command.admits(b.actor, ChunkInput(b, k))
    ensures Attempt(schema, now, ChunkCall(b, k), weather).1 != Denied
  {
    var call := ChunkCall(b, k);
    if call.key.value in now.keys && Matches(now.keys[call.key.value], ClaimOf(call)) {
      assert HoldsResult(now.keys, call.key.value);
      assert StoredScope(now, b, k) == StoredScope(before, b, k);
    }
  }

  lemma ChunkLeavesLater(schema: Schema, before: Db, now: Db, b: Batch, k: nat, weather: Weather)
    requires Sound(now.keys) && CarefulBatch(b) && 1 <= k <= Chunks(b) && NothingAhead(before, now, b, k)
    ensures NothingAhead(before, Attempt(schema, now, ChunkCall(b, k), weather).0, b, k + 1)
  {
    AttemptKeepsTable(schema, now, ChunkCall(b, k), weather);
    forall i | k < i <= Chunks(b) ensures StoredKey(b.batchKey, i) != StoredKey(b.batchKey, k) {
      StoredKeyIsInjective(b.batchKey, i, b.batchKey, k);
    }
  }

  lemma {:induction false} PermittedNeverDenied(schema: Schema, before: Db, now: Db, b: Batch, k: nat, p: Progress)
    requires Sound(now.keys) && CarefulBatch(b) && 1 <= k <= Chunks(b) + 1
    requires NothingAhead(before, now, b, k) && OneAnswer(before, b, true)
             && b.command.admits(b.actor, ChunkInput(b, 1))
    ensures !RunChunks(schema, now, b, k, p).1.BulkDenied?
    decreases Chunks(b) + 1 - k
  {
    if k <= Chunks(b) {
      ChunkPasses(schema, before, now, b, k, p.weather(k));
      ChunkTriedIs(schema, now, b, k, p.weather(k));
      ChunkLeavesLater(schema, before, now, b, k, p.weather(k));
      var tried := Attempt(schema, now, ChunkCall(b, k), p.weather(k));
      if Ends(k, tried.1).None? {
        PermittedNeverDenied(schema, before, tried.0, b, k + 1, With(p, tried.1.result));
      }
    }
  }

  /** A first chunk that came back was admitted, so the one answer is yes. */
  lemma FirstResultPermits(schema: Schema, db: Db, b: Batch, weather: Weather, permitted: bool)
    requires CarefulBatch(b) && OneAnswer(db, b, permitted) && Attempt(schema, db, ChunkCall(b, 1), weather).1.Done?
    ensures permitted && b.command.admits(b.actor, ChunkInput(b, 1))
  {
    var call := ChunkCall(b, 1);
    OnlyTheAdmittedAct(schema, db, call, weather);
    assert ChunkAnswers(db, b, 1, permitted);
    if AdmittedToReplay(db, call) { assert StoredScope(db, b, 1).Some?; }
  }

  /**
   The comment on the denial branch (executor.py:363-366) holds whenever the authorizer gives every
   chunk of a batch the same answer: a denied batch wrote nothing, whatever the database held and failed.
   */
  lemma OneAnswerDeniesCleanly(schema: Schema, db: Db, b: Batch, weather: nat -> Weather, permitted: bool)
    requires Sound(db.keys) && CarefulBatch(b) && OneAnswer(db, b, permitted)
    ensures Bulk(schema, db, b, weather).1.BulkDenied? ==> Bulk(schema, db, b, weather).0 == db
  {
    var p := Progress([], [], weather);
    if "rows" !in b.fields && "batch_key" !in b.fields && b.command.validInput(BatchInput(b))
       && b.command.validInput(ChunkInput(b, 1))
    {
      var tried := Attempt(schema, db, ChunkCall(b, 1), weather(1));
      ChunkTriedIs(schema, db, b, 1, weather(1));
      assert RunChunks(schema, db, b, 1, p) == Continue(schema, tried, b, 1, p);
      if Ends(1, tried.1).None? {
        FirstResultPermits(schema, db, b, weather(1), permitted);
        ChunkLeavesLater(schema, db, db, b, 1, weather(1));
        PermittedNeverDenied(schema, db, tried.0, b, 2, With(p, tried.1.result));
      }
    }
  }

  /**
   `Authorizer` (authz.py:35-114) for one command: a request is judged by its fields, a state by its archived
   flag and then its cycle and enrolment, a replay by those alone.
   */
  datatype Authority = Authority(guardsArchive: bool, allowsRequest: (Actor, Row) -> bool,
                                 allowsScope: (Actor, Option<Id>, Option<Id>) -> bool)
  {
    function Verdict(actor: Actor, loaded: Loaded): ScopeVerdict {
      if guardsArchive && loaded.archived.None? then ArchivalUnreported
      else if guardsArchive && loaded.archived.value then ArchivedCycle
      else if allowsScope(actor, loaded.scope.cycle, loaded.scope.enrollment) then InScope
      else OutOfScope
    }

    ghost predicate Governs(c: Command) {
      && (forall a, i :: c.admits(a, i) == allowsRequest(a, i.fields))
      && (forall a, l :: c.checkScope(a, l) == Verdict(a, l))
      && (forall a, s :: c.admitsReplay(a, s) == allowsScope(a, s.cycle, s.enrollment))
    }
  }

  /** Every chunk, loaded or stored, is about the one cycle and enrolment that the batch's fields name. */
  ghost predicate OneScope(db: Db, b: Batch, cycle: Option<Id>, enrollment: Option<Id>) {
    forall k | 1 <= k <= Chunks(b) ::
      && (forall d: Db | b.command.load(d, ChunkInput(b, k)).Some? ::
            var scope := b.command.load(d, ChunkInput(b, k)).value.scope;
            scope.cycle == cycle && scope.enrollment == enrollment)
      && (StoredScope(db, b, k).Some? ==>
            StoredScope(db, b, k).value.cycle == cycle && StoredScope(db, b, k).value.enrollment == enrollment)
  }

  /** So with the authorizer the application installs, a denied batch of any command on one scope wrote nothing. */
  lemma AuthorizerDeniesCleanly(schema: Schema, db: Db, b: Batch, weather: nat -> Weather, authority: Authority,
                                cycle: Option<Id>, enrollment: Option<Id>)
    requires Sound(db.keys) && CarefulBatch(b) && authority.Governs(b.command) && OneScope(db, b, cycle, enrollment)
    ensures Bulk(schema, db, b, weather).1.BulkDenied? ==> Bulk(schema, db, b, weather).0 == db
  {
    var permitted := authority.allowsScope(b.actor, cycle, enrollment);
    forall k | 1 <= k <= Chunks(b) ensures ChunkAnswers(db, b, k, permitted) {}
    OneAnswerDeniesCleanly(schema, db, b, weather, permitted);
  }

  const NO_DB := Db(map[], map[], [], [], [])

  /** Admits only requests of more than one row; otherwise accepts an empty plan. */
  const PICKY := Command("picky", true, false, (i: Input) => true, (a: Actor, i: Input) => |i.rows| > 1,
                         (a: Actor, l: Loaded) => InScope, (a: Actor, s: ScopeIds) => true,
                         (d: Db, i: Input) => Some(Loaded(ScopeIds(None, None, None, None), None, [])),
                         (i: Input, l: Loaded, a: Actor) => Accept(Plan([], [], [], None, Summary(Some([]), map[]))),
                         (s: Summary) => true)

  /** An authorizer that looked at the rows could deny the 501st after 500 have been committed. */
  lemma DenialCanFollowCommits()
    ensures var (final, end) := Bulk(map[], NO_DB, PickyBatch(), FairWeather);
            end == BulkDenied && |final.audits| == 1
  {
    var b := PickyBatch();
    var p := Progress([], [], FairWeather);
    assert |ChunkRows(b.rows, 1)| == 500 && |ChunkRows(b.rows, 2)| == 1 && Chunks(b) == 2;
    assert |StoredKey("b", 1)| == 3;
    var tried := Attempt(map[], NO_DB, ChunkCall(b, 1), FAIR);
    var empty := Result(Summary(Some([]), map[]), []);
    assert tried.1 == Done(empty) && |tried.0.audits| == 1 by {
      var work := CommitAppends(map[], NO_DB, None, ChunkCall(b, 1));
    }
    assert Attempt(map[], tried.0, ChunkCall(b, 2), FAIR) == (tried.0, Denied);
    assert FairWeather(1) == FairWeather(2) == FAIR;
    assert RunChunks(map[], tried.0, b, 2, With(p, empty)) == (tried.0, BulkDenied);
    assert Bulk(map[], NO_DB, b, FairWeather) == RunChunks(map[], NO_DB, b, 1, p);
    assert RunChunks(map[], NO_DB, b, 1, p) == Continue(map[], tried, b, 1, p);
  }

  function PickyBatch(): Batch {
    Batch(PICKY, seq(501, i => map[]), "b", Actor("p", None), false, map[])
  }
}
