/**
 What a batch answers (backend/app/core/executor.py:279-376), told by what its chunk runs answer in their
 turn: every try at every batch, previews included, from any database and under any weather.
 */
module BatchAnswers {
  import opened Common
  import opened Keys
  import opened Plans
  import opened Idempotency
  import opened Transactions
  import opened Executor
  import opened KeyTable

  /** The database chunk k finds: every earlier chunk has been tried, in order. */
  function Before(schema: Schema, db: Db, b: Batch, weather: nat -> Weather, k: nat): Db
    requires 1 <= k <= Chunks(b) + 1
  {
    if k == 1 then db
    else Attempt(schema, Before(schema, db, b, weather, k - 1), ChunkCall(b, k - 1), weather(k - 1)).0
  }

  /** What chunk k does and answers in its turn. */
  function Tried(schema: Schema, db: Db, b: Batch, weather: nat -> Weather, k: nat): (Db, Outcome)
    requires 1 <= k <= Chunks(b)
  {
    Attempt(schema, Before(schema, db, b, weather, k), ChunkCall(b, k), weather(k))
  }

  predicate HasRows(o: Outcome) {
    (o.Done? || o.Previewed?) && o.result.summary.rows.Some?
  }

  /** Chunk k has a valid input and answers with a list of rows. */
  ghost predicate ComesBack(schema: Schema, db: Db, b: Batch, weather: nat -> Weather, k: nat)
    requires 1 <= k <= Chunks(b)
  {
    b.command.validInput(ChunkInput(b, k)) && HasRows(Tried(schema, db, b, weather, k).1)
  }

  ghost predicate FirstComeBack(schema: Schema, db: Db, b: Batch, weather: nat -> Weather, n: nat)
    requires n <= Chunks(b)
  {
    forall k | 1 <= k <= n :: ComesBack(schema, db, b, weather, k)
  }

  function RowsOfOutcome(o: Outcome): seq<Row> {
    if HasRows(o) then o.result.summary.rows.value else []
  }

  function EventsOfOutcome(o: Outcome): seq<Event> {
    if HasRows(o) then o.result.events else []
  }

  /** The rows of these answers, in order ... */
  function RowsOfAll(answers: seq<Outcome>): seq<Row> {
    if answers == [] then [] else RowsOfAll(answers[..|answers| - 1]) + RowsOfOutcome(answers[|answers| - 1])
  }

  /** ... and their events. */
  function EventsOfAll(answers: seq<Outcome>): seq<Event> {
    if answers == [] then [] else EventsOfAll(answers[..|answers| - 1]) + EventsOfOutcome(answers[|answers| - 1])
  }

  /** What the first n chunks answered, each in its turn. */
  function Answers(schema: Schema, db: Db, b: Batch, weather: nat -> Weather, n: nat): seq<Outcome>
    requires n <= Chunks(b)
  {
    seq(n, i requires 0 <= i < n => Tried(schema, db, b, weather, i + 1).1)
  }

  /** The numbers of the first n chunks. */
  predicate CountsTo(completed: seq<nat>, n: nat) {
    |completed| == n && forall i | 0 <= i < n :: completed[i] == i + 1
  }

  /** What the batch says of the chunk that stopped it. */
  predicate Blames(end: BulkOutcome, stopped: nat, valid: bool, o: Outcome)
    requires stopped >= 1
  {
    if valid && o.Denied? then end.BulkDenied?
    else if valid && o.Rejected? && stopped == 1 then end == BulkRejected(o.reason)
    else
      && end.Interrupted? && CountsTo(end.completed, stopped - 1) && end.failed == stopped
      && end.why == (if valid && o.Rejected? then Some(o.reason) else None)
  }

  /** The batch's answer, given that every chunk before this one came back. */
  ghost predicate EndsAt(schema: Schema, db: Db, b: Batch, weather: nat -> Weather, tried: (Db, BulkOutcome),
                         stopped: nat)
  {
    && 1 <= stopped <= Chunks(b) + 1
    && FirstComeBack(schema, db, b, weather, stopped - 1)
    && if stopped == Chunks(b) + 1 then
         var answers := Answers(schema, db, b, weather, Chunks(b));
         && tried.0 == Before(schema, db, b, weather, stopped)
         && tried.1 == (if b.dryRun then BulkPreviewed(RowsOfAll(answers), EventsOfAll(answers))
                        else BulkDone(RowsOfAll(answers), EventsOfAll(answers)))
       else
         var valid := b.command.validInput(ChunkInput(b, stopped));
         var chunk := Tried(schema, db, b, weather, stopped);
         && !ComesBack(schema, db, b, weather, stopped)
         && tried.0 == (if valid then chunk.0 else Before(schema, db, b, weather, stopped))
         && Blames(tried.1, stopped, valid, chunk.1)
  }

  function ProgressAt(schema: Schema, db: Db, b: Batch, weather: nat -> Weather, k: nat): Progress
    requires 1 <= k <= Chunks(b) + 1
  {
    var answers := Answers(schema, db, b, weather, k - 1);
    Progress(RowsOfAll(answers), EventsOfAll(answers), weather)
  }

  /** The batch from chunk k on, when every earlier chunk came back. */
  function From(schema: Schema, db: Db, b: Batch, weather: nat -> Weather, k: nat): (Db, BulkOutcome)
    requires 1 <= k <= Chunks(b) + 1
  {
    RunChunks(schema, Before(schema, db, b, weather, k), b, k, ProgressAt(schema, db, b, weather, k))
  }

  lemma ChunkDecides(schema: Schema, db: Db, b: Batch, weather: nat -> Weather, k: nat)
    requires 1 <= k <= Chunks(b)
    ensures var valid := b.command.validInput(ChunkInput(b, k));
            if ComesBack(schema, db, b, weather, k) then
              From(schema, db, b, weather, k) == From(schema, db, b, weather, k + 1)
            else
              && From(schema, db, b, weather, k).0
                 == (if valid then Tried(schema, db, b, weather, k).0 else Before(schema, db, b, weather, k))
              && Blames(From(schema, db, b, weather, k).1, k, valid, Tried(schema, db, b, weather, k).1)
  {
    AnswerOf(Tried(schema, db, b, weather, k), schema, b, k, ProgressAt(schema, db, b, weather, k));
    if ComesBack(schema, db, b, weather, k) { ProgressGrows(schema, db, b, weather, k); }
  }

  lemma ProgressGrows(schema: Schema, db: Db, b: Batch, weather: nat -> Weather, k: nat)
    requires 1 <= k <= Chunks(b) && HasRows(Tried(schema, db, b, weather, k).1)
    ensures With(ProgressAt(schema, db, b, weather, k), Tried(schema, db, b, weather, k).1.result)
         == ProgressAt(schema, db, b, weather, k + 1)
  {
    var answers := Answers(schema, db, b, weather, k);
    assert answers[..k - 1] == Answers(schema, db, b, weather, k - 1);
  }

  lemma AnswerOf(tried: (Db, Outcome), schema: Schema, b: Batch, k: nat, p: Progress)
    requires 1 <= k <= Chunks(b)
    ensures if HasRows(tried.1) then
              Continue(schema, tried, b, k, p) == RunChunks(schema, tried.0, b, k + 1, With(p, tried.1.result))
            else
              && Continue(schema, tried, b, k, p).0 == tried.0
              && Blames(Continue(schema, tried, b, k, p).1, k, true, tried.1)
  {
  }

  lemma LastChunkEnds(schema: Schema, db: Db, b: Batch, weather: nat -> Weather)
    requires FirstComeBack(schema, db, b, weather, Chunks(b))
    ensures EndsAt(schema, db, b, weather, From(schema, db, b, weather, Chunks(b) + 1), Chunks(b) + 1)
  {
  }

  lemma {:induction false} FirstNotBack(schema: Schema, db: Db, b: Batch, weather: nat -> Weather, k: nat)
    returns (stopped: nat)
    requires 1 <= k <= Chunks(b) + 1 && FirstComeBack(schema, db, b, weather, k - 1)
    ensures k <= stopped <= Chunks(b) + 1 && FirstComeBack(schema, db, b, weather, stopped - 1)
    ensures stopped <= Chunks(b) ==> !ComesBack(schema, db, b, weather, stopped)
    decreases Chunks(b) + 1 - k
  {
    stopped := k;
    if k <= Chunks(b) && ComesBack(schema, db, b, weather, k) {
      stopped := FirstNotBack(schema, db, b, weather, k + 1);
    }
  }

  lemma {:induction false} GetsTo(schema: Schema, db: Db, b: Batch, weather: nat -> Weather, k: nat)
    requires 1 <= k <= Chunks(b) + 1 && FirstComeBack(schema, db, b, weather, k - 1)
    ensures From(schema, db, b, weather, 1) == From(schema, db, b, weather, k)
  {
    if k > 1 {
      GetsTo(schema, db, b, weather, k - 1);
      ChunkDecides(schema, db, b, weather, k - 1);
    }
  }

  /**
   Every batch that gets under way is decided by its chunk runs: it stops at the first chunk that does not
   come back with rows, saying which came back and why this one did not, or completes with the rows and
   events of all of them in chunk order; its database is the one those runs leave.
   */
  lemma BatchAnswerIs(schema: Schema, db: Db, b: Batch, weather: nat -> Weather) returns (stopped: nat)
    requires b.command.bulk && b.command.validInput(BatchInput(b))
    requires "rows" !in b.fields && "batch_key" !in b.fields
    ensures EndsAt(schema, db, b, weather, Bulk(schema, db, b, weather), stopped)
  {
    stopped := FirstNotBack(schema, db, b, weather, 1);
    GetsTo(schema, db, b, weather, stopped);
    if stopped <= Chunks(b) {
      ChunkDecides(schema, db, b, weather, stopped);
    } else {
      LastChunkEnds(schema, db, b, weather);
    }
  }

  /** Every other batch is turned away with the database as it was. */
  lemma TurnedAway(schema: Schema, db: Db, b: Batch, weather: nat -> Weather)
    ensures !b.command.bulk ==> Bulk(schema, db, b, weather) == (db, NotBulk)
    ensures b.command.bulk && ("rows" in b.fields || "batch_key" in b.fields) ==>
              Bulk(schema, db, b, weather) == (db, FieldsRestateRows)
    ensures b.command.bulk && "rows" !in b.fields && "batch_key" !in b.fields
            && !b.command.validInput(BatchInput(b)) ==>
              Bulk(schema, db, b, weather) == (db, InvalidBatch)
  {
  }

  // ---------------------------------------------------------------- previews

  /** Chunk k, previewed on this database. */
  function Preview(schema: Schema, db: Db, b: Batch, weather: nat -> Weather, k: nat): Outcome
    requires 1 <= k <= Chunks(b)
  {
    Attempt(schema, db, ChunkCall(b, k), weather(k)).1
  }

  predicate IsPreviewed(schema: Schema, db: Db, b: Batch, weather: nat -> Weather, k: nat)
    requires 1 <= k <= Chunks(b)
  {
    && b.command.validInput(ChunkInput(b, k))
    && Preview(schema, db, b, weather, k).Previewed?
    && Preview(schema, db, b, weather, k).result.summary.rows.Some?
  }

  /** What the chunks preview, each on this same database. */
  function Previews(schema: Schema, db: Db, b: Batch, weather: nat -> Weather): seq<Outcome> {
    seq(Chunks(b), i requires 0 <= i < Chunks(b) => Preview(schema, db, b, weather, i + 1))
  }

  /** A dry run leaves the database alone and never answers a result of a run. */
  lemma DryRunsOnlyPreview(schema: Schema, db: Db, b: Batch, k: nat, weather: Weather)
    requires b.dryRun && 1 <= k <= Chunks(b)
    ensures Attempt(schema, db, ChunkCall(b, k), weather).0 == db
    ensures !Attempt(schema, db, ChunkCall(b, k), weather).1.Done?
  {
    var work, tx := CommitIs(schema, db, weather.budget, ChunkCall(b, k));
  }

  lemma {:induction false} PreviewsChangeNothing(schema: Schema, db: Db, b: Batch, weather: nat -> Weather, k: nat)
    requires b.dryRun && 1 <= k <= Chunks(b) + 1
    ensures Before(schema, db, b, weather, k) == db
  {
    if k > 1 {
      PreviewsChangeNothing(schema, db, b, weather, k - 1);
      DryRunsOnlyPreview(schema, db, b, k - 1, weather(k - 1));
    }
  }

  lemma PreviewIsTried(schema: Schema, db: Db, b: Batch, weather: nat -> Weather, k: nat)
    requires b.dryRun && 1 <= k <= Chunks(b)
    ensures ComesBack(schema, db, b, weather, k) <==> IsPreviewed(schema, db, b, weather, k)
    ensures Tried(schema, db, b, weather, k) == (db, Preview(schema, db, b, weather, k))
  {
    PreviewsChangeNothing(schema, db, b, weather, k);
    DryRunsOnlyPreview(schema, db, b, k, weather(k));
  }

  /**
   The preview of a batch writes nothing; it completes exactly if every chunk has a valid input and is
   previewed, on the database as it stands, with a list of rows; and it then shows those rows and events,
   in chunk order.
   */
  lemma BatchPreviewIs(schema: Schema, db: Db, b: Batch, weather: nat -> Weather)
    requires b.dryRun && b.command.bulk && b.command.validInput(BatchInput(b))
    requires "rows" !in b.fields && "batch_key" !in b.fields
    ensures var (final, end) := Bulk(schema, db, b, weather);
            && final == db
            && !end.BulkDone?
            && (end.BulkPreviewed? <==> forall k | 1 <= k <= Chunks(b) :: IsPreviewed(schema, db, b, weather, k))
            && (end.BulkPreviewed? ==>
                  && end.rows == RowsOfAll(Previews(schema, db, b, weather))
                  && end.events == EventsOfAll(Previews(schema, db, b, weather)))
  {
    var stopped := BatchAnswerIs(schema, db, b, weather);
    PreviewsChangeNothing(schema, db, b, weather, stopped);
    forall k | 1 <= k <= Chunks(b)
      ensures ComesBack(schema, db, b, weather, k) <==> IsPreviewed(schema, db, b, weather, k)
      ensures Tried(schema, db, b, weather, k).1 == Preview(schema, db, b, weather, k)
    {
      PreviewIsTried(schema, db, b, weather, k);
    }
    if stopped <= Chunks(b) { PreviewIsTried(schema, db, b, weather, stopped); }
    assert Answers(schema, db, b, weather, Chunks(b)) == Previews(schema, db, b, weather);
  }
}
