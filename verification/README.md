# CDS Portal: a verified model of its command core

The repository runs campus placements: students join cycles, apply to jobs, receive and answer
offers, and collect strikes. Every write is a command; pure domain functions decide a plan over
loaded state, and one executor commits it. This project models those deciders, the executor
with its idempotency table, and one data migration, and proves what the code relies on over all
inputs and all runs.

Check it with `dafny verify dfyconfig.toml` (Dafny 4.11).

## How the model is built

- Code made of expressions is a function; code that loops or updates lists, tables or fields is
  a method or a class, proved equal to a function whose properties are then proved as lemmas.
- **Executor** (`Keys`, `Plans`, `Idempotency`, `Transactions`, `Executor`, then `StateOpLaws`, `KeyTable`,
  `Replay`, `BatchAnswers`, `BulkRuns`, `RunContracts`). A transaction works on a session object; a commit is one
  assignment to the database. Loaders, deciders and authorisers are arbitrary functions. The
  connection may fail before any statement, or lose the reply to a commit that took effect. Login
  nonces share the idempotency table through ordinary state operations, so the invariant over it
  is about completed rows and nonces, for commands that delete nothing but nonces.
- **Eligibility rules** (`RuleSchema`, `Rules`, then `LeafLaws`, `RuleReport`, `RuleCompletion`, `RuleText`,
  `CpiRounding`). Strong Kleene truth with both contract versions, path-addressed failures, the
  parenthesising printer over leaf clauses, and a reference reader for what it prints.
- **Programme structure** (`Pathways`, `Migration0017`, `MigrationLaws`). The statements of
  `upgrade` and `downgrade`, one by one; updates that may match several rows take any of them.
- **Applications** (`Domain`, `Transitions`, `Cascade`, `Restore`, `RoundFinalization`, `Gates`,
  `GateLaws`, `Memberships`, then `Lifecycle`, `LifecycleSafety`) and the expiry tasks (`Expiry`).
- **Strikes** (`Discipline`, `DisciplineLedger`, `ThresholdRuns`), **rate limiter** (`RateLimit`) and
  **consistency findings** (`Findings`). `Common` and `Sorting` are shared vocabulary.

## Where documentation or an expected law fails

- `backend/app/core/executor.py:363-366` says of a denied batch that nothing applied. This is true
  whenever every chunk of a batch gets the same answer (`RunContracts.OneAnswerDeniesCleanly`), and
  so with the authoriser the application installs (`RunContracts.AuthorizerDeniesCleanly`). The
  executor takes any authoriser: for one that looks at the rows it can be false
  (`RunContracts.DenialCanFollowCommits`), and `RunContracts.DeniedWroteNothingIff` says exactly when.
- An offer awaiting an answer loses its last expiry task when the task fires in an archived cycle
  (`Expiry.ArchivedOfferLosesItsTask`): `backend/app/modules/offers/expiry.py:268` does nothing and
  queues nothing, and archiving leaves offers standing. `Expiry.ExpiryIsSafe` and
  `Expiry.OneFiringSettles` say that archiving is the only way.
- `backend/app/modules/admin/checker.py:720` counts `offered` among the live statuses that need an
  active membership, but a membership exit leaves offers standing by design
  (`LifecycleSafety.OfferedOutlivesMembership`), and restoring applications after a termination does
  not look at memberships (`LifecycleSafety.RestorationOutlivesMembership`), as reinstating does.
  `LifecycleSafety.LiveHasMembershipIff` and `LifecycleSafety.InFlightHasMembership` say exactly which
  steps make the query report something.
- `backend/app/modules/admin/checker.py:683-703` compares every automatic penalty with the current
  number of strikes per penalty, so raising that setting can make it report penalties that were right
  (`ThresholdRuns.RaisingReports`); `ThresholdRuns.CleanIffNeverOutgrown` says exactly when.
- `backend/app/domain/pathways.py:157-160` says rules over the moved columns keep evaluating. The rule
  naming their base degree as secondary programme changes its answer for every dual major
  (`MigrationLaws.DualMajorSecondaryFlips`); `MigrationLaws.OldRulesKeepVerdictsIff` says exactly for
  whom every old rule keeps its verdict. `downgrade` restores profiles if and only if nobody who is
  not dual sits in a combined programme (`MigrationLaws.DowngradeRestoresIff`, with tables where
  somebody does in `MigrationLaws.RevisitedStudentIsNotRestored`).
- The repair reading of a rule's failure report is false under an undecided `not`
  (`RuleReport.UnknownNegationIsNotRepairable`); `RuleReport.RepairOutcome` says when it is true.
- A penalty revoked by hand keeps its strikes consumed, so automatic penalties can fall below
  floor(active strikes / threshold) (`DisciplineLedger.PardonLeavesBelowFloor`); this happens exactly
  when the penalty is an automatic one in force (`DisciplineLedger.RevokingBreaksFloorIff`,
  `DisciplineLedger.PenaltiesAreFloor`).

## Model

| member | source | states |
|---|---|---|
| `Keys.StoredKeyIsInjective` | backend/app/core/executor.py:341 | Two (batch key, chunk number) pairs have the same stored key if and only if they are the same pair, whatever colons and digits the batch keys contain |
| `Keys.DecimalReadsBack` | backend/app/core/executor.py:341 | The decimal text of a chunk number reads back as that number |
| `Keys.StoredKeyFits` | backend/app/core/keys.py:33-40 | A batch key of the longest accepted length fits the key column with its chunk suffix exactly for chunk numbers below 10^55 |
| `Keys.ShorterKeysFit` | backend/app/core/keys.py:33-40 | Every accepted batch key fits the key column for every such chunk number |
| `Keys.ChunksPartitionRows` | backend/app/core/executor.py:319-331 | The chunks of a batch concatenate to its rows; each holds at most 500, all but the last exactly 500, and only an empty batch has an empty chunk - its only one |
| `Idempotency.EventsReadBack` | backend/app/core/idempotency.py:61-89 | Decoding the stored payloads of a result's events gives the events back |
| `Idempotency.ReserveAfterComplete` | backend/app/core/idempotency.py:92-181 | Reserving a new key, completing it and reserving it again for the same claim answers the original result and scope and leaves the table alone |
| `Transactions.Transaction.ReserveKey` | backend/app/core/idempotency.py:92-157 | Inserts an in-progress row unless the key exists; otherwise refuses a row of another command, principal or request, raises on an impossible row, or answers the stored result; nothing else of the database changes |
| `Transactions.Transaction.CompleteKey` | backend/app/core/idempotency.py:160-181 | Replaces the envelope of the key's row by the completed one, keeps its command, and changes nothing else |
| `Transactions.Transaction.ApplyStateOps` | backend/app/core/executor.py:378-397 | Runs the operations in order on the session, stopping at the first unknown table or column, missing where, clashing key or failing statement |
| `StateOpLaws.OpCarriesOut` | backend/app/core/executor.py:378-397 | An insert adds exactly its row at the end; an update keeps every row in its place, gives those holding all `where` values the given values in the named columns and leaves the others alone; a delete leaves exactly the rows it does not select, in order; a nonce operation touches its own key; every other table, key and log is unchanged |
| `StateOpLaws.OpSucceedsIff` | backend/app/core/executor.py:380-388 | An operation succeeds exactly on a known table and columns, an update or delete only with a where, a nonce only under a free key that fits |
| `StateOpLaws.OpsCarryOut` | backend/app/core/executor.py:378-397 | A list of operations that all succeed was carried out one after the other, in order, from the database it started on to the one it left |
| `StateOpLaws.CommitCarriesOut` | backend/app/core/executor.py:229-272 | A committed run leaves the tables its plan's operations lead to from the reserved database, the plan's events under the actor, the audit row owed - a single command's own, a bulk chunk's the batch's - and the plan's jobs, and answers the plan's summary and events |
| `Transactions.Transaction.AppendEventRows` | backend/app/core/executor.py:399-421 | Appends the events in plan order under the actor, refusing an event without an application |
| `Transactions.Transaction.WriteAuditRow` | backend/app/core/executor.py:423-441 | Appends one audit row if there is an audit to write, none otherwise |
| `Transactions.Transaction.Defer` | backend/app/core/executor.py:443-473 | Queues the plan's jobs in order, inside the same transaction |
| `KeyTable.EventsWritten` | backend/app/core/executor.py:403-421 | A completed append added exactly the given events, in order, under the actor, and every one had an application |
| `KeyTable.JobsWritten` | backend/app/core/executor.py:443-473 | A completed defer queued exactly the given jobs, in order |
| `Executor.Executor.Run` | backend/app/core/executor.py:176-277 | One command from authorisation to commit: the outcome, and the database it leaves, on every branch and for every point at which the database may fail, including a commit whose reply is lost; a loaded state is refused as out of scope, as belonging to an archived cycle, or for not reporting whether it does |
| `Executor.Executor.RunBulk` | backend/app/core/executor.py:279-376 | The chunk loop: one run per chunk under its stored key, the batch audit with the first, and which answer ends the batch how |
| `BatchAnswers.BatchAnswerIs` | backend/app/core/executor.py:319-376 | Every batch that gets under way, preview or not, is decided by its chunk runs in turn: it stops at the first that does not come back with rows, saying which did and why this one did not, or completes with all their rows and events in chunk order; the database is the one they leave |
| `BatchAnswers.TurnedAway` | backend/app/core/executor.py:288-318 | A command that is not bulk, fields that restate the rows or the key, and an invalid batch are refused with the database as it was |
| `BatchAnswers.BatchPreviewIs` | backend/app/core/executor.py:354-376 | A batch preview writes nothing, completes exactly if every chunk has a valid input and is previewed with rows on the database as it stands, and then shows those rows and events in chunk order |
| `KeyTable.FinishWritesPlan` | backend/app/core/executor.py:252-272 | A finished transaction holds the whole plan and nothing else: tables as the operations left them, events, audit and jobs appended, the key completed |
| `KeyTable.CommitIs` | backend/app/core/executor.py:207-273 | A commit carries out a plan accepted on the state loaded in that transaction, is never a dry run, and under a key only of a key not yet in the table |
| `KeyTable.CommitAppends` | backend/app/core/executor.py:252-272 | A commit adds to the append-only tables exactly the plan's events, the one audit row it is due, and the plan's jobs |
| `KeyTable.AllOrNothing` | backend/app/core/executor.py:207-277 | If a run changed the database at all, it was not a dry run, its transaction committed, and it answered its result or lost the reply; previews come only from dry runs |
| `KeyTable.MismatchIsRefused` | backend/app/core/idempotency.py:125-141 | A key stored for another command, principal or request is refused, and the database is unchanged |
| `KeyTable.NoInternalFault` | backend/app/core/idempotency.py:143-149 | From a table of completed rows and login nonces no run meets the RuntimeErrors of the replay path |
| `RunContracts.InternalFaultsAreUnreachable` | backend/app/core/executor.py:221-222 | After any history of runs from a database without keys, no run meets those RuntimeErrors |
| `KeyTable.AttemptKeepsTable` | backend/app/core/idempotency.py:100-157 | One run keeps every row completed or a nonce, rewrites and removes no completed row, and gives a key a result exactly when the run that holds the key commits |
| `KeyTable.KeyCommitsOnce` | backend/app/core/idempotency.py:100-181 | Over any history of runs by anyone, the work under a key is committed at most once, exactly if its row appears, and completed rows are kept as they are |
| `Replay.ReplayReturnsOriginal` | backend/app/core/executor.py:213-228 | However much happens in between, repeating a committed request answers the original result - or a denial, if the caller may no longer see the scope that commit loaded, or a database failure - and changes nothing |
| `Replay.ResultWasCommitted` | backend/app/core/executor.py:211-229 | A result handed out under a new key was committed by an equal request at or before that point, with that very result |
| `Replay.BulkExactlyOnce` | backend/app/core/executor.py:319-376 | Once a chunk has come back, over any interleaving with other runs and any number of interruptions, it was committed exactly once, by a request with the same claim, and what came back is what that commit produced; committed by the batch itself it also wrote the batch audit row, exactly if it is the first chunk |
| `BulkRuns.CommitIsUndisturbed` | backend/app/core/executor.py:207-277 | A run that commits under a failing connection commits what an undisturbed run would have |
| `BulkRuns.TriesLeavePrefix` | backend/app/core/executor.py:329-373 | Any sequence of interrupted tries at a batch, nothing else running, leaves exactly some number of leading chunks done |
| `BulkRuns.InterruptedTriesConverge` | backend/app/core/executor.py:319-376 | When a try completes, the final database and answer are those of one undisturbed run from the start; the rows and events are the concatenation of what the chunks committed; the batch audit row was written once |
| `RunContracts.StoppedBatch` | backend/app/core/executor.py:352-373 | A batch that stopped at a chunk has every earlier chunk durably done and says so exactly when interrupted; a plain rejection means nothing was written |
| `RunContracts.DeniedWroteNothingIff` | backend/app/core/executor.py:362-367 | Under any authoriser, for the chunk at which a batch was denied - tried on the database the batch left, it is denied - the batch wrote nothing if and only if the database already held the result of every earlier chunk when the batch was tried |
| `RunContracts.OneAnswerDeniesCleanly` | backend/app/core/executor.py:362-367 | When authorisation, scope check and replay check come out the same for all chunks of a batch, a denied batch wrote nothing, whatever the database held and however it failed |
| `RunContracts.AuthorizerDeniesCleanly` | backend/app/core/authz.py:35-114 | So with the authoriser the application installs, which judges a request by its fields and a state by its archived flag and scope ids, a denied batch on one cycle and enrolment wrote nothing |
| `RunContracts.DenialCanFollowCommits` | backend/app/core/executor.py:362-367 | Under an authoriser that looks at the rows a denied batch can have committed earlier chunks, contrary to the comment on that branch |
| `RunContracts.OnlyTheAdmittedAct` | backend/app/core/executor.py:188-234 | Nothing is written, previewed or replayed unless the request was admitted, keyless if it affects the session, and what it loaded - or the scope stored with the result - was admitted too |
| `RunContracts.PreviewParity` | backend/app/core/executor.py:248-250 | From the same loaded state a preview shows exactly the result a real run gives, refuses exactly as it refuses, changes nothing, and only applying the plan can still fail |
| `RuleSchema.ValidatedIsValid` | backend/app/domain/rule_schema.py:170-200 | Whatever the leaf validator accepts has the shape its operator needs, with normalised values |
| `RuleSchema.ValidLeafRevalidates` | backend/app/domain/rule_schema.py:170-200 | A stored leaf validates again to itself |
| `LeafLaws.AcceptedIff` | backend/app/domain/rule_schema.py:171-282 | Exactly which raw leaves the validator accepts, by field, operator and values, and that each value is stored as given, numbers of decimal fields as decimals |
| `LeafLaws.FieldsRead` | backend/app/domain/rule_schema.py:125-132 | Every field reads its own column but for the usable degrees of a component rule, and the programme and year of study, on which the contracts differ |
| `LeafLaws.ReadableIff` | backend/app/domain/rule_schema.py:253-290 | A fact can be judged exactly if it is one value of the field's kind, and is then compared as stored, the CPI rounded to a tenth |
| `Rules.EvaluateNode` | backend/app/domain/rules.py:169-225 | The recursive evaluator returns the strong Kleene truth of the tree and its unmet requirements at their paths |
| `Rules.EvaluateAll` | backend/app/domain/rules.py:177-191 | The loop over an `all` node: truth and failures of the conjunction |
| `Rules.EvaluateAny` | backend/app/domain/rules.py:192-211 | The loop over an `any` node: stops at the first branch that holds, otherwise reports one choice at the node itself |
| `Rules.Evaluate` | backend/app/domain/rules.py:130-166 | The verdict is whether the tree holds, and the fallback reason is never used |
| `LeafLaws.UnreadableIsUndecided` | backend/app/domain/rules.py:245-268 | A requirement on a fact that cannot be judged is undecided, or under the legacy contract false, whatever it asks |
| `LeafLaws.EqualIff` | backend/app/domain/rules.py:295-300 | On a fact that can be judged `eq` holds exactly of the value itself, for a set of usable values exactly if it is one of them |
| `LeafLaws.UnequalIsNegation` | backend/app/domain/rules.py:295-300 | On a fact that can be judged `ne` has the negation of `eq` |
| `LeafLaws.InIsAnyOfEqualities` | backend/app/domain/rules.py:273-304 | For every valid leaf and reading `in` has the truth of the `any` of its equalities |
| `LeafLaws.NotInIsNegation` | backend/app/domain/rules.py:273-304 | On a fact that can be judged `not_in` has the negation of `in` |
| `LeafLaws.RangesCompareAmounts` | backend/app/domain/rules.py:305-311 | The range operators compare amounts with their ends included, and `between` asks both its ends |
| `Rules.NoFailuresIffHolds` | backend/app/domain/rules.py:149-166 | A validated rule reports no failure exactly when it holds, so neither fallback can be reached |
| `RuleReport.ReportPointsAtUnmetNodes` | backend/app/domain/rules.py:169-271 | Every reported path resolves to a node of the tree that does not hold |
| `RuleReport.ReportPathsAreDistinct` | backend/app/domain/rules.py:169-225 | No path is reported twice |
| `RuleReport.ReportIsInOrder` | backend/app/domain/rules.py:169-225 | The report lists its nodes in the order in which they stand in the rule |
| `RuleReport.ReportSaysWhat` | backend/app/domain/rules.py:145-225 | Each entry says of the node its path leads to what that node asks: the requirement or criterion itself, the negation, or of a choice what each branch lacks, in order |
| `RuleReport.RepairNeedsEveryReportedNode` | backend/app/domain/rules.py:145-225 | Where no `not` on the way is undecided, satisfying some of the nodes the evaluator's report lists makes the rule hold if and only if those are all of them |
| `RuleReport.RepairOutcome` | backend/app/domain/rules.py:145-225 | For every rule, satisfying all nodes the evaluator's report lists makes it hold or fail, and exactly which of the two |
| `RuleReport.UnknownNegationIsNotRepairable` | backend/app/domain/rules.py:212-219 | Under an undecided `not` the reported leaf is the one whose satisfaction makes the rule fail |
| `RuleCompletion.DecidedSurvivesCompletion` | backend/app/domain/rules.py:169-271 | A decided answer survives any filling-in of missing facts, through any nesting |
| `RuleCompletion.MissingFactNeverPasses` | backend/app/domain/rules.py:244-268 | A leaf over a missing fact stays undecided under any number of negations |
| `RuleCompletion.ContractsAgreeWithoutNegation` | backend/app/domain/rules.py:244-271 | On equal facts the two contracts reach the same verdict on every negation-free tree |
| `RuleCompletion.LegacyKeepsDecidedAnswers` | backend/app/domain/rules.py:244-271 | Whatever the current contract decides the legacy one decides alike, and the legacy one leaves nothing undecided |
| `RuleCompletion.CurrentOnlyNarrows` | backend/app/domain/rules.py:169-271 | On equal facts the current contract passes nobody the legacy one did not, and differs exactly where it is undecided and the legacy one passed |
| `RuleCompletion.NegatedMissingLeafSeparates` | backend/app/domain/rules.py:212-219 | A negated leaf over a missing fact passes under the legacy contract and is undecided under the current one |
| `RuleText.Print` | backend/app/domain/rule_text.py:248-276 | The printer returns the clause of the tree and the connective it is built with |
| `RuleText.PrintJoined` | backend/app/domain/rule_text.py:267-276 | The loop over a group: parts bracketed when their own connective differs, joined with the group's |
| `RuleText.SummaryReadsBack` | backend/app/domain/rule_text.py:248-276 | A reader that refuses any group mixing `and` with `or` reads every summary in full, so no level mixes them, and recovers its sense |
| `RuleText.ReadBackKeepsMeaning` | backend/app/domain/rule_text.py:239-276 | What is read back has the rule's three-valued meaning, for every student |
| `RuleText.EqualSummariesEqualVerdicts` | backend/app/domain/rule_text.py:239-276 | Two rules with the same summary give every student the same verdict |
| `RuleText.ClauseDecidesLeaf` | backend/app/domain/rule_text.py:109-134 | Two leaves with the same clause have the same truth for every student |
| `CpiRounding.RoundingIsMonotone` | backend/app/domain/rule_schema.py:283-288 | Rounding half up to a tenth never reverses the order of two values |
| `CpiRounding.RoundingIsClose` | backend/app/domain/rule_schema.py:283-288 | It lands on a tenth at most 0.05 away - exactly 0.05 only upward - and rounding again changes nothing |
| `CpiRounding.RoundingIsSymmetric` | backend/app/domain/rule_schema.py:283-290 | Rounding mirrors itself below zero, ties going away from zero on either side |
| `CpiRounding.AtLeastPasses` | backend/app/domain/rules.py:305-307 | `gte t` passes exactly when the raw value is at least t taken up to a tenth, less 0.05 |
| `CpiRounding.AtMostPasses` | backend/app/domain/rules.py:305-307 | `lte t` passes exactly when the raw value is below t taken down to a tenth, plus 0.05 |
| `CpiRounding.BetweenPasses` | backend/app/domain/rules.py:308-311 | `between` passes exactly when both its ends do |
| `CpiRounding.EqualsPasses` | backend/app/domain/rules.py:297-298 | `eq t` passes exactly on the raw values that round to t, which is none when t is not a tenth |
| `Pathways.DisciplinesAreOwn` | backend/app/domain/pathways.py:92-146 | A student is matched only on their own disciplines, a dual degree on the postgraduate one alone |
| `Pathways.KnownIff` | backend/app/domain/pathways.py:100-148 | Exactly when a student's usable disciplines are known |
| `Pathways.DisciplinesAre` | backend/app/domain/pathways.py:100-148 | Exactly which they then are, for single programmes, dual degrees, and a dual major's placements and internships by year |
| `Pathways.FillingInOnlyAdds` | backend/app/domain/pathways.py:105-108 | Filling in a blank withdraws no known discipline and makes no known answer unknown |
| `Pathways.DisciplinesOpenByYear` | backend/app/domain/pathways.py:32-35 | For a dual major's internships a later year only opens disciplines: the primary from third year, the second from fourth |
| `Pathways.StaleYearIsUnknown` | backend/app/domain/pathways.py:132-139 | A year recorded for another session answers neither a year rule nor a dual major's internship rule |
| `Migration0017.InsertCombined` | backend/alembic/versions/0017_program_structure.py:67-151 | Inserting the combined programmes in any order, overwriting rows with the same id, leaves exactly the table stated; it cannot fail on a name if no combined name is taken |
| `Migration0017.Repoint` | backend/alembic/versions/0017_program_structure.py:153-167 | A repointing update gives every profile that joins a combined programme one that it joins, and touches no other |
| `Migration0017.JoinsOwnProgramme` | backend/alembic/versions/0017_program_structure.py:153-167 | The joins match a dual profile with the programme minted from its own components, and nothing else |
| `Migration0017.Migration.Upgrade` | backend/alembic/versions/0017_program_structure.py:29-203 | Completes with the tables stated row by row, or leaves everything untouched: refused for stranded profiles only if a dual profile names no programme, for a taken name only if one is taken; it never completes past a stranded profile |
| `Migration0017.Migration.Downgrade` | backend/alembic/versions/0017_program_structure.py:206-255 | Puts the flags and base programmes back from the structure of each profile's programme and keeps the programmes; refused, with nothing changed, exactly if some profile has a second branch outside combined programmes or sits in a dual degree without a second half |
| `Migration0017.FlagsAgreeIff` | backend/alembic/versions/0017_program_structure.py:234-244 | The check constraints that come back with the flags hold of a reverted profile exactly unless it has a second branch outside combined programmes or sits in a dual degree without a second half |
| `MigrationLaws.ProfileComesBackIff` | backend/alembic/versions/0017_program_structure.py:153-232 | A profile that is not stranded comes back from upgrade and downgrade exactly if it is dual or not in a combined programme |
| `MigrationLaws.DowngradeRestoresIff` | backend/alembic/versions/0017_program_structure.py:29-232 | When the upgrade does not refuse, downgrading restores every profile exactly if no profile that is not dual sits in a combined programme |
| `MigrationLaws.DowngradeFollowsUpgrade` | backend/alembic/versions/0017_program_structure.py:29-244 | Right after a completed upgrade those constraints never refuse the way back |
| `MigrationLaws.CombinedRowsAreMinted` | backend/alembic/versions/0017_program_structure.py:67-151 | After the inserts the combined programmes are exactly the rows whose ids are minted from a dual major or dual degree that some profile or unapplied staged row is in |
| `MigrationLaws.UsedIff` | backend/alembic/versions/0017_program_structure.py:67-151 | A combined programme is minted exactly if a profile or an unapplied staged row is in it and the degrees it is made of exist |
| `MigrationLaws.MintedRowsAre` | backend/alembic/versions/0017_program_structure.py:67-151 | After the inserts each minted programme is named after its degrees with its structure and components, and every other programme is as it was, now single |
| `MigrationLaws.RevisitedStudentIsNotRestored` | backend/alembic/versions/0017_program_structure.py:62-232 | With ids that never collide, tables that the upgrade accepts and whose downgrade does not restore: a student who is not dual, put into a combined programme that an earlier upgrade left |
| `MigrationLaws.BranchStaysOffered` | backend/alembic/versions/0017_program_structure.py:169-179 | A branch offered under a profile's programme is offered under the programme it is repointed at |
| `MigrationLaws.OfferedIff` | backend/alembic/versions/0017_program_structure.py:170-180 | After the upgrade a branch is offered under a programme if and only if it was before, or the programme is a combined one in use and the branch was offered under a degree it is made of |
| `MigrationLaws.FieldsAnswerAlike` | backend/app/domain/pathways.py:149-212 | Field by field, the derived facts answer the legacy contract as the old columns did, but for a dual major's secondary programme |
| `MigrationLaws.OldRulesKeepVerdicts` | backend/app/domain/rule_schema.py:125-132 | Every tree over pre-migration fields keeps its legacy truth for every student carried over, if it names the secondary programme only for students who are not dual majors |
| `MigrationLaws.DualMajorSecondaryFlips` | backend/app/domain/pathways.py:211 | For every dual major the rule naming their base degree as secondary programme failed before and holds after |
| `MigrationLaws.SittingInMintedFlips` | backend/alembic/versions/0017_program_structure.py:62-66 | For a profile that is not dual but sits in a combined programme, both dual rules failed before and one holds after |
| `MigrationLaws.OldRulesKeepVerdictsIff` | backend/app/domain/pathways.py:146-212 | Over old fields that include the two dual flags, every rule gives a carried-over student the verdict it gave before if and only if they do not sit in a minted programme and, where the secondary programme is among the fields, are not a dual major |
| `MigrationLaws.ExactAndComponentRules` | backend/app/domain/pathways.py:199-202 | Under the current contract a declared-programme rule holds exactly for the programme declared, a component rule exactly for either of its degrees |
| `Transitions.LegalTransitionNames` | backend/app/domain/transitions.py:248-273 | The names of the rows that allow the move, in the table's order |
| `Transitions.LegalIffRowAllows` | backend/app/domain/transitions.py:258-273 | A name is legal exactly when its own row allows the move |
| `Transitions.LegalNamesInOrder` | backend/app/domain/transitions.py:248-273 | The names offered for a move are the rows that allow it, each once and in the table's order |
| `Transitions.DecideTransition` | backend/app/domain/transitions.py:276-295 | A named move is allowed exactly when its row allows it and a required reason is given; forcing counts only when asked for |
| `Transitions.MovesAreSanctioned` | backend/app/domain/transitions.py:66-240 | Without forcing the table allows exactly the sanctioned moves: for every status who may move an application there, from where, and whether a reason is needed |
| `Transitions.RejectionsStartWhere` | backend/app/domain/transitions.py:97-130 | Where each of the rows that reject an application may start |
| `Transitions.OffersStartWhere` | backend/app/domain/transitions.py:117-228 | Where each of the rows that make an offer may start |
| `Transitions.ReasonsAskedFor` | backend/app/domain/transitions.py:42-64 | A reason is asked for exactly by rejections, terminations, reinstatements and force, and only of a move that is legal |
| `Transitions.ForceReachesAll` | backend/app/domain/transitions.py:229-262 | Forcing takes staff from any status to any other, and only when asked for |
| `Transitions.AcceptedHasOneDoor` | backend/app/domain/transitions.py:141-190 | Without force, an application is accepted only from an offer, and leaves accepted only when staff terminate the offer |
| `Transitions.OneHandAnswers` | backend/app/domain/transitions.py:302-318 | In every cycle exactly one of the student and the staff may answer an offer, the same one both ways; the system accepts exactly where it may decline and auto-accept is on |
| `Cascade.ComputeAcceptanceCascade` | backend/app/domain/transitions.py:343-398 | The loop over the other applications returns the cascade's actions in id order |
| `Cascade.CascadeContents` | backend/app/domain/transitions.py:354-397 | There is one action for each competing live application, carrying its offer, status, round and cause, and no other |
| `Cascade.CascadeOrder` | backend/app/domain/transitions.py:354 | Actions come in id order, one per application, whatever order the snapshot was read in |
| `Cascade.CascadeSettles` | backend/app/domain/transitions.py:343-398 | Performing the cascade moves exactly the competing live applications and changes nothing else |
| `Cascade.CascadePostState` | backend/app/domain/transitions.py:350-398 | Afterwards no competitor of the accepted application is in progress, awaiting an offer or offered, and everything else is as it was |
| `Cascade.ExemptCascadeIsEmpty` | backend/app/domain/transitions.py:350-351 | Accepting an open-cycle internship moves nothing |
| `Cascade.SecondCascadeIsEmpty` | backend/app/domain/transitions.py:343-398 | A second cascade over the state the first left has nothing to do |
| `Cascade.CascadeIsLegal` | backend/app/domain/transitions.py:302-318 | Each action starts from the application's status and is the one system row the transition table allows for it |
| `Restore.NoteLatest` | backend/app/domain/transitions.py:429-438 | The loop over the history keeps each application's latest causal event |
| `Restore.ComputeRestoreCandidates` | backend/app/domain/transitions.py:422-460 | The candidates, in id order and one for each application, from the latest events that still match the current statuses |
| `Restore.LatestIsCausal` | backend/app/domain/transitions.py:431-438 | The kept event of an application is one of its own causal events |
| `Restore.LatestIsLatest` | backend/app/domain/transitions.py:436-438 | No causal event of an application has a greater sequence number than the kept one |
| `Restore.RestorationIs` | backend/app/domain/transitions.py:440-460 | One candidate for each application that is still where its latest move of this acceptance put it |
| `Restore.RestorationOrder` | backend/app/domain/transitions.py:440-460 | The candidates' applications ascend by id, so that none is listed twice |
| `Restore.RestoreUndoesCascade` | backend/app/domain/transitions.py:343-460 | After a cascade and anything since, the candidates are exactly the moved applications still where the cascade left them, with the status and round they had, a fresh offer exactly if they had one |
| `Restore.RestoreRightAfter` | backend/app/domain/transitions.py:343-460 | Right after a cascade the candidates are exactly the applications it moved, with the status and round they had |
| `RoundFinalization.DecideRoundFinalization` | backend/app/domain/transitions.py:550-584 | The loop over the round's rows returns the finalising actions in id order |
| `RoundFinalization.FinalizationContract` | backend/app/domain/transitions.py:550-584 | Exactly the undecided rows are closed, each by a legal elimination; a strike falls exactly on an unexcused absence when strikes are on |
| `RoundFinalization.FinalizationOrder` | backend/app/domain/transitions.py:555 | The actions come in the order of their applications' ids |
| `RoundFinalization.FinalizationIgnoresOrder` | backend/app/domain/transitions.py:555 | The order rows are read in does not matter |
| `RoundFinalization.FinalizingAgainIsEmpty` | backend/app/domain/transitions.py:550-561 | Deciding again over the closed rows of a round, in whatever order they are read, yields no action |
| `Expiry.FiringAnswersIff` | backend/app/modules/offers/expiry.py:258-340 | A firing answers for the student exactly when the cycle is not archived, the offer awaits an answer and what fires is due for the deadline in force; it accepts exactly under auto-accept with no gate failing |
| `Expiry.FiringIs` | backend/app/modules/offers/expiry.py:258-340 | What a firing does: a due one answers once as the student stands and moves the application with it, one that comes before the deadline in force queues another at it, any other does nothing |
| `Expiry.TaskFiresOnce` | backend/app/modules/offers/expiry.py:258-265 | A task that fires is gone from the queue, and one that is not there or not yet due does nothing |
| `Expiry.StepIsSanctioned` | backend/app/domain/transitions.py:117-228 | Whatever happens to an offer moves its application only as the transition table sanctions for whoever acts |
| `Expiry.StatusesAgree` | backend/app/domain/transitions.py:117-228 | In every run from an extended offer, answer, end and application status of the latest offer tell the same |
| `Expiry.MovesAreOpen` | backend/app/modules/jobs/commands.py:1005-1030 | While the cycle is open, answers, terminations, rejections, further offers and new deadlines take effect where the status allows them |
| `Expiry.MovesFromElsewhere` | backend/app/modules/offers/expiry.py:268-275 | What an acceptance elsewhere, the end of one and a replaced placement do to an offer, archived or not |
| `Expiry.ExpiryIsSafe` | backend/app/modules/offers/expiry.py:258-340 | Over every run of deadline moves and clearings, answers, terminations, restorations, archiving and due, duplicate or stale firings: at most one answer, none automatic before the deadline in force, and an awaiting offer lacks the task of that deadline only in an archived cycle |
| `Expiry.ArchivedOfferStands` | backend/app/modules/offers/expiry.py:268-275 | Once its cycle is archived, nothing but an acceptance elsewhere, the restoration that may follow its end, or a replaced placement changes an offer, and no answer is automatic |
| `Expiry.ArchivedOfferLosesItsTask` | backend/app/modules/offers/expiry.py:268-275 | A run that archives the cycle and fires the offer's own task ends with an offer that awaits an answer and has no task |
| `Expiry.TaskStaysPending` | backend/app/modules/jobs/commands.py:1005-1030 | Once the deadline's own task is pending, the task of the deadline in force stays pending, however that moves, until the offer no longer awaits an answer or its cycle is archived |
| `Expiry.OneFiringSettles` | backend/app/modules/offers/expiry.py:258-340 | After any run from an extended offer that still awaits an answer, one due firing of the pending task of its deadline settles it for good if and only if its cycle is not archived |
| `Expiry.TwoFiringsSettle` | backend/app/modules/offers/expiry.py:258-340 | From any offer with some task pending, whatever happens in between, two due firings settle it for good if and only if its cycle is not archived when they fire, short of an acceptance elsewhere |
| `Gates.Tally.AppendOverrideDecision` | backend/app/domain/gates.py:577-592 | Appends a gate's contribution to the shared lists: a denial, the failure, or the credit of the override that lifts it |
| `Gates.Tally.AppendAcceptanceConstraints` | backend/app/domain/gates.py:544-574 | Appends the outcome gate, then the cap |
| `Gates.EvaluateOutcomeGate` | backend/app/domain/gates.py:248-291 | The placed-state gate in either phase, after overrides |
| `Gates.EvaluateOfferCap` | backend/app/domain/gates.py:294-330 | The cap gate, after overrides |
| `Gates.EvaluateAcceptanceConstraints` | backend/app/domain/gates.py:214-245 | Outcome gate and cap as they stand at acceptance |
| `Gates.EvaluateExpiryAcceptanceConstraints` | backend/app/domain/gates.py:333-372 | Current membership, then outcome gate and cap, as the system must pass them to accept on expiry |
| `Gates.EvaluateGates` | backend/app/domain/gates.py:124-211 | Every gate of an application in the mandated order, after overrides |
| `GateLaws.EffectIs` | backend/app/domain/gates.py:595-602 | A denial of the domain wins over any allowances wherever they stand; the selected override is one of the domain's own |
| `GateLaws.CatalogueIsComplete` | backend/app/domain/gates.py:90-121 | No evaluator's answer changes when overrides outside its catalogued domains are dropped |
| `GateLaws.OrderDoesNotDecide` | backend/app/domain/gates.py:577-602 | No evaluator's reasons change with the order overrides are read in, nor how many it credits |
| `GateLaws.DecisionPassesIff` | backend/app/domain/gates.py:577-592 | A gate passes exactly if no override denies it and its failure, if any, is lifted |
| `GateLaws.ConstraintsPassIff` | backend/app/domain/gates.py:544-574 | Acceptance passes exactly if both its gates let it |
| `GateLaws.GatesPassIff` | backend/app/domain/gates.py:124-211 | Exactly when an application passes every gate, in terms of the facts and the overrides present |
| `GateLaws.ExpiryPassesIff` | backend/app/domain/gates.py:333-372 | The system may accept exactly when the membership is active and acceptance would pass |
| `GateLaws.OfferDeadlinePassesIff` | backend/app/domain/gates.py:375-400 | An offer may be answered exactly if no override denies it and it is before the deadline, there is none, or an allowance stands; the deadline itself is too late |
| `GateLaws.WindowPassesIff` | backend/app/domain/gates.py:403-458 | Editing and withdrawing pass exactly if no override of their own domain denies them and the deadline is not passed, the policy allows them after it, or an allowance of that domain stands |
| `GateLaws.RegistrationPassesIff` | backend/app/domain/gates.py:461-488 | Registration passes exactly if nothing denies it and now lies from its opening up to, not including, its closing, or an allowance stands; either bound may be missing |
| `GateLaws.JoinRulePassesIff` | backend/app/domain/gates.py:491-524 | The join rule passes exactly if nothing denies it and it has no shortfall or an allowance stands; a denial leaves one reason in place of all shortfalls, and without an override every shortfall is kept |
| `GateLaws.EligibilityPassesIff` | backend/app/domain/gates.py:527-541 | The same for the job rule and the eligibility domain, with an override on record exactly if it denied or was needed |
| `GateLaws.RuleGatesPassIff` | backend/app/domain/gates.py:491-541 | With one shortfall for each failure the evaluator reports, joining and applying pass exactly if the rule holds for the student or an allowance stands in for it, and nothing denies them |
| `GateLaws.LiftIsCredited` | backend/app/domain/gates.py:591-592 | Passing against a failing gate leaves an allowance of that domain on record |
| `GateLaws.SelectedIsFirst` | backend/app/domain/gates.py:595-608 | The override that decides a domain is its first denial or, without one, its first override |
| `GateLaws.GatesSay` | backend/app/domain/gates.py:124-211 | The reasons an application is given, each at its path and in the mandated order, in terms of the facts and of whether a denial or any override of each domain is present |
| `GateLaws.ConstraintsSay` | backend/app/domain/gates.py:544-574 | The reasons of an acceptance, the outcome gate's before the cap's |
| `GateLaws.OtherGatesSay` | backend/app/domain/gates.py:333-488 | The reasons of the system's own acceptance, of the offer deadline, of the edit and withdrawal windows and of the registration window |
| `GateLaws.RuleGatesSay` | backend/app/domain/gates.py:491-541 | What the join and eligibility gates say against a denial, and that they credit at most the override that decides |
| `GateLaws.ConstraintsCredit` | backend/app/domain/gates.py:544-592 | Acceptance records what its outcome gate and then its cap credit, each at most the override that decides its domain |
| `GateLaws.GatesCredit` | backend/app/domain/gates.py:124-211 | An application records its deadline's credit before those |
| `Memberships.LeavingActiveCascades` | backend/app/domain/memberships.py:46-96 | A row that leaves active cascades, and no such row ends in active |
| `Memberships.ExitCascadeContents` | backend/app/domain/memberships.py:262-286 | Exactly the in-flight applications withdraw, each remembering its status and round |
| `Memberships.ExitCascadeOrder` | backend/app/domain/memberships.py:262-286 | The withdrawals come in the order of their applications' ids, one for each |
| `Memberships.ExitCascadeIgnoresOrder` | backend/app/domain/memberships.py:282-284 | The order applications are read in does not matter |
| `Memberships.ExitCascadeIsLegal` | backend/app/domain/memberships.py:255-286 | Each withdrawal is the transition table's own system row |
| `LifecycleSafety.CascadeIsAsPlanned` | backend/app/modules/offers/planning.py:223-330 | Performing the computed cascade's offer and application updates one by one is the whole-state change an acceptance makes |
| `LifecycleSafety.CandidatesAreComputed` | backend/app/modules/offers/termination.py:394-403 | An application counts as a candidate for restoration in a run exactly if `compute_restore_candidates` lists it from the recorded events, with the same status and need of a fresh offer |
| `LifecycleSafety.UncreditedMeetsGates` | backend/app/domain/gates.py:577-592 | An acceptance not credited with an override of a gate met that gate on its merits |
| `LifecycleSafety.AcceptanceIsSafe` | backend/app/modules/admin/checker.py:597-602 | In every state of every run, under any overrides: acceptances of a cycle not credited with a cap override stay within its cap, at most one accepted placement, and in each internship cycle at most one accepted internship, lacks an outcome credit, and an application is accepted exactly if an offer of its is held |
| `LifecycleSafety.InFlightHasMembership` | backend/app/modules/admin/checker.py:711-722 | Over every run, an application in progress or awaiting an offer has always had an active membership if and only if no termination restored one to those statuses for somebody whose membership was over |
| `LifecycleSafety.StepBreaksIff` | backend/app/modules/admin/checker.py:711-722 | From a state in which the watched statuses - those in flight, or all live ones - are backed by active memberships, a step leads to one where they are not if and only if, for somebody whose membership is over or ends with it, it leaves an offer standing, re-extends one, or restores an application after a termination |
| `LifecycleSafety.LiveHasMembershipIff` | backend/app/modules/admin/checker.py:711-722 | Over every run, reinstatements and restorations included, the checker's query finds nothing up to some point if and only if no such step was taken before it |
| `LifecycleSafety.OfferedOutlivesMembership` | backend/app/modules/admin/checker.py:720 | A run ends with an offered application whose membership is over, which the checker's query would report |
| `LifecycleSafety.RestorationOutlivesMembership` | backend/app/modules/offers/termination.py:580-640 | A run - accept, leave the cycle, terminate with a restoration - ends with an application in progress whose membership is over |
| `Discipline.ConversionContract` | backend/app/domain/discipline.py:44-71 | A conversion depends on which strikes exist, not on their order; its groups have exactly the threshold size, share no strike, spell out the oldest free strikes, and leave fewer than a threshold over |
| `Discipline.SliceSizes` | backend/app/domain/discipline.py:60-71 | There are as many groups as complete thresholds, each of exactly that size |
| `Discipline.SlicesSpellPrefix` | backend/app/domain/discipline.py:60-71 | The groups in order spell out the oldest strikes |
| `Discipline.GroupSaysWhy` | backend/app/domain/discipline.py:60-71 | A group's reasons are its strikes' own, oldest first, joined by a semicolon |
| `Discipline.RecomputeAfterRevoke` | backend/app/domain/discipline.py:74-134 | The dissolution, the rebuilt strikes and the regrouping, or the errors for a bad threshold or an unknown strike |
| `Discipline.FailsIff` | backend/app/domain/discipline.py:44-95 | Converting fails exactly on a threshold below one, recomputing also exactly on a strike that is not among those given |
| `DisciplineLedger.Standing.AwardStrikes` | backend/app/modules/discipline/awards.py:343-454 | Inserts the strikes and converts every complete threshold into an automatic penalty |
| `DisciplineLedger.Standing.RevokeStrike` | backend/app/modules/discipline/commands.py:296-466 | Deactivates the strike, dissolves the penalty it no longer supports, frees that penalty's strikes and regroups; an unknown or revoked strike changes nothing |
| `DisciplineLedger.ConversionSettles` | backend/app/domain/discipline.py:44-71 | Converting what a reading of the tables shows leaves every automatic penalty on exactly a threshold of active strikes and fewer than a threshold free |
| `DisciplineLedger.RunsStaySettled` | backend/app/domain/discipline.py:44-134 | In every ledger reachable by awards, revocations and direct penalties, each automatic penalty in force rests on exactly a threshold of active strikes and fewer than a threshold are free |
| `DisciplineLedger.LedgerBalance` | backend/app/domain/discipline.py:44-134 | Active strikes are a threshold for each automatic penalty in force, plus the free ones, plus those still consumed by a penalty no longer in force |
| `DisciplineLedger.AtFloorIff` | backend/app/domain/discipline.py:44-134 | The automatic penalties number floor(active strikes / threshold) if and only if the free and the frozen strikes together are fewer than a threshold |
| `DisciplineLedger.RevokingBreaksFloorIff` | backend/app/modules/discipline/commands.py:505-560 | From the floor, revoking a penalty by hand stays there if and only if the penalty is not an automatic one in force |
| `DisciplineLedger.PenaltiesAreFloor` | backend/app/domain/discipline.py:44-134 | Over every run, the automatic penalties in force have numbered floor(active strikes / threshold) all along if and only if no automatic penalty in force was revoked by hand |
| `DisciplineLedger.PenaltyCommandsAre` | backend/app/modules/discipline/commands.py:469-560 | A penalty given by hand is in force and not from strikes, one revoked by hand is no longer in force; no strike and no other penalty is touched |
| `DisciplineLedger.PardonLeavesBelowFloor` | backend/app/modules/discipline/commands.py:505-560 | A run - one award at a threshold of one, then the penalty revoked by hand - that ends one penalty short of the floor |
| `DisciplineLedger.StrikeLedgerArithmetic` | backend/app/domain/discipline.py:44-134 | Until an automatic penalty is revoked by hand, automatic penalties number floor(active strikes / threshold), each has exactly a threshold of active supporters, and fewer than a threshold of strikes are unconsumed |
| `ThresholdRuns.FallsIff` | backend/app/domain/discipline.py:88-104 | Under any setting, a revoked strike takes its automatic penalty along exactly if no active supporter or fewer than the threshold are left |
| `ThresholdRuns.NoneIsUnsupported` | backend/app/domain/discipline.py:44-134 | Over every run of commands and setting changes no automatic penalty in force is without an active strike |
| `ThresholdRuns.StepStaysCleanIff` | backend/app/modules/admin/checker.py:683-703 | From a state in which the query over automatic penalties reports nothing, every command leads to another, and a setting change does if and only if it asks no more than each penalty in force stands on |
| `ThresholdRuns.CleanIffNeverOutgrown` | backend/app/modules/admin/checker.py:683-703 | Over every run of commands and setting changes, the query has reported nothing all along if and only if the setting was never raised above what a penalty in force stands on |
| `ThresholdRuns.LoweringIsHarmless` | backend/app/modules/admin/checker.py:683-703 | Lowering the setting, blanking it or setting it to one never makes the query report |
| `ThresholdRuns.RaisingReports` | backend/app/modules/admin/checker.py:683-703 | A run - one strike per penalty, one award, then two per penalty - that the query reports |
| `RateLimit.InProcessRateLimiter.Check` | backend/app/core/rate_limit.py:22-41 | Trims the bucket's deque, refuses when it is full, otherwise records the call; an unmetered, unparsable or clockless call passes unrecorded |
| `RateLimit.UnmeteredPasses` | backend/app/core/rate_limit.py:22-41 | A call without a rate, with one that does not parse or without a clock always passes and leaves no trace, and no other call does |
| `RateLimit.RefusedIffWindowFull` | backend/app/core/rate_limit.py:31-37 | With a monotone clock a metered call is refused exactly when its limit of admitted calls already lies in (now - 60, now] |
| `RateLimit.EveryWindowIsBounded` | backend/app/core/rate_limit.py:31-37 | No interval (t - 60, t] holds more admitted calls of a bucket than its limit |
| `RateLimit.BucketsAreIndependent` | backend/app/core/rate_limit.py:19-32 | A bucket's deque and admitted calls are those of the run of its own requests alone |
| `Findings.DecideRun` | backend/app/modules/admin/commands.py:220-333 | The run's finding operations and its three counters |
| `Findings.RunIs` | backend/app/modules/admin/commands.py:146-292 | A run succeeds exactly when no id missing from the table is listed twice, and then has the stated effect on every row of the table, though only part of it was read |
| `Findings.ReopenedAre` | backend/app/modules/admin/commands.py:258-272 | Where the violations list each id once, as many findings are reported as reopened as resolved ones are violated again |
| `Findings.CuredAre` | backend/app/modules/admin/commands.py:273-292 | As many findings are closed as dismissed ones are no longer violated |
| `Findings.OneRowCommands` | backend/app/modules/admin/commands.py:357-455 | Resolving or dismissing by hand settles one open finding and nothing else; the expiry worker's fallback opens its finding if it is not there yet |
| `Findings.AfterRunStatuses` | backend/app/modules/admin/commands.py:238-292 | After a run every violation is open or dismissed, and every dismissed row was already dismissed and is violating |
| `Findings.RerunIsSilent` | backend/app/modules/admin/commands.py:238-280 | Running again on the same violations asks for no finding operation |
| `Findings.GrowsByInserts` | backend/app/modules/admin/commands.py:242-257 | The table grows by exactly the number of findings reported as opened |
| `Findings.RowsNeverVanish` | backend/app/modules/admin/commands.py:233-292 | Over any history no finding row disappears |
| `Findings.DismissedIffViolatedSince` | backend/app/modules/admin/commands.py:273-292 | A dismissed finding is still dismissed exactly if every check since has listed it |
| `Findings.EachCheckSettles` | backend/app/modules/admin/commands.py:220-292 | After every check of any history, violations are open or dismissed and dismissals are violating |
| `Findings.CheckClosesFallbacks` | backend/app/modules/admin/commands.py:276-280 | The next check closes a dismissed finding of the expiry worker, which it never raised |

## Left out

- Transactions.Transaction.ReserveKey: runs are serialised at their commits, as the unique key and row locks make them; waiting, lock order and deadlocks are not modelled.
- Executor.Executor.Run: metrics, logging and the clocks and generated ids inside deciders are not modelled; a decider is a function of what its loader read.
- Executor.Executor.RunBulk: that a preview of a batch equals its execution is not claimed, because each previewed chunk is rolled back before the next one loads.
- Keys.StoredKeyIsInjective: the trimming of white space from keys by the request models is not modelled.
- RuleText.Print: a leaf clause is one token; rendering of labels, numbers and lists inside it is left out, and with it labels that two ids might share.
- Rules.EvaluateNode: the wording of shortfalls is not modelled; only their kinds and paths are.
- RuleSchema.ValidatedIsValid: textual ids and numbers in stored rules are taken as parsed values; their parsing is not modelled.
- Migration0017.Migration.Upgrade: derived ids are assumed collision-free, as `MigrationLaws.ParityIsCollisionFree` shows ids can be; the JSON and regular expressions around staged rows are taken as parsed fields, and `is_active` and timestamps are left out.
- LifecycleSafety.AcceptanceIsSafe: external offers, `force_transition` and `replace_placement` are not steps of the model: the first live in another table, the other two set aside the gates on purpose.
- LifecycleSafety.StepBreaksIff: the transition table's `direct_offer` row, which no command uses, is not a step; duplicates, cancelled jobs and wrong rounds enter a reinstatement or a restoration as given facts.
- Lifecycle.Next: rounds, answers and edits of an application, and the profile completeness check at joining, are left out as finite lists of simple checks.
- Expiry.ExpiryIsSafe: offers are never deleted, so a firing for an unknown offer is left out; that the queue runs a due task at some time is not claimed.
- LifecycleSafety.LiveHasMembershipIff: archiving a cycle, which withdraws applications as a membership exit does and leaves offers standing, is not a step (`Expiry` has it); nor are `replace_placement` and the end of an external offer, which restore applications as a termination does, and `force_transition`, which looks at nothing.
- Findings.DecideRun: the invariant queries, session purge and reminder purge are left out; the checker's ids are taken as distinct from the expiry worker's, as their hash prefixes make them.
- DisciplineLedger.Standing.RevokeStrike: notifications, audit texts and the requirement of a reason are left out.
- RateLimit.InProcessRateLimiter.Check: the text of a rate is taken as parsed; calls that pass because parsing or the clock failed are not counted.
- Idempotency.EventsReadBack: the text forms of ids and event types are assumed injective, and a request digest identifies the request.
- HTTP routing, sessions, OAuth, exports, analytics, the frontend, seeds and scripts: input and output around the core.
- RunContracts.AuthorizerDeniesCleanly: which roles an actor holds and which cycles they coordinate are arbitrary functions of the actor.
- The role tables of `authz.py`, `policy.py`, `academics.py` and override scopes: finite case tables that would only add easy members.
