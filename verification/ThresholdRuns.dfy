/**
 The ledger while the threshold itself is changed (backend/app/modules/taxonomies/commands.py:100-130), and
 what the nightly query over automatic penalties reports of it (backend/app/modules/admin/checker.py:683-703).
 */
module ThresholdRuns {
  import opened Common
  import opened Sorting
  import opened Discipline
  import opened DisciplineLedger

  /** The stored setting: no row, a row without a number, or the strikes that make a penalty. */
  datatype Setting = Unset | Blank | PerPenalty(n: nat)

  /** What the commands read: the default without a row, no conversion for a blank. */
  function InForce(s: Setting): Option<int> {
    match s
    case Unset => Some(2)
    case Blank => None
    case PerPenalty(n) => Some(n)
  }

  /** What the query compares supporters with; without a number it reports nothing. */
  function Compared(s: Setting): nat {
    if s.PerPenalty? then s.n else 0
  }

  /** The strikes table, the penalties table and the setting. */
  datatype Office = Office(ledger: Ledger, setting: Setting)

  datatype Change = Do(command: Command) | Store(setting: Setting)

  function ExecuteAt(l: Ledger, c: Command, threshold: Option<int>): Ledger {
    match c
    case AwardStrikes(minted, rows, unused) => Awarded(l, minted, rows, threshold, unused)
    case RevokeStrike(strike, rows, penalties, unused) => Revoked(l, strike, rows, penalties, threshold, unused)
    case _ => Execute(l, c, 0)
  }

  /** The command read the tables as they are; a setting is written blank or as at least one. */
  ghost predicate IsPossible(o: Office, c: Change) {
    match c
    case Do(command) => Possible(o.ledger, command)
    case Store(s) => s.Blank? || (s.PerPenalty? && s.n >= 1)
  }

  function Next(o: Office, c: Change): Office {
    match c
    case Do(command) => o.(ledger := ExecuteAt(o.ledger, command, InForce(o.setting)))
    case Store(s) => o.(setting := s)
  }

  function ActiveSupporters(l: Ledger, penalty: Id): set<Id> {
    set id | id in l.strikes && l.strikes[id].isActive && l.strikes[id].consumedBy == Some(penalty)
  }

  /** The query lists this penalty: automatic, in force, and on fewer active strikes than the setting asks. */
  predicate IsReported(o: Office, penalty: Id) {
    IsAutomatic(o.ledger, penalty) && |ActiveSupporters(o.ledger, penalty)| < Compared(o.setting)
  }

  predicate IsClean(o: Office) {
    forall p | p in o.ledger.penalties :: !IsReported(o, p)
  }

  // ---------------------------------------------------------------- what every command keeps

  /** Every automatic penalty in force has at least n active supporters. */
  ghost predicate BackedBy(l: Ledger, n: nat) {
    Keyed(l) && forall p | p in l.penalties && IsAutomatic(l, p) :: |ActiveSupporters(l, p)| >= n
  }

  /** A threshold the commands may read, at least this; without one, a penalty still falls with its last strike. */
  predicate AtLeast(threshold: Option<int>, n: nat) {
    if threshold.Some? then threshold.value >= 1 && threshold.value >= n else n <= 1
  }

  lemma ConvertOneBacks(l: Ledger, ids: seq<Id>, p: Id, n: nat)
    requires BackedBy(l, n) && p !in l.penalties
    requires Distinct(ids) && Elements(ids) <= Free(l) && |ids| >= n
    ensures BackedBy(ConvertOne(l, ids, p), n)
    ensures Free(ConvertOne(l, ids, p)) == Free(l) - Elements(ids)
  {
    var l' := ConvertOne(l, ids, p);
    forall q | q in l'.penalties && IsAutomatic(l', q) ensures |ActiveSupporters(l', q)| >= n {
      if q == p {
        assert ActiveSupporters(l', p) == Elements(ids);
        DistinctCount(ids);
      } else {
        assert IsAutomatic(l, q);
        forall id ensures id in ActiveSupporters(l', q) <==> id in ActiveSupporters(l, q) {
          if id in ids { assert id in Elements(ids); }
        }
        assert ActiveSupporters(l', q) == ActiveSupporters(l, q);
      }
    }
  }

  lemma {:induction false} ConvertBacks(l: Ledger, groups: seq<ConversionGroup>, unused: seq<Id>, n: nat)
    requires BackedBy(l, n) && |groups| <= |unused| && FreshIds(l, unused)
    requires forall g | g in groups :: |g.strikeIds| >= n
    requires Distinct(AllIds(groups)) && Elements(AllIds(groups)) <= Free(l)
    ensures BackedBy(Convert(l, groups, unused), n)
    decreases |groups|
  {
    if groups != [] {
      var ids, later := groups[0].strikeIds, AllIds(groups[1..]);
      assert AllIds(groups) == ids + later;
      DistinctParts(ids, later);
      ConvertOneBacks(l, ids, unused[0], n);
      assert FreshIds(ConvertOne(l, ids, unused[0]), unused[1..]);
      ConvertBacks(ConvertOne(l, ids, unused[0]), groups[1..], unused[1..], n);
    }
  }

  function GroupsAt(rows: seq<Strike>, threshold: Option<int>): seq<ConversionGroup>
    requires threshold.Some? ==> threshold.value >= 1
  {
    if threshold.None? then [] else Slices(Available(rows), threshold.value)
  }

  /** Converting what a reading shows backs the new penalties too. */
  lemma ConversionBacks(l: Ledger, rows: seq<Strike>, threshold: Option<int>, unused: seq<Id>, n: nat)
    requires BackedBy(l, n) && IsReading(l, rows) && AtLeast(threshold, n)
    requires FreshIds(l, unused) && |rows| <= |unused|
    ensures |GroupsAt(rows, threshold)| <= |unused|
    ensures BackedBy(Convert(l, GroupsAt(rows, threshold), unused), n)
  {
    if threshold.Some? {
      var groups := Slices(Available(rows), threshold.value);
      var ids := AllIds(groups);
      ReadingShowsFree(l, rows);
      EnoughIds(rows, threshold.value);
      SliceSizes(Available(rows), threshold.value);
      SlicesSpellPrefix(Available(rows), threshold.value);
      assert ids == IdsOf(Available(rows))[..|ids|];
      assert Elements(ids) <= Elements(IdsOf(Available(rows)));
      ConvertBacks(l, groups, unused, n);
    }
  }

  lemma MintingBacks(l: Ledger, minted: seq<Strike>, rows: seq<Strike>, n: nat)
    requires BackedBy(l, n) && Minted(l, minted) && IsReading(l, rows)
    ensures var l' := Ledger(Inserted(l.strikes, minted), l.penalties);
            BackedBy(l', n) && IsReading(l', rows + minted)
  {
    InsertedRows(l.strikes, minted);
    var l' := Ledger(Inserted(l.strikes, minted), l.penalties);
    forall id | id in l'.strikes && id !in l.strikes ensures l'.strikes[id] in minted {
      var s :| s in minted && s.id == id;
      assert l'.strikes[s.id] == s;
    }
    forall p | p in l'.penalties && IsAutomatic(l', p) ensures |ActiveSupporters(l', p)| >= n {
      assert IsAutomatic(l, p);
      assert ActiveSupporters(l', p) == ActiveSupporters(l, p);
    }
  }

  lemma AwardBacks(l: Ledger, minted: seq<Strike>, rows: seq<Strike>, threshold: Option<int>, unused: seq<Id>, n: nat)
    requires BackedBy(l, n) && Minted(l, minted) && IsReading(l, rows) && AtLeast(threshold, n)
    requires FreshIds(l, unused) && |rows| + |minted| <= |unused|
    ensures BackedBy(Awarded(l, minted, rows, threshold, unused), n)
  {
    var l' := Ledger(Inserted(l.strikes, minted), l.penalties);
    MintingBacks(l, minted, rows, n);
    ConversionBacks(l', rows + minted, threshold, unused, n);
    assert MaybeConvert(rows + minted, threshold) == Ok(GroupsAt(rows + minted, threshold));
  }

  /** The strikes a reading counts for a penalty when one of them is revoked. */
  lemma CountedAreActive(l: Ledger, rows: seq<Strike>, strike: Id, penalty: Id)
    requires Keyed(l) && IsReading(l, rows)
    ensures SupportCount(rows, strike, penalty) == |ActiveSupporters(l, penalty) - {strike}|
  {
    SupportCounted(rows, strike, penalty);
    forall id ensures id in SupportIds(rows, strike, penalty) <==> id in ActiveSupporters(l, penalty) - {strike} {
      if id in ActiveSupporters(l, penalty) - {strike} { assert l.strikes[id] in rows; }
    }
    assert SupportIds(rows, strike, penalty) == ActiveSupporters(l, penalty) - {strike};
  }

  /** A revoked strike takes its automatic penalty along exactly if too few active ones are left. */
  lemma FallsIff(l: Ledger, rows: seq<Strike>, penalties: seq<Penalty>, strike: Id, threshold: Option<int>)
    requires Keyed(l) && IsReading(l, rows) && IsPenaltyReading(l, penalties) && strike in l.strikes
    ensures var held := l.strikes[strike].consumedBy;
            Dissolved(rows, penalties, l.strikes[strike], threshold) ==
              if held.Some? && IsAutomatic(l, held.value)
                 && var left := |ActiveSupporters(l, held.value) - {strike}|;
                    left == 0 || (threshold.Some? && left < threshold.value)
              then held else None
  {
    var held := l.strikes[strike].consumedBy;
    if held.Some? {
      FoundPenaltyIs(penalties, held.value);
      assert l.penalties[held.value] in penalties;
      CountedAreActive(l, rows, strike, held.value);
    }
  }

  lemma RemainderBacks(l: Ledger, strike: Id, dissolved: Option<Id>, n: nat)
    requires BackedBy(l, n) && strike in l.strikes
    requires dissolved.Some? ==> dissolved == l.strikes[strike].consumedBy
    requires var held := l.strikes[strike].consumedBy;
             held.Some? && IsAutomatic(l, held.value) && dissolved.None? ==>
               |ActiveSupporters(l, held.value) - {strike}| >= n
    ensures BackedBy(AfterRevoke(l, strike, dissolved), n)
  {
    var l' := AfterRevoke(l, strike, dissolved);
    forall p | p in l'.penalties && IsAutomatic(l', p) ensures |ActiveSupporters(l', p)| >= n {
      assert IsAutomatic(l, p) && dissolved != Some(p);
      assert ActiveSupporters(l', p) == ActiveSupporters(l, p) - {strike};
      if l.strikes[strike].consumedBy != Some(p) { assert ActiveSupporters(l', p) == ActiveSupporters(l, p); }
    }
  }

  lemma DissolvingBacks(l: Ledger, rows: seq<Strike>, penalties: seq<Penalty>, strike: Id, threshold: Option<int>,
                        n: nat)
    requires BackedBy(l, n) && IsReading(l, rows) && IsPenaltyReading(l, penalties) && strike in l.strikes
    requires AtLeast(threshold, n)
    ensures BackedBy(AfterRevoke(l, strike, Dissolved(rows, penalties, l.strikes[strike], threshold)), n)
  {
    FallsIff(l, rows, penalties, strike, threshold);
    RemainderBacks(l, strike, Dissolved(rows, penalties, l.strikes[strike], threshold), n);
  }

  lemma RevokedAre(l: Ledger, strike: Id, rows: seq<Strike>, penalties: seq<Penalty>, threshold: Option<int>,
                   unused: seq<Id>)
    requires Keyed(l) && IsReading(l, rows) && strike in l.strikes && l.strikes[strike].isActive
    requires threshold.Some? ==> threshold.value >= 1
    ensures var dissolved := Dissolved(rows, penalties, l.strikes[strike], threshold);
            var groups := GroupsAt(RecomputedAll(rows, dissolved, strike), threshold);
            |groups| <= |unused| ==>
              Revoked(l, strike, rows, penalties, threshold, unused)
              == Convert(AfterRevoke(l, strike, dissolved), groups, unused)
  {
    FoundIs(rows, strike);
    assert l.strikes[strike] in rows;
    DissolveIs(l, strike, rows, Dissolved(rows, penalties, l.strikes[strike], threshold));
  }

  lemma RevokeBacks(l: Ledger, strike: Id, rows: seq<Strike>, penalties: seq<Penalty>, threshold: Option<int>,
                    unused: seq<Id>, n: nat)
    requires BackedBy(l, n) && IsReading(l, rows) && IsPenaltyReading(l, penalties) && AtLeast(threshold, n)
    requires FreshIds(l, unused) && |rows| <= |unused|
    ensures BackedBy(Revoked(l, strike, rows, penalties, threshold, unused), n)
  {
    FoundIs(rows, strike);
    if strike in l.strikes && l.strikes[strike].isActive {
      var dissolved := Dissolved(rows, penalties, l.strikes[strike], threshold);
      DissolvingBacks(l, rows, penalties, strike, threshold, n);
      RecomputedIsReading(l, strike, rows, dissolved);
      ConversionBacks(AfterRevoke(l, strike, dissolved), RecomputedAll(rows, dissolved, strike), threshold, unused, n);
      RevokedAre(l, strike, rows, penalties, threshold, unused);
    }
  }

  lemma CommandBacks(l: Ledger, c: Command, threshold: Option<int>, n: nat)
    requires BackedBy(l, n) && Possible(l, c) && AtLeast(threshold, n)
    ensures BackedBy(ExecuteAt(l, c, threshold), n)
  {
    match c
    case AwardStrikes(minted, rows, unused) => AwardBacks(l, minted, rows, threshold, unused, n);
    case RevokeStrike(strike, rows, penalties, unused) => RevokeBacks(l, strike, rows, penalties, threshold, unused, n);
    case _ => PenaltyCommandBacks(l, c, n);
  }

  lemma PenaltyCommandBacks(l: Ledger, c: Command, n: nat)
    requires BackedBy(l, n) && (c.AwardPenalty? || c.RevokePenalty?)
    requires c.AwardPenalty? ==> c.penalty !in l.penalties
    ensures BackedBy(Execute(l, c, 0), n)
  {
    var l' := Execute(l, c, 0);
    forall p | p in l'.penalties && IsAutomatic(l', p) ensures |ActiveSupporters(l', p)| >= n {
      assert IsAutomatic(l, p);
      assert ActiveSupporters(l', p) == ActiveSupporters(l, p);
    }
  }

  // ---------------------------------------------------------------- every run

  const OPENING := Office(EMPTY, Unset)

  /** The run, from empty tables and no setting, through these states. */
  ghost predicate Passes(run: seq<Change>, offices: seq<Office>) {
    && |offices| == |run| + 1
    && offices[0] == OPENING
    && forall i | 0 <= i < |run| :: IsPossible(offices[i], run[i]) && offices[i + 1] == Next(offices[i], run[i])
  }

  /** A setting the commands can live with. */
  predicate IsValid(s: Setting) {
    s.PerPenalty? ==> s.n >= 1
  }

  /** Whatever the setting was along the way, no automatic penalty in force is ever without an active strike. */
  lemma {:induction false} NoneIsUnsupported(run: seq<Change>, offices: seq<Office>, i: nat)
    requires Passes(run, offices) && i <= |run|
    ensures BackedBy(offices[i].ledger, 1) && IsValid(offices[i].setting)
  {
    if i > 0 {
      NoneIsUnsupported(run, offices, i - 1);
      var o := offices[i - 1];
      if run[i - 1].Do? { CommandBacks(o.ledger, run[i - 1].command, InForce(o.setting), 1); }
    }
  }

  /** The one step that can make the query report: asking more strikes than some penalty in force stands on. */
  predicate Outgrows(o: Office, c: Change) {
    c.Store? && exists p :: p in o.ledger.penalties && IsReported(o.(setting := c.setting), p)
  }

  lemma StepStaysCleanIff(o: Office, c: Change)
    requires BackedBy(o.ledger, 1) && IsValid(o.setting) && IsPossible(o, c) && IsClean(o)
    ensures IsClean(Next(o, c)) <==> !Outgrows(o, c)
  {
    if c.Do? {
      assert BackedBy(o.ledger, Compared(o.setting)) by {
        forall p | p in o.ledger.penalties && IsAutomatic(o.ledger, p)
          ensures |ActiveSupporters(o.ledger, p)| >= Compared(o.setting)
        {
          assert !IsReported(o, p);
        }
      }
      CommandBacks(o.ledger, c.command, InForce(o.setting), Compared(o.setting));
    }
  }

  lemma {:induction false} StaysClean(run: seq<Change>, offices: seq<Office>, i: nat)
    requires Passes(run, offices) && i <= |run| && forall j | 0 <= j < i :: !Outgrows(offices[j], run[j])
    ensures IsClean(offices[i])
  {
    if i > 0 {
      StaysClean(run, offices, i - 1);
      NoneIsUnsupported(run, offices, i - 1);
      StepStaysCleanIff(offices[i - 1], run[i - 1]);
    }
  }

  /**
   Over every run of commands and settings, the query has reported no penalty all along if and only if the
   setting was never raised above what a penalty in force stands on.
   */
  lemma CleanIffNeverOutgrown(run: seq<Change>, offices: seq<Office>, i: nat)
    requires Passes(run, offices) && i <= |run|
    ensures (forall j | 0 <= j <= i :: IsClean(offices[j]))
       <==> (forall j | 0 <= j < i :: !Outgrows(offices[j], run[j]))
  {
    if forall j | 0 <= j < i :: !Outgrows(offices[j], run[j]) {
      forall j | 0 <= j <= i ensures IsClean(offices[j]) { StaysClean(run, offices, j); }
    } else {
      var j :| 0 <= j < i && Outgrows(offices[j], run[j]);
      NoneIsUnsupported(run, offices, j);
      if IsClean(offices[j]) { StepStaysCleanIff(offices[j], run[j]); }
      assert !IsClean(offices[j]) || !IsClean(offices[j + 1]);
    }
  }

  /** Lowering the setting, blanking it, or setting it to one never makes the query report. */
  lemma LoweringIsHarmless(run: seq<Change>, offices: seq<Office>, i: nat)
    requires Passes(run, offices) && i < |run| && run[i].Store? && IsClean(offices[i])
    requires Compared(run[i].setting) <= Compared(offices[i].setting) || Compared(run[i].setting) <= 1
    ensures !Outgrows(offices[i], run[i])
  {
    NoneIsUnsupported(run, offices, i);
  }

  // ---------------------------------------------------------------- a run the query reports

  const RAISED: seq<Change> := [Store(PerPenalty(1)), Do(AWARD_THEN_LIFT[0]), Store(PerPenalty(2))]

  const RAISED_THROUGH := [OPENING, Office(EMPTY, PerPenalty(1)), Office(PENALISED, PerPenalty(1)),
                           Office(PENALISED, PerPenalty(2))]

  /** One strike makes a penalty while one is enough; asking two of it afterwards makes the query list it. */
  lemma RaisingReports()
    ensures Passes(RAISED, RAISED_THROUGH)
    ensures IsClean(RAISED_THROUGH[2]) && IsReported(RAISED_THROUGH[3], 10)
  {
    PardonLeavesBelowFloor();
    assert [EMPTY, PENALISED, PARDONED][0] == EMPTY && [EMPTY, PENALISED, PARDONED][1] == PENALISED;
    assert ActiveSupporters(PENALISED, 10) == {1};
  }
}
