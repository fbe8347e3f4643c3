/** Finalising a round (backend/app/domain/transitions.py:532-584). */
module RoundFinalization {
  import opened Common
  import opened Sorting
  import opened Domain
  import opened Transitions

  datatype RoundResult = PendingResult | Advanced | Eliminated

  datatype Attendance = PendingAttendance | Present | Absent | Excused

  datatype RoundRow = RoundRow(application: Id, status: ApplicationStatus, result: RoundResult, attendance: Attendance)

  datatype Cause = ByAbsence | ByExcuse

  datatype Finalization = Finalization(application: Id, attendance: Attendance, result: RoundResult,
                                       status: ApplicationStatus, strike: bool, cause: Cause)

  function RowKey(r: RoundRow): Key {
    (r.application, 0)
  }

  function ActionOn(r: RoundRow, strikeOnAbsence: bool): seq<Finalization> {
    if !r.status.InProgress? || !r.result.PendingResult? || r.attendance.Present? then []
    else if r.attendance.Excused? then [Finalization(r.application, Excused, Eliminated, Rejected, false, ByExcuse)]
    else [Finalization(r.application, Absent, Eliminated, Rejected, strikeOnAbsence, ByAbsence)]
  }

  function ActionsOn(rows: seq<RoundRow>, strikeOnAbsence: bool): seq<Finalization> {
    if rows == [] then []
    else ActionsOn(rows[..|rows| - 1], strikeOnAbsence) + ActionOn(rows[|rows| - 1], strikeOnAbsence)
  }

  method DecideRoundFinalization(rows: seq<RoundRow>, strikeOnAbsence: bool) returns (actions: seq<Finalization>)
    ensures actions == ActionsOn(Sorted(RowKey, rows), strikeOnAbsence)
  {
    actions := [];
    var ordered := Sorted(RowKey, rows);
    for i := 0 to |ordered|
      invariant actions == ActionsOn(ordered[..i], strikeOnAbsence)
    {
      var r := ordered[i];
      assert ordered[..i + 1][..i] == ordered[..i];
      if !r.status.InProgress? || !r.result.PendingResult? || r.attendance.Present? { continue; }
      if r.attendance.PendingAttendance? || r.attendance.Absent? {
        actions := actions + [Finalization(r.application, Absent, Eliminated, Rejected, strikeOnAbsence, ByAbsence)];
      } else if r.attendance.Excused? {
        actions := actions + [Finalization(r.application, Excused, Eliminated, Rejected, false, ByExcuse)];
      }
    }
    assert ordered[..|ordered|] == ordered;
  }

  // ---------------------------------------------------------------- what finalising means

  /** Still undecided when the round closes, and not marked present. */
  predicate LeftUndecided(r: RoundRow) {
    r.status.InProgress? && r.result.PendingResult? && !r.attendance.Present?
  }

  /** The row once the round is closed. */
  function Closed(r: RoundRow): RoundRow {
    if LeftUndecided(r)
    then r.(status := Rejected, result := Eliminated, attendance := if r.attendance.Excused? then Excused else Absent)
    else r
  }

  function AsRow(f: Finalization): RoundRow {
    RoundRow(f.application, f.status, f.result, f.attendance)
  }

  lemma {:induction false} ActionsAre(rows: seq<RoundRow>, strikeOnAbsence: bool, f: Finalization)
    ensures f in ActionsOn(rows, strikeOnAbsence) <==> exists r :: r in rows && f in ActionOn(r, strikeOnAbsence)
  {
    if rows != [] {
      ActionsAre(rows[..|rows| - 1], strikeOnAbsence, f);
      assert rows == rows[..|rows| - 1] + [rows[|rows| - 1]];
    }
  }

  lemma ActionOnIs(r: RoundRow, strikeOnAbsence: bool, f: Finalization, context: TransitionContext)
    ensures f in ActionOn(r, strikeOnAbsence) <==>
              LeftUndecided(r) && AsRow(f) == Closed(r)
              && f.strike == (strikeOnAbsence && !r.attendance.Excused?)
              && (f.cause.ByExcuse? <==> r.attendance.Excused?)
    ensures f in ActionOn(r, strikeOnAbsence) ==>
              Decision(Eliminate, Move(Some(InProgress), f.status, Staff, context, false), true) == Allowed
  {
  }

  /**
   Exactly the undecided rows are closed, each by a staff-legal elimination; a strike falls exactly on an unexcused
   absence.
   */
  lemma FinalizationContract(rows: seq<RoundRow>, strikeOnAbsence: bool, f: Finalization, context: TransitionContext)
    ensures f in ActionsOn(Sorted(RowKey, rows), strikeOnAbsence) <==>
              exists r :: r in rows && LeftUndecided(r) && AsRow(f) == Closed(r)
                && f.strike == (strikeOnAbsence && !r.attendance.Excused?)
                && (f.cause.ByExcuse? <==> r.attendance.Excused?)
    ensures f in ActionsOn(Sorted(RowKey, rows), strikeOnAbsence) ==>
              Decision(Eliminate, Move(Some(InProgress), f.status, Staff, context, false), true) == Allowed
  {
    SortedContents(RowKey, rows);
    ActionsAre(Sorted(RowKey, rows), strikeOnAbsence, f);
    forall r { ActionOnIs(r, strikeOnAbsence, f, context); }
  }

  /** The order rows are read in does not matter. */
  lemma FinalizationIgnoresOrder(rows: seq<RoundRow>, again: seq<RoundRow>, strikeOnAbsence: bool)
    requires multiset(rows) == multiset(again)
    requires OneRowEach(rows)
    ensures ActionsOn(Sorted(RowKey, rows), strikeOnAbsence) == ActionsOn(Sorted(RowKey, again), strikeOnAbsence)
  {
    assert KeysDiffer(RowKey, rows);
    SortedIgnoresOrder(RowKey, rows, again);
  }

  /** One row for each application. */
  ghost predicate OneRowEach(rows: seq<RoundRow>) {
    forall i, j | 0 <= i < j < |rows| :: rows[i].application != rows[j].application
  }

  lemma {:induction false} ActionsBelow(rows: seq<RoundRow>, strikeOnAbsence: bool, x: Id)
    requires forall i | 0 <= i < |rows| :: rows[i].application < x
    ensures forall f | f in ActionsOn(rows, strikeOnAbsence) :: f.application < x
  {
    if rows != [] { ActionsBelow(rows[..|rows| - 1], strikeOnAbsence, x); }
  }

  ghost predicate InIdOrder(actions: seq<Finalization>) {
    forall i, j | 0 <= i < j < |actions| :: actions[i].application < actions[j].application
  }

  lemma InIdOrderOn(earlier: seq<Finalization>, mine: seq<Finalization>, x: Id)
    requires InIdOrder(earlier) && |mine| <= 1 && (mine != [] ==> mine[0].application == x)
    requires forall f | f in earlier :: f.application < x
    ensures InIdOrder(earlier + mine)
  {
  }

  lemma {:induction false} ActionsAscend(rows: seq<RoundRow>, strikeOnAbsence: bool)
    requires forall i, j | 0 <= i < j < |rows| :: rows[i].application < rows[j].application
    ensures InIdOrder(ActionsOn(rows, strikeOnAbsence))
  {
    if rows != [] {
      var before, last := rows[..|rows| - 1], rows[|rows| - 1];
      ActionsAscend(before, strikeOnAbsence);
      ActionsBelow(before, strikeOnAbsence, last.application);
      InIdOrderOn(ActionsOn(before, strikeOnAbsence), ActionOn(last, strikeOnAbsence), last.application);
    }
  }

  /** The actions come in the order of their applications' ids. */
  lemma FinalizationOrder(rows: seq<RoundRow>, strikeOnAbsence: bool)
    requires OneRowEach(rows)
    ensures InIdOrder(ActionsOn(Sorted(RowKey, rows), strikeOnAbsence))
  {
    var ordered := Sorted(RowKey, rows);
    SortedContents(RowKey, rows);
    SortedAscends(RowKey, rows);
    KeysDifferSameContents(RowKey, rows, ordered);
    forall i, j | 0 <= i < j < |ordered| ensures ordered[i].application < ordered[j].application {
      assert RowKey(ordered[i]) != RowKey(ordered[j]) && AtMost(RowKey(ordered[i]), RowKey(ordered[j]));
    }
    ActionsAscend(ordered, strikeOnAbsence);
  }

  function ClosedAll(rows: seq<RoundRow>): seq<RoundRow> {
    seq(|rows|, i requires 0 <= i < |rows| => Closed(rows[i]))
  }

  lemma {:induction false} NothingUndecided(rows: seq<RoundRow>, strikeOnAbsence: bool)
    requires forall r | r in rows :: !LeftUndecided(r)
    ensures ActionsOn(rows, strikeOnAbsence) == []
  {
    if rows != [] {
      NothingUndecided(rows[..|rows| - 1], strikeOnAbsence);
      assert rows[|rows| - 1] in rows;
    }
  }

  /** A closed round has nothing left to finalise. */
  lemma FinalizingAgainIsEmpty(rows: seq<RoundRow>, strikeOnAbsence: bool)
    ensures ActionsOn(Sorted(RowKey, ClosedAll(rows)), strikeOnAbsence) == []
  {
    SortedContents(RowKey, ClosedAll(rows));
    NothingUndecided(Sorted(RowKey, ClosedAll(rows)), strikeOnAbsence);
  }
}
