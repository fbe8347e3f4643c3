/** Which disciplines and programme facts a rule may match a student on (backend/app/domain/pathways.py). */
module Pathways {
  import opened Common
  import opened Domain
  import opened RuleSchema

  datatype Structure = SingleProgram | DualMajor | DualDegree

  const PRIMARY_DISCIPLINE_YEAR := 3
  const SECOND_DISCIPLINE_YEAR := 4

  /** The profile columns joined with its programme's: no structure means no programme, or one of unknown shape. */
  datatype Enrollment = Enrollment(program: Option<Id>, structure: Option<Structure>, primaryDegree: Option<Id>,
                                   secondaryDegree: Option<Id>, primaryBranch: Option<Id>, secondaryBranch: Option<Id>,
                                   studyYear: Option<int>, yearSession: Option<int>)

  function Known(ids: seq<Option<Id>>): set<Id> {
    set i | 0 <= i < |ids| && ids[i].Some? :: ids[i].value
  }

  /** None is "cannot be known yet", not "no disciplines". */
  function EligibleDisciplines(p: Enrollment, role: Option<Role>, session: Option<int>): Option<set<Id>> {
    if p.structure.None? then None
    else
      match p.structure.value
      case DualDegree => if p.secondaryBranch.Some? then Some({p.secondaryBranch.value}) else None
      case SingleProgram => if p.primaryBranch.Some? then Some({p.primaryBranch.value}) else None
      case DualMajor =>
        if p.primaryBranch.None? then None
        else if role == Some(Placement) then Some(Known([p.primaryBranch, p.secondaryBranch]))
        else if role != Some(Internship) then None
        else if p.studyYear.None? || session.None? || p.yearSession != session then None
        else if p.studyYear.value < PRIMARY_DISCIPLINE_YEAR then Some({})
        else if p.studyYear.value < SECOND_DISCIPLINE_YEAR || p.secondaryBranch.None? then Some({p.primaryBranch.value})
        else Some({p.primaryBranch.value, p.secondaryBranch.value})
  }

  datatype DerivedFacts = DerivedFacts(legacyProgram: Option<Id>, components: Option<set<Id>>, currentYear: Option<int>,
                                       disciplines: Option<set<Id>>, dualMajor: bool, dualDegree: bool,
                                       secondaryProgram: Option<Id>)

  function Components(p: Enrollment): Option<set<Id>> {
    match p.structure
    case None => None
    case Some(SingleProgram) => if p.program.Some? then Some({p.program.value}) else None
    case Some(_) =>
      if p.primaryDegree.Some? && p.secondaryDegree.Some? then Some({p.primaryDegree.value, p.secondaryDegree.value})
      else None
  }

  function DerivedRuleFacts(p: Enrollment, role: Option<Role>, session: Option<int>): DerivedFacts {
    DerivedFacts(if p.structure == Some(SingleProgram) then p.program else p.primaryDegree,
                 Components(p),
                 if session.Some? && p.yearSession == session then p.studyYear else None,
                 EligibleDisciplines(p, role, session),
                 p.structure == Some(DualMajor), p.structure == Some(DualDegree), p.secondaryDegree)
  }

  // ---------------------------------------------------------------- as rule facts

  function IdFact(id: Option<Id>): Fact {
    if id.Some? then Single(Uuid(id.value)) else Absent
  }

  function SetFact(ids: Option<set<Id>>): Fact {
    if ids.Some? then Set(set id | id in ids.value :: Uuid(id)) else Absent
  }

  function YearFact(year: Option<int>): Fact {
    if year.Some? then Single(Whole(year.value)) else Absent
  }

  /** The facts a rule sees: the profile's columns, overlaid with what is derived. */
  function WithDerived(columns: Facts, d: DerivedFacts): Facts {
    columns[LegacyProgramId := IdFact(d.legacyProgram)]
           [ComponentProgramIds := SetFact(d.components)]
           [CurrentStudyYear := YearFact(d.currentYear)]
           [ByField(DisciplineId) := SetFact(d.disciplines)]
           [ByField(IsDualMajor) := Single(Flag(d.dualMajor))]
           [ByField(IsDualDegree) := Single(Flag(d.dualDegree))]
           [ByField(SecondaryProgramId) := IdFact(d.secondaryProgram)]
  }

  // ---------------------------------------------------------------- what the answer promises

  /** A student is only ever matched on disciplines of their own, and a dual degree on its postgraduate one alone. */
  lemma DisciplinesAreOwn(p: Enrollment, role: Option<Role>, session: Option<int>)
    requires EligibleDisciplines(p, role, session).Some?
    ensures EligibleDisciplines(p, role, session).value <= Known([p.primaryBranch, p.secondaryBranch])
    ensures p.structure == Some(DualDegree) ==>
        EligibleDisciplines(p, role, session).value == Known([p.secondaryBranch])
  {
    var own := [p.primaryBranch, p.secondaryBranch];
    assert own[0] == p.primaryBranch && own[1] == p.secondaryBranch;
    assert [p.secondaryBranch][0] == p.secondaryBranch;
  }

  /** The discipline that must be on record before a student can be matched. */
  function NeededBranch(p: Enrollment): Option<Id> {
    if p.structure == Some(DualDegree) then p.secondaryBranch else p.primaryBranch
  }

  /**
   When the answer is known: the structure and the needed discipline are, and for a dual major's internships
   also the year of study of the session in question; nothing is known of a dual major outside both kinds.
   */
  lemma KnownIff(p: Enrollment, role: Option<Role>, session: Option<int>)
    ensures EligibleDisciplines(p, role, session).Some? <==>
              && p.structure.Some? && NeededBranch(p).Some?
              && (p.structure == Some(DualMajor) ==>
                    || role == Some(Placement)
                    || (role == Some(Internship) && p.studyYear.Some? && session.Some? && p.yearSession == session))
  {
  }

  /**
   What it then is: the needed discipline, for a dual major's placements both, and for their internships as
   many as the year has opened.
   */
  lemma DisciplinesAre(p: Enrollment, role: Option<Role>, session: Option<int>)
    requires EligibleDisciplines(p, role, session).Some?
    ensures var answer := EligibleDisciplines(p, role, session).value;
            if p.structure != Some(DualMajor) then answer == {NeededBranch(p).value}
            else
              && (p.primaryBranch.value in answer <==> role == Some(Placement) || p.studyYear.value >= 3)
              && forall b :: b in answer && b != p.primaryBranch.value <==>
                   && p.secondaryBranch == Some(b) && b != p.primaryBranch.value
                   && (role == Some(Placement) || p.studyYear.value >= 4)
  {
    var own := [p.primaryBranch, p.secondaryBranch];
    assert own[0] == p.primaryBranch && own[1] == p.secondaryBranch;
  }

  predicate Extends<T(==)>(blank: Option<T>, filled: Option<T>) {
    blank.Some? ==> filled == blank
  }

  /** The same enrolment with possibly more of its profile filled in. */
  predicate FillsIn(p: Enrollment, q: Enrollment) {
    && q.structure == p.structure
    && Extends(p.primaryBranch, q.primaryBranch) && Extends(p.secondaryBranch, q.secondaryBranch)
    && Extends(p.studyYear, q.studyYear) && Extends(p.yearSession, q.yearSession)
  }

  /** Filling in a blank never withdraws a known discipline, and never makes a known answer unknown. */
  lemma FillingInOnlyAdds(p: Enrollment, q: Enrollment, role: Option<Role>, session: Option<int>)
    requires FillsIn(p, q) && EligibleDisciplines(p, role, session).Some?
    ensures EligibleDisciplines(q, role, session).Some?
    ensures EligibleDisciplines(p, role, session).value <= EligibleDisciplines(q, role, session).value
  {
    var mine, theirs := [p.primaryBranch, p.secondaryBranch], [q.primaryBranch, q.secondaryBranch];
    assert theirs[0] == q.primaryBranch && theirs[1] == q.secondaryBranch;
  }

  /** A later year of study only opens disciplines: none before third year, the second from fourth year on. */
  lemma DisciplinesOpenByYear(p: Enrollment, later: int, session: Option<int>)
    requires p.structure == Some(DualMajor) && p.primaryBranch.Some? && p.studyYear.Some?
    requires session.Some? && p.yearSession == session && p.studyYear.value <= later
    ensures var answer := (year: int) => EligibleDisciplines(p.(studyYear := Some(year)), Some(Internship), session);
            && answer(p.studyYear.value).Some? && answer(later).Some?
            && answer(p.studyYear.value).value <= answer(later).value
            && (p.primaryBranch.value in answer(later).value <==> later >= PRIMARY_DISCIPLINE_YEAR)
            && (p.secondaryBranch.Some? && p.secondaryBranch != p.primaryBranch ==>
                  (p.secondaryBranch.value in answer(later).value <==> later >= SECOND_DISCIPLINE_YEAR))
  {
    var years := p.(studyYear := Some(later));
    assert EligibleDisciplines(years, Some(Internship), session).Some?;
  }

  /** A year recorded for another session says nothing, to an internship rule as to a year rule. */
  lemma StaleYearIsUnknown(p: Enrollment, session: Option<int>)
    requires session.None? || p.yearSession != session
    ensures DerivedRuleFacts(p, Some(Internship), session).currentYear.None?
    ensures p.structure == Some(DualMajor) ==> DerivedRuleFacts(p, Some(Internship), session).disciplines.None?
  {
  }
}
