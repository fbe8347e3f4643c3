/**
 Migration 0017: from dual-enrolment flags on profiles to the structure of the programme
 (backend/alembic/versions/0017_program_structure.py).
 */
module Migration0017 {
  import opened Common
  import opened RuleSchema
  import opened Pathways

  /** A combined programme: one dual major per base degree, one dual degree per pair. */
  datatype Combo = MajorOf(base: Id) | DegreeOf(undergraduate: Id, postgraduate: Id)

  /** The ids derived from component ids by hashing, and what each such id was derived from. */
  datatype Minting = Minting(major: Id -> Id, degree: (Id, Id) -> Id, origin: Id -> Option<Combo>) {
    function IdOf(c: Combo): Id {
      match c
      case MajorOf(b) => major(b)
      case DegreeOf(u, g) => degree(u, g)
    }

    /** No two combined programmes share an id. */
    ghost predicate CollisionFree() {
      && (forall c :: origin(IdOf(c)) == Some(c))
      && forall id | origin(id).Some? :: IdOf(origin(id).value) == id
    }

    /** The id is that of one of these combined programmes. */
    predicate Minted(id: Id, used: set<Combo>) {
      origin(id).Some? && origin(id).value in used
    }
  }

  /** Before the upgrade the structure columns do not exist; their values then mean nothing. */
  datatype Program = Program(name: string, structure: Structure, primary: Option<Id>, secondary: Option<Id>)

  datatype Flags = Flags(dualMajor: bool, dualDegree: bool, secondary: Option<Id>)

  /** No flags: the columns have been dropped. `columns` are those the migration does not touch. */
  datatype Profile = Profile(program: Option<Id>, flags: Option<Flags>, columns: Facts, yearSession: Option<int>)

  /** A staged row's programme fields, where they are well-formed identifiers. */
  datatype StagedRow = StagedRow(applied: bool, dualMajor: bool, dualDegree: bool, program: Option<Id>,
                                 secondary: Option<Id>)

  type Programs = map<Id, Program>

  type Profiles = map<Id, Profile>

  datatype Tables = Tables(programs: Programs, profiles: Profiles, branches: set<(Id, Id)>, staged: seq<StagedRow>)

  predicate HoldsDualMajor(p: Profile) {
    p.flags.Some? && p.flags.value.dualMajor
  }

  predicate HoldsDualDegree(p: Profile) {
    p.flags.Some? && p.flags.value.dualDegree
  }

  predicate IsDual(p: Profile) {
    HoldsDualMajor(p) || HoldsDualDegree(p)
  }

  predicate HasSecondBranch(p: Profile) {
    !Lookup(p.columns, ByField(SecondaryBranchId)).Absent?
  }

  /**
   The check constraints that live with the flags: one dual kind, a second programme exactly for dual degrees, a
   second branch only for duals.
   */
  predicate FlagsAgree(p: Profile) {
    && p.flags.Some?
    && !(p.flags.value.dualMajor && p.flags.value.dualDegree)
    && (p.flags.value.dualDegree <==> p.flags.value.secondary.Some?)
    && (HasSecondBranch(p) ==> IsDual(p))
  }

  /** The table constraints before the upgrade: agreeing flags and foreign keys. */
  predicate OldConstraints(t: Tables) {
    forall id | id in t.profiles ::
      var p := t.profiles[id];
      && FlagsAgree(p)
      && (p.program.Some? ==> p.program.value in t.programs)
      && (p.flags.value.secondary.Some? ==> p.flags.value.secondary.value in t.programs)
  }

  // ---------------------------------------------------------------- what is minted

  function AllSingle(programs: Programs): Programs {
    map id | id in programs :: programs[id].(structure := SingleProgram, primary := None, secondary := None)
  }

  function ComboOf(p: Profile): Option<Combo> {
    if p.program.None? || p.flags.None? then None
    else if p.flags.value.dualMajor then Some(MajorOf(p.program.value))
    else if p.flags.value.dualDegree && p.flags.value.secondary.Some? then
      Some(DegreeOf(p.program.value, p.flags.value.secondary.value))
    else None
  }

  predicate ComponentsExist(programs: Programs, c: Combo) {
    match c
    case MajorOf(b) => b in programs
    case DegreeOf(u, g) => u in programs && g in programs
  }

  /** The dual majors some profile or unapplied staged row is in, over a programme that exists. */
  function UsedMajors(t: Tables, programs: Programs): set<Combo> {
    (set id | id in t.profiles && HoldsDualMajor(t.profiles[id]) && t.profiles[id].program.Some?
              && t.profiles[id].program.value in programs
       :: MajorOf(t.profiles[id].program.value))
    + set i | 0 <= i < |t.staged| && !t.staged[i].applied && t.staged[i].dualMajor && t.staged[i].program.Some?
              && t.staged[i].program.value in programs
        :: MajorOf(t.staged[i].program.value)
  }

  function UsedDegrees(t: Tables, programs: Programs): set<Combo> {
    (set id | id in t.profiles && HoldsDualDegree(t.profiles[id]) && t.profiles[id].program.Some?
              && t.profiles[id].flags.value.secondary.Some?
              && t.profiles[id].program.value in programs && t.profiles[id].flags.value.secondary.value in programs
       :: DegreeOf(t.profiles[id].program.value, t.profiles[id].flags.value.secondary.value))
    + set i | 0 <= i < |t.staged| && !t.staged[i].applied && t.staged[i].dualDegree
              && t.staged[i].program.Some? && t.staged[i].secondary.Some?
              && t.staged[i].program.value in programs && t.staged[i].secondary.value in programs
        :: DegreeOf(t.staged[i].program.value, t.staged[i].secondary.value)
  }

  function ComboName(programs: Programs, c: Combo): string
    requires ComponentsExist(programs, c)
  {
    match c
    case MajorOf(b) => programs[b].name + " Dual Major"
    case DegreeOf(u, g) => programs[u].name + "\U{2013}" + programs[g].name + " Dual Degree"
  }

  function Combined(programs: Programs, c: Combo): Program
    requires ComponentsExist(programs, c)
  {
    match c
    case MajorOf(b) => Program(ComboName(programs, c), DualMajor, Some(b), Some(b))
    case DegreeOf(u, g) => Program(ComboName(programs, c), DualDegree, Some(u), Some(g))
  }

  /** The table after these combined programmes were inserted, or written over a row with their id. */
  ghost function WithCombos(m: Minting, programs: Programs, used: set<Combo>): Programs
    requires m.CollisionFree() && forall c | c in used :: ComponentsExist(programs, c)
  {
    map id | id in programs.Keys + (set c | c in used :: m.IdOf(c)) ::
      if m.Minted(id, used) then Combined(programs, m.origin(id).value) else programs[id]
  }

  /** No combined name is taken, by another row or another combined programme. */
  ghost predicate NamesFree(m: Minting, programs: Programs, used: set<Combo>)
    requires forall c | c in used :: ComponentsExist(programs, c)
  {
    && (forall c, id | c in used && id in programs && id != m.IdOf(c) :: programs[id].name != ComboName(programs, c))
    && forall c, d | c in used && d in used && c != d :: ComboName(programs, c) != ComboName(programs, d)
  }

  lemma UsedExist(t: Tables, programs: Programs)
    ensures forall c | c in UsedMajors(t, programs) + UsedDegrees(t, programs) :: ComponentsExist(programs, c)
    ensures forall c | c in UsedMajors(t, programs) :: c.MajorOf?
    ensures forall c | c in UsedDegrees(t, programs) :: c.DegreeOf?
  {
  }

  /** The programmes after both inserts. */
  ghost function MajorsMinted(m: Minting, t: Tables): Programs
    requires m.CollisionFree()
  {
    UsedExist(t, AllSingle(t.programs));
    WithCombos(m, AllSingle(t.programs), UsedMajors(t, AllSingle(t.programs)))
  }

  ghost function AllMinted(m: Minting, t: Tables): Programs
    requires m.CollisionFree()
  {
    UsedExist(t, MajorsMinted(m, t));
    WithCombos(m, MajorsMinted(m, t), UsedDegrees(t, MajorsMinted(m, t)))
  }

  /** Every combined programme the upgrade mints for these tables. */
  ghost function UsedCombos(m: Minting, t: Tables): set<Combo>
    requires m.CollisionFree()
  {
    UsedMajors(t, AllSingle(t.programs)) + UsedDegrees(t, MajorsMinted(m, t))
  }

  ghost predicate AllNamesFree(m: Minting, t: Tables)
    requires m.CollisionFree()
  {
    UsedExist(t, AllSingle(t.programs));
    UsedExist(t, MajorsMinted(m, t));
    && NamesFree(m, AllSingle(t.programs), UsedMajors(t, AllSingle(t.programs)))
    && NamesFree(m, MajorsMinted(m, t), UsedDegrees(t, MajorsMinted(m, t)))
  }

  // ---------------------------------------------------------------- what becomes of a profile

  function UpgradedProfile(m: Minting, p: Profile): Profile {
    p.(program := if ComboOf(p).Some? then Some(m.IdOf(ComboOf(p).value)) else p.program, flags := None)
  }

  /** A dual profile that names no programme cannot be carried across. */
  predicate Stranded(p: Profile) {
    IsDual(p) && p.program.None?
  }

  function Inherited(programs: Programs, branches: set<(Id, Id)>): set<(Id, Id)> {
    set c, b | c in programs && b in branches && !programs[c].structure.SingleProgram?
               && (programs[c].primary == Some(b.0) || programs[c].secondary == Some(b.0))
      :: (c, b.1)
  }

  /** The tables a completed upgrade leaves, row by row. */
  ghost function Upgraded(m: Minting, t: Tables): Tables
    requires m.CollisionFree()
  {
    Tables(AllMinted(m, t), map id | id in t.profiles :: UpgradedProfile(m, t.profiles[id]),
           t.branches + Inherited(AllMinted(m, t), t.branches), t.staged)
  }

  // ---------------------------------------------------------------- repointing finds its own programme

  /** The join condition of the repointing updates. */
  predicate Joins(programs: Programs, kind: Structure, p: Profile, c: Id) {
    && c in programs && programs[c].structure == kind
    && p.program.Some? && programs[c].primary == p.program
    && p.flags.Some?
    && match kind
       case SingleProgram => false
       case DualMajor => p.flags.value.dualMajor
       case DualDegree =>
         p.flags.value.dualDegree && p.flags.value.secondary.Some? && programs[c].secondary == p.flags.value.secondary
  }

  /** A combined row's id is the one minted from its own components. */
  predicate OwnsId(m: Minting, c: Id, row: Program) {
    match row.structure
    case SingleProgram => true
    case DualMajor => row.primary.Some? && row.secondary == row.primary && c == m.major(row.primary.value)
    case DualDegree => row.primary.Some? && row.secondary.Some? && c == m.degree(row.primary.value, row.secondary.value)
  }

  lemma CombosOwnIds(m: Minting, programs: Programs, used: set<Combo>)
    requires m.CollisionFree() && forall c | c in used :: ComponentsExist(programs, c)
    requires forall id | id in programs :: OwnsId(m, id, programs[id])
    ensures forall id | id in WithCombos(m, programs, used) :: OwnsId(m, id, WithCombos(m, programs, used)[id])
  {
    var after := WithCombos(m, programs, used);
    forall id | id in after ensures OwnsId(m, id, after[id]) {
      if c :| c in used && m.IdOf(c) == id {
        assert after[id] == Combined(programs, c);
      }
    }
  }

  lemma MintedOwnIds(m: Minting, t: Tables)
    requires m.CollisionFree()
    ensures forall id | id in AllMinted(m, t) :: OwnsId(m, id, AllMinted(m, t)[id])
  {
    UsedExist(t, AllSingle(t.programs));
    UsedExist(t, MajorsMinted(m, t));
    CombosOwnIds(m, AllSingle(t.programs), UsedMajors(t, AllSingle(t.programs)));
    CombosOwnIds(m, MajorsMinted(m, t), UsedDegrees(t, MajorsMinted(m, t)));
  }

  function KindOf(c: Combo): Structure {
    if c.MajorOf? then DualMajor else DualDegree
  }

  predicate SharesComponents(row: Program, c: Combo) {
    match c
    case MajorOf(b) => row.structure.DualMajor? && row.primary == Some(b) && row.secondary == Some(b)
    case DegreeOf(u, g) => row.structure.DualDegree? && row.primary == Some(u) && row.secondary == Some(g)
  }

  lemma ComboIsUsed(m: Minting, t: Tables, id: Id)
    requires m.CollisionFree() && OldConstraints(t) && id in t.profiles && ComboOf(t.profiles[id]).Some?
    ensures var c := ComboOf(t.profiles[id]).value;
            if c.MajorOf? then c in UsedMajors(t, AllSingle(t.programs)) else c in UsedDegrees(t, MajorsMinted(m, t))
  {
    UsedExist(t, AllSingle(t.programs));
    var p := t.profiles[id];
    assert p.program.value in t.programs;
  }

  /** The combined programme of a dual profile exists after the inserts, with that profile's components. */
  lemma OwnComboIsMinted(m: Minting, t: Tables, id: Id)
    requires m.CollisionFree() && OldConstraints(t) && id in t.profiles && ComboOf(t.profiles[id]).Some?
    ensures var c := ComboOf(t.profiles[id]).value;
            m.IdOf(c) in AllMinted(m, t) && SharesComponents(AllMinted(m, t)[m.IdOf(c)], c)
  {
    var c := ComboOf(t.profiles[id]).value;
    ComboIsUsed(m, t, id);
    UsedExist(t, AllSingle(t.programs));
    UsedExist(t, MajorsMinted(m, t));
    if c.MajorOf? {
      assert MajorsMinted(m, t)[m.IdOf(c)] == Combined(AllSingle(t.programs), c);
      forall d | d in UsedDegrees(t, MajorsMinted(m, t)) ensures m.IdOf(d) != m.IdOf(c) {
        assert d.DegreeOf?;
      }
    } else {
      assert AllMinted(m, t)[m.IdOf(c)] == Combined(MajorsMinted(m, t), c);
    }
  }

  /** The repointing joins match a dual profile with its own combined programme and nothing else. */
  lemma JoinsOwnProgramme(m: Minting, t: Tables, id: Id, kind: Structure, c: Id)
    requires m.CollisionFree() && OldConstraints(t) && id in t.profiles
    ensures Joins(AllMinted(m, t), kind, t.profiles[id], c) <==>
              ComboOf(t.profiles[id]).Some? && kind == KindOf(ComboOf(t.profiles[id]).value)
              && c == m.IdOf(ComboOf(t.profiles[id]).value)
  {
    MintedOwnIds(m, t);
    if ComboOf(t.profiles[id]).Some? { OwnComboIsMinted(m, t, id); }
  }

  ghost predicate HasStranded(t: Tables) {
    exists id :: id in t.profiles && Stranded(t.profiles[id])
  }

  /** The final count: a dual profile that is not in a combined programme. */
  predicate CountsAsStranded(programs: Programs, p: Profile) {
    IsDual(p) && (p.program.None? || p.program.value !in programs || programs[p.program.value].structure.SingleProgram?)
  }

  function Downgraded(programs: Programs, p: Profile): Profile {
    if p.program.Some? && p.program.value in programs && !programs[p.program.value].structure.SingleProgram? then
      var c := programs[p.program.value];
      p.(program := c.primary,
         flags := Some(Flags(c.structure.DualMajor?, c.structure.DualDegree?,
                             if c.structure.DualDegree? then c.secondary else None)))
    else p.(flags := Some(Flags(false, false, None)))
  }

  predicate IsCombined(programs: Programs, id: Option<Id>) {
    id.Some? && id.value in programs && !programs[id.value].structure.SingleProgram?
  }

  /** Going back would leave this profile with flags that the check constraints refuse. */
  predicate CannotGoBack(programs: Programs, p: Profile) {
    || (HasSecondBranch(p) && !IsCombined(programs, p.program))
    || (IsCombined(programs, p.program)
        && programs[p.program.value].structure.DualDegree? && programs[p.program.value].secondary.None?)
  }

  /** Exactly a second branch outside combined programmes and a dual degree without its second half are refused. */
  lemma FlagsAgreeIff(programs: Programs, p: Profile)
    ensures FlagsAgree(Downgraded(programs, p)) <==> !CannotGoBack(programs, p)
  {
  }

  // ---------------------------------------------------------------- the statements, one by one

  datatype UpgradeOutcome = Done | NameTaken | StrandedProfiles

  datatype DowngradeOutcome = Reverted | CheckViolated

  predicate NameIsTaken(programs: Programs, id: Id, name: string) {
    exists other :: other in programs && other != id && programs[other].name == name
  }

  /** What an insert may meet: every row is one of before, or a combined programme already inserted. */
  lemma FreeNamesStayFree(m: Minting, programs: Programs, used: set<Combo>, inserted: set<Combo>, c: Combo)
    requires m.CollisionFree() && forall d | d in used :: ComponentsExist(programs, d)
    requires NamesFree(m, programs, used) && inserted <= used && c in used && c !in inserted
    ensures !NameIsTaken(WithCombos(m, programs, inserted), m.IdOf(c), ComboName(programs, c))
  {
    var now := WithCombos(m, programs, inserted);
    forall other | other in now && other != m.IdOf(c) ensures now[other].name != ComboName(programs, c) {
      if d :| d in inserted && m.IdOf(d) == other {
        assert now[other] == Combined(programs, d);
      } else {
        assert now[other] == programs[other];
      }
    }
  }

  lemma OneMoreCombo(m: Minting, programs: Programs, inserted: set<Combo>, c: Combo)
    requires m.CollisionFree() && (forall d | d in inserted + {c} :: ComponentsExist(programs, d))
    ensures WithCombos(m, programs, inserted)[m.IdOf(c) := Combined(programs, c)]
        == WithCombos(m, programs, inserted + {c})
  {
    var l := WithCombos(m, programs, inserted)[m.IdOf(c) := Combined(programs, c)];
    var r := WithCombos(m, programs, inserted + {c});
    forall id ensures (id in l <==> id in r) && (id in l ==> l[id] == r[id]) {
      assert m.Minted(id, inserted + {c}) <==> m.Minted(id, inserted) || id == m.IdOf(c);
    }
  }

  /** One profile under a repointing update: it takes some combined programme it joins, if there is one. */
  ghost predicate Repointed(programs: Programs, kind: Structure, p: Profile, p': Profile) {
    || (p' == p && forall c :: !Joins(programs, kind, p, c))
    || exists c :: Joins(programs, kind, p, c) && p' == p.(program := Some(c))
  }

  /** Where the two repointing updates leave a profile. */
  function Carried(m: Minting, p: Profile): Profile {
    p.(program := if ComboOf(p).Some? then Some(m.IdOf(ComboOf(p).value)) else p.program)
  }

  /** Both updates together give every profile its own combined programme, if it has one; only the stranded miss out. */
  lemma RepointedTwice(m: Minting, t: Tables, id: Id, q: Profile, r: Profile)
    requires m.CollisionFree() && OldConstraints(t) && id in t.profiles
    requires Repointed(AllMinted(m, t), DualMajor, t.profiles[id], q) && Repointed(AllMinted(m, t), DualDegree, q, r)
    ensures r == Carried(m, t.profiles[id])
    ensures CountsAsStranded(AllMinted(m, t), r) <==> Stranded(t.profiles[id])
  {
    var p := t.profiles[id];
    forall kind, c ensures Joins(AllMinted(m, t), kind, p, c) <==>
        ComboOf(p).Some? && kind == KindOf(ComboOf(p).value) && c == m.IdOf(ComboOf(p).value)
    {
      JoinsOwnProgramme(m, t, id, kind, c);
    }
    if ComboOf(p).Some? { OwnComboIsMinted(m, t, id); }
    if ComboOf(p).Some? && ComboOf(p).value.MajorOf? {
      assert Joins(AllMinted(m, t), DualMajor, p, m.IdOf(ComboOf(p).value));
      assert q == Carried(m, p);
      assert forall c :: !Joins(AllMinted(m, t), DualDegree, q, c);
    } else {
      assert forall c :: !Joins(AllMinted(m, t), DualMajor, p, c);
      assert q == p;
      if ComboOf(p).Some? { assert Joins(AllMinted(m, t), DualDegree, p, m.IdOf(ComboOf(p).value)); }
    }
  }

  lemma RepointingIs(m: Minting, t: Tables, middle: Profiles, final: Profiles)
    requires m.CollisionFree() && OldConstraints(t) && middle.Keys == t.profiles.Keys == final.Keys
    requires forall id | id in t.profiles :: Repointed(AllMinted(m, t), DualMajor, t.profiles[id], middle[id])
    requires forall id | id in t.profiles :: Repointed(AllMinted(m, t), DualDegree, middle[id], final[id])
    ensures forall id | id in t.profiles :: final[id] == Carried(m, t.profiles[id])
    ensures (exists id :: id in final && CountsAsStranded(AllMinted(m, t), final[id])) <==> HasStranded(t)
  {
    forall id | id in t.profiles
      ensures final[id] == Carried(m, t.profiles[id])
      ensures CountsAsStranded(AllMinted(m, t), final[id]) <==> Stranded(t.profiles[id])
    {
      RepointedTwice(m, t, id, middle[id], final[id]);
    }
  }

  lemma NoCombos(m: Minting, programs: Programs)
    requires m.CollisionFree()
    ensures WithCombos(m, programs, {}) == programs
  {
  }

  /** One more insert: free of a clash if all names are free, and one step nearer the whole table. */
  lemma InsertStep(m: Minting, programs: Programs, used: set<Combo>, inserted: set<Combo>, c: Combo)
    requires m.CollisionFree() && forall d | d in used :: ComponentsExist(programs, d)
    requires inserted <= used && c in used && c !in inserted
    ensures NamesFree(m, programs, used) ==>
        !NameIsTaken(WithCombos(m, programs, inserted), m.IdOf(c), ComboName(programs, c))
    ensures WithCombos(m, programs, inserted)[m.IdOf(c) := Combined(programs, c)]
        == WithCombos(m, programs, inserted + {c})
  {
    if NamesFree(m, programs, used) { FreeNamesStayFree(m, programs, used, inserted, c); }
    OneMoreCombo(m, programs, inserted, c);
  }

  method InsertOne(m: Minting, programs: Programs, now: Programs, c: Combo) returns (result: Option<Programs>)
    requires ComponentsExist(programs, c)
    ensures result == if NameIsTaken(now, m.IdOf(c), ComboName(programs, c)) then None
                      else Some(now[m.IdOf(c) := Combined(programs, c)])
  {
    if NameIsTaken(now, m.IdOf(c), ComboName(programs, c)) { return None; }
    return Some(now[m.IdOf(c) := Combined(programs, c)]);
  }

  /** Inserts the combined programmes in whatever order, overwriting a row with the same id; a taken name fails it. */
  method InsertCombined(m: Minting, programs: Programs, used: set<Combo>) returns (result: Option<Programs>)
    requires m.CollisionFree() && forall c | c in used :: ComponentsExist(programs, c)
    ensures result.Some? ==> result.value == WithCombos(m, programs, used)
    ensures NamesFree(m, programs, used) ==> result.Some?
  {
    var todo := used;
    var now := programs;
    ghost var inserted: set<Combo> := {};
    NoCombos(m, programs);
    while todo != {}
      invariant inserted + todo == used && inserted !! todo
      invariant now == WithCombos(m, programs, inserted)
      decreases |todo|
    {
      var c: Combo :| c in todo;
      InsertStep(m, programs, used, inserted, c);
      var next := InsertOne(m, programs, now, c);
      if next.None? { return None; }
      now := next.value;
      todo, inserted := todo - {c}, inserted + {c};
    }
    assert inserted == used;
    return Some(now);
  }

  /** One repointing update: every profile that joins some combined programme takes one it joins. */
  method Repoint(programs: Programs, kind: Structure, before: Profiles) returns (profiles: Profiles)
    ensures profiles.Keys == before.Keys
    ensures forall id | id in before :: Repointed(programs, kind, before[id], profiles[id])
  {
    profiles := before;
    var todo := before.Keys;
    while todo != {}
      invariant profiles.Keys == before.Keys && todo <= before.Keys
      invariant forall id | id in todo :: profiles[id] == before[id]
      invariant forall id | id in before.Keys - todo :: Repointed(programs, kind, before[id], profiles[id])
      decreases |todo|
    {
      var id: Id :| id in todo;
      var p := before[id];
      if exists c :: c in programs && Joins(programs, kind, p, c) {
        var c: Id :| c in programs && Joins(programs, kind, p, c);
        profiles := profiles[id := p.(program := Some(c))];
      }
      todo := todo - {id};
    }
  }

  /** The two inserts: dual majors first, then dual degrees over the table that left. */
  method MintCombined(m: Minting, t: Tables) returns (result: Option<Programs>)
    requires m.CollisionFree()
    ensures result.Some? ==> result.value == AllMinted(m, t)
    ensures AllNamesFree(m, t) ==> result.Some?
  {
    var single := AllSingle(t.programs);
    UsedExist(t, single);
    var majors := InsertCombined(m, single, UsedMajors(t, single));
    if majors.None? { return None; }
    UsedExist(t, majors.value);
    result := InsertCombined(m, majors.value, UsedDegrees(t, majors.value));
  }

  /** The two updates, one after the other. */
  method RepointDuals(m: Minting, t: Tables, programs: Programs) returns (repointed: Profiles)
    requires m.CollisionFree() && OldConstraints(t) && programs == AllMinted(m, t)
    ensures repointed == map id | id in t.profiles :: Carried(m, t.profiles[id])
    ensures (exists id :: id in repointed && CountsAsStranded(programs, repointed[id])) <==> HasStranded(t)
  {
    var middle := Repoint(programs, DualMajor, t.profiles);
    repointed := Repoint(programs, DualDegree, middle);
    RepointingIs(m, t, middle, repointed);
  }

  /** Dropping the columns. */
  function Dropped(profiles: Profiles): Profiles {
    map id | id in profiles :: profiles[id].(flags := None)
  }

  lemma DroppedAreUpgraded(m: Minting, t: Tables, repointed: Profiles)
    requires m.CollisionFree() && repointed == map id | id in t.profiles :: Carried(m, t.profiles[id])
    ensures Dropped(repointed) == Upgraded(m, t).profiles
  {
  }

  class Migration {
    const mint: Minting
    var tables: Tables

    constructor (mint: Minting, tables: Tables)
      ensures this.mint == mint && this.tables == tables
    {
      this.mint, this.tables := mint, tables;
    }

    /** `upgrade`: all of it, or - on a taken name or a stranded profile - nothing. */
    method Upgrade() returns (outcome: UpgradeOutcome)
      requires mint.CollisionFree() && OldConstraints(tables)
      modifies `tables
      ensures outcome.Done? ==> tables == Upgraded(mint, old(tables))
      ensures !outcome.Done? ==> tables == old(tables)
      ensures outcome.Done? ==> !HasStranded(old(tables))
      ensures outcome.StrandedProfiles? ==> HasStranded(old(tables))
      ensures outcome.NameTaken? ==> !AllNamesFree(mint, old(tables))
    {
      var minted := MintCombined(mint, tables);
      if minted.None? { return NameTaken; }
      var programs := minted.value;
      var repointed := RepointDuals(mint, tables, programs);
      var branches := tables.branches + Inherited(programs, tables.branches);
      if exists id :: id in repointed && CountsAsStranded(programs, repointed[id]) { return StrandedProfiles; }
      DroppedAreUpgraded(mint, tables, repointed);
      tables := Tables(programs, Dropped(repointed), branches, tables.staged);
      return Done;
    }

    /**
     `downgrade`: the flags come back from the structure of the programme, which itself stays; or, if some
     profile then violates a check constraint, nothing happens.
     */
    method Downgrade() returns (outcome: DowngradeOutcome)
      modifies `tables
      ensures outcome.Reverted? ==>
                tables == old(tables).(profiles := map id | id in old(tables.profiles) ::
                                         Downgraded(old(tables.programs), old(tables.profiles[id])))
      ensures !outcome.Reverted? ==> tables == old(tables)
      ensures outcome.CheckViolated? <==>
                exists id :: id in old(tables.profiles)
                             && CannotGoBack(old(tables.programs), old(tables.profiles[id]))
    {
      var before := tables;
      tables := tables.(profiles := map id | id in tables.profiles ::
        tables.profiles[id].(flags := Some(Flags(false, false, None))));
      var programs := tables.programs;
      tables := tables.(profiles := map id | id in tables.profiles ::
        var p := tables.profiles[id];
        if p.program.Some? && p.program.value in programs && !programs[p.program.value].structure.SingleProgram? then
          var combined := programs[p.program.value];
          p.(flags := Some(Flags(combined.structure.DualMajor?, combined.structure.DualDegree?,
                                 if combined.structure.DualDegree? then combined.secondary else None)),
             program := combined.primary)
        else p);
      forall id | id in before.profiles
        ensures tables.profiles[id] == Downgraded(before.programs, before.profiles[id])
        ensures FlagsAgree(tables.profiles[id]) <==> !CannotGoBack(before.programs, before.profiles[id])
      {
        FlagsAgreeIff(before.programs, before.profiles[id]);
      }
      if exists id :: id in tables.profiles && !FlagsAgree(tables.profiles[id]) {
        tables := before;
        return CheckViolated;
      }
      return Reverted;
    }
  }
}
