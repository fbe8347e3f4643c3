/** What migration 0017 promises: nothing is lost on the way back, and old rules keep their verdicts. */
module MigrationLaws {
  import opened Common
  import opened Domain
  import opened RuleSchema
  import opened Rules
  import opened Pathways
  import opened Migration0017

  // ---------------------------------------------------------------- the way back

  /** The profile is in a programme whose id the upgrade mints for others, without being dual itself. */
  ghost predicate SitsInMinted(m: Minting, t: Tables, p: Profile)
    requires m.CollisionFree()
  {
    !IsDual(p) && exists c :: c in UsedCombos(m, t) && p.program == Some(m.IdOf(c))
  }

  /** The combined rows after the inserts are those whose ids were minted. */
  lemma CombinedRowsAreMinted(m: Minting, t: Tables, id: Id)
    requires m.CollisionFree()
    ensures id in AllMinted(m, t) && !AllMinted(m, t)[id].structure.SingleProgram?
       <==> exists c :: c in UsedCombos(m, t) && id == m.IdOf(c)
  {
    UsedExist(t, AllSingle(t.programs));
    UsedExist(t, MajorsMinted(m, t));
    if c :| c in UsedCombos(m, t) && id == m.IdOf(c) {
      assert m.Minted(id, UsedMajors(t, AllSingle(t.programs))) || m.Minted(id, UsedDegrees(t, MajorsMinted(m, t)));
    }
  }

  /**
   A profile that is not stranded comes back from upgrade and downgrade exactly if it does not sit in a minted
   programme.
   */
  lemma ProfileComesBackIff(m: Minting, t: Tables, id: Id)
    requires m.CollisionFree() && OldConstraints(t) && id in t.profiles && !Stranded(t.profiles[id])
    ensures Downgraded(AllMinted(m, t), UpgradedProfile(m, t.profiles[id])) == t.profiles[id]
       <==> !SitsInMinted(m, t, t.profiles[id])
  {
    if ComboOf(t.profiles[id]).Some? { OwnComboIsMinted(m, t, id); }
    if t.profiles[id].program.Some? { CombinedRowsAreMinted(m, t, t.profiles[id].program.value); }
  }

  /**
   When the upgrade does not refuse, downgrading restores every profile exactly if none that is not dual sits in a
   minted programme.
   */
  lemma DowngradeRestoresIff(m: Minting, t: Tables)
    requires m.CollisionFree() && OldConstraints(t) && !HasStranded(t)
    ensures var up := Upgraded(m, t);
            ((forall id | id in up.profiles :: Downgraded(up.programs, up.profiles[id]) == t.profiles[id])
             <==> (forall id | id in t.profiles :: !SitsInMinted(m, t, t.profiles[id])))
  {
    forall id | id in t.profiles
      ensures Downgraded(AllMinted(m, t), UpgradedProfile(m, t.profiles[id])) == t.profiles[id]
         <==> !SitsInMinted(m, t, t.profiles[id])
    {
      assert !Stranded(t.profiles[id]);
      ProfileComesBackIff(m, t, id);
    }
  }

  lemma CarriedCanGoBack(m: Minting, t: Tables, id: Id)
    requires m.CollisionFree() && OldConstraints(t) && id in t.profiles && !Stranded(t.profiles[id])
    ensures !CannotGoBack(AllMinted(m, t), UpgradedProfile(m, t.profiles[id]))
  {
    MintedOwnIds(m, t);
    if ComboOf(t.profiles[id]).Some? { OwnComboIsMinted(m, t, id); }
  }

  /** Right after a completed upgrade the check constraints never refuse the way back. */
  lemma DowngradeFollowsUpgrade(m: Minting, t: Tables)
    requires m.CollisionFree() && OldConstraints(t) && !HasStranded(t)
    ensures var up := Upgraded(m, t); forall id | id in up.profiles :: !CannotGoBack(up.programs, up.profiles[id])
  {
    forall id | id in t.profiles ensures !CannotGoBack(AllMinted(m, t), UpgradedProfile(m, t.profiles[id])) {
      assert !Stranded(t.profiles[id]);
      CarriedCanGoBack(m, t, id);
    }
  }

  /** The branch a student holds under their programme stays offered under the programme they are repointed at. */
  lemma BranchStaysOffered(m: Minting, t: Tables, id: Id, branch: Id)
    requires m.CollisionFree() && OldConstraints(t) && id in t.profiles && t.profiles[id].program.Some?
    requires (t.profiles[id].program.value, branch) in t.branches
    ensures (UpgradedProfile(m, t.profiles[id]).program.value, branch) in Upgraded(m, t).branches
  {
    if ComboOf(t.profiles[id]).Some? {
      OwnComboIsMinted(m, t, id);
      var c := UpgradedProfile(m, t.profiles[id]).program.value;
      var b := (t.profiles[id].program.value, branch);
      assert (c, b.1) in Inherited(AllMinted(m, t), t.branches);
    }
  }

  /** Somebody enrolled, or staged and not yet applied, is a dual major of this degree. */
  predicate HasMajorOf(t: Tables, b: Id) {
    || (exists id :: id in t.profiles && HoldsDualMajor(t.profiles[id]) && t.profiles[id].program == Some(b))
    || exists r :: r in t.staged && !r.applied && r.dualMajor && r.program == Some(b)
  }

  /** Somebody enrolled, or staged and not yet applied, is a dual degree of this pair. */
  predicate HasDegreeOf(t: Tables, u: Id, g: Id) {
    || (exists id :: id in t.profiles && HoldsDualDegree(t.profiles[id]) && t.profiles[id].program == Some(u)
                     && t.profiles[id].flags.value.secondary == Some(g))
    || exists r :: r in t.staged && !r.applied && r.dualDegree && r.program == Some(u) && r.secondary == Some(g)
  }

  lemma UsedMajorsIff(t: Tables, programs: Programs, b: Id)
    ensures MajorOf(b) in UsedMajors(t, programs) <==> b in programs && HasMajorOf(t, b)
  {
    if r :| r in t.staged && !r.applied && r.dualMajor && r.program == Some(b) {
      var i :| 0 <= i < |t.staged| && t.staged[i] == r;
      assert b in programs ==> MajorOf(t.staged[i].program.value) in UsedMajors(t, programs);
    }
  }

  lemma UsedDegreesIff(t: Tables, programs: Programs, u: Id, g: Id)
    ensures DegreeOf(u, g) in UsedDegrees(t, programs) <==> u in programs && g in programs && HasDegreeOf(t, u, g)
  {
    if r :| r in t.staged && !r.applied && r.dualDegree && r.program == Some(u) && r.secondary == Some(g) {
      var i :| 0 <= i < |t.staged| && t.staged[i] == r;
      assert u in programs && g in programs ==>
        DegreeOf(t.staged[i].program.value, t.staged[i].secondary.value) in UsedDegrees(t, programs);
    }
  }

  /** A combined programme is minted exactly if somebody is in it and the degrees it is made of exist. */
  lemma UsedIff(m: Minting, t: Tables, c: Combo)
    requires m.CollisionFree()
    ensures c in UsedCombos(m, t) <==>
              match c
              case MajorOf(b) => b in t.programs && HasMajorOf(t, b)
              case DegreeOf(u, g) => u in MajorsMinted(m, t) && g in MajorsMinted(m, t) && HasDegreeOf(t, u, g)
  {
    UsedExist(t, AllSingle(t.programs));
    UsedExist(t, MajorsMinted(m, t));
    match c
    case MajorOf(b) => UsedMajorsIff(t, AllSingle(t.programs), b);
    case DegreeOf(u, g) => UsedDegreesIff(t, MajorsMinted(m, t), u, g);
  }

  /** The rows after the inserts: the combined ones named after their degrees, every other as it was, now single. */
  lemma MintedRowsAre(m: Minting, t: Tables, id: Id)
    requires m.CollisionFree()
    ensures id in AllMinted(m, t) <==> id in t.programs || exists c :: c in UsedCombos(m, t) && id == m.IdOf(c)
    ensures forall c | c in UsedCombos(m, t) && id == m.IdOf(c) ::
              && id in AllMinted(m, t)
              && var row := AllMinted(m, t)[id];
              && match c
                 case MajorOf(b) =>
                   && b in t.programs
                   && row == Program(t.programs[b].name + " Dual Major", DualMajor, Some(b), Some(b))
                 case DegreeOf(u, g) =>
                   && u in MajorsMinted(m, t) && g in MajorsMinted(m, t)
                   && var first, second := MajorsMinted(m, t)[u].name, MajorsMinted(m, t)[g].name;
                   && row == Program(first + "\U{2013}" + second + " Dual Degree", DualDegree, Some(u), Some(g))
    ensures id in t.programs && (forall c :: c in UsedCombos(m, t) ==> id != m.IdOf(c)) ==>
              id in AllMinted(m, t) && AllMinted(m, t)[id] == Program(t.programs[id].name, SingleProgram, None, None)
  {
    UsedExist(t, AllSingle(t.programs));
    UsedExist(t, MajorsMinted(m, t));
    forall c | c in UsedCombos(m, t) && id == m.IdOf(c)
      ensures id in AllMinted(m, t)
      ensures if c.MajorOf? then AllMinted(m, t)[id] == Combined(AllSingle(t.programs), c)
              else AllMinted(m, t)[id] == Combined(MajorsMinted(m, t), c)
    {
      UsedAreMinted(m, t, c);
    }
  }

  /** The degrees a combined programme is made of. */
  function ComponentsOf(c: Combo): set<Id> {
    match c
    case MajorOf(b) => {b}
    case DegreeOf(u, g) => {u, g}
  }

  /** Every combined programme in use is in the table after the inserts, with its own components. */
  lemma UsedAreMinted(m: Minting, t: Tables, c: Combo)
    requires m.CollisionFree() && c in UsedCombos(m, t)
    ensures m.IdOf(c) in AllMinted(m, t) && SharesComponents(AllMinted(m, t)[m.IdOf(c)], c)
  {
    UsedExist(t, AllSingle(t.programs));
    UsedExist(t, MajorsMinted(m, t));
    if c.MajorOf? {
      assert MajorsMinted(m, t)[m.IdOf(c)] == Combined(AllSingle(t.programs), c);
    } else {
      assert AllMinted(m, t)[m.IdOf(c)] == Combined(MajorsMinted(m, t), c);
    }
  }

  /** The branch is offered under a degree that this combined programme, one in use, is made of. */
  ghost predicate TakesOver(m: Minting, t: Tables, program: Id, branch: Id)
    requires m.CollisionFree()
  {
    exists c, d :: c in UsedCombos(m, t) && program == m.IdOf(c) && d in ComponentsOf(c) && (d, branch) in t.branches
  }

  lemma InheritedIff(programs: Programs, branches: set<(Id, Id)>, program: Id, branch: Id)
    ensures (program, branch) in Inherited(programs, branches) <==>
              && program in programs && !programs[program].structure.SingleProgram?
              && exists d :: (d, branch) in branches
                             && (programs[program].primary == Some(d) || programs[program].secondary == Some(d))
  {
    if (program, branch) in Inherited(programs, branches) {
      var b :| b in branches && b.1 == branch
               && (programs[program].primary == Some(b.0) || programs[program].secondary == Some(b.0));
      assert b == (b.0, branch);
    }
    if d :| (d, branch) in branches && program in programs && !programs[program].structure.SingleProgram?
            && (programs[program].primary == Some(d) || programs[program].secondary == Some(d))
    {
      var b := (d, branch);
      assert b in branches && b.1 == branch;
    }
  }

  lemma InheritsFromComponents(programs: Programs, branches: set<(Id, Id)>, program: Id, c: Combo, branch: Id)
    requires program in programs && SharesComponents(programs[program], c)
    ensures (program, branch) in Inherited(programs, branches) <==>
              exists d :: d in ComponentsOf(c) && (d, branch) in branches
  {
    InheritedIff(programs, branches, program, branch);
    var row := programs[program];
    assert forall d :: d in ComponentsOf(c) <==> row.primary == Some(d) || row.secondary == Some(d);
  }

  lemma TakesOverIff(m: Minting, t: Tables, c: Combo, branch: Id)
    requires m.CollisionFree() && c in UsedCombos(m, t)
    ensures TakesOver(m, t, m.IdOf(c), branch) <==> exists d :: d in ComponentsOf(c) && (d, branch) in t.branches
  {
    assert forall e: Combo | m.IdOf(c) == m.IdOf(e) :: m.origin(m.IdOf(e)) == Some(e) && m.origin(m.IdOf(c)) == Some(c);
  }

  /**
   Exactly what is offered after the upgrade: what was before, and under each combined programme in use
   what was offered under a degree it is made of.
   */
  lemma OfferedIff(m: Minting, t: Tables, program: Id, branch: Id)
    requires m.CollisionFree()
    ensures (program, branch) in Upgraded(m, t).branches <==>
              (program, branch) in t.branches || TakesOver(m, t, program, branch)
  {
    CombinedRowsAreMinted(m, t, program);
    if c: Combo :| c in UsedCombos(m, t) && program == m.IdOf(c) {
      UsedAreMinted(m, t, c);
      TakesOverIff(m, t, c, branch);
      InheritsFromComponents(AllMinted(m, t), t.branches, program, c, branch);
    } else {
      InheritedIff(AllMinted(m, t), t.branches, program, branch);
    }
  }

  // ---------------------------------------------------------------- the facts rules read

  /** The rule facts of a profile before the upgrade, under the names the legacy contract reads. */
  function OldFacts(p: Profile): Facts
    requires p.flags.Some?
  {
    p.columns[LegacyProgramId := IdFact(p.program)]
             [ByField(IsDualMajor) := Single(Flag(p.flags.value.dualMajor))]
             [ByField(IsDualDegree) := Single(Flag(p.flags.value.dualDegree))]
             [ByField(SecondaryProgramId) := IdFact(p.flags.value.secondary)]
  }

  function IdentifierIn(columns: Facts, f: RuleField): Option<Id> {
    match Lookup(columns, ByField(f))
    case Single(Uuid(id)) => Some(id)
    case _ => None
  }

  function YearIn(columns: Facts): Option<int> {
    match Lookup(columns, ByField(StudyYear))
    case Single(Whole(n)) => Some(n)
    case _ => None
  }

  /** The profile joined with its programme, as the loaders read it after the upgrade. */
  function EnrollmentOf(programs: Programs, p: Profile): Enrollment {
    var row := if p.program.Some? && p.program.value in programs then Some(programs[p.program.value]) else None;
    Enrollment(p.program, if row.Some? then Some(row.value.structure) else None,
               if row.Some? then row.value.primary else None, if row.Some? then row.value.secondary else None,
               IdentifierIn(p.columns, PrimaryBranchId), IdentifierIn(p.columns, SecondaryBranchId), YearIn(p.columns),
               p.yearSession)
  }

  function NewFacts(programs: Programs, p: Profile, role: Option<Role>, session: Option<int>): Facts {
    WithDerived(p.columns, DerivedRuleFacts(EnrollmentOf(programs, p), role, session))
  }

  /** The fields rules could name before the migration. */
  predicate PreMigration(f: RuleField) {
    !f.ComponentProgramId? && !f.DisciplineId?
  }

  /** Every leaf of the tree names a field in this set. */
  predicate Names(node: RuleNode, fields: set<RuleField>) {
    match node
    case All(cs) => forall c | c in cs :: Names(c, fields)
    case Any(cs) => forall c | c in cs :: Names(c, fields)
    case Not(c) => Names(c, fields)
    case NotPlacementPlaced => true
    case Field(leaf) => leaf.field in fields
  }

  /** The two sets of facts answer these fields alike under the legacy contract. */
  predicate AnswerAlike(a: Facts, b: Facts, fields: set<RuleField>) {
    forall f | f in fields :: Lookup(a, ActualKey(f, Legacy)) == Lookup(b, ActualKey(f, Legacy))
  }

  lemma {:induction false} SameAnswersSameTruth(node: RuleNode, a: Facts, b: Facts, unplaced: bool,
                                                fields: set<RuleField>)
    requires Names(node, fields) && AnswerAlike(a, b, fields)
    ensures TruthOf(node, Reading(a, unplaced, Legacy)) == TruthOf(node, Reading(b, unplaced, Legacy))
    decreases node, 1
  {
    match node
    case All(cs) => SameAnswersAll(cs, a, b, unplaced, fields);
    case Any(cs) => SameAnswersAny(cs, a, b, unplaced, fields);
    case Not(c) => SameAnswersSameTruth(c, a, b, unplaced, fields);
    case NotPlacementPlaced =>
    case Field(leaf) =>
  }

  lemma {:induction false} SameAnswersAll(cs: seq<RuleNode>, a: Facts, b: Facts, unplaced: bool, fields: set<RuleField>)
    requires (forall c | c in cs :: Names(c, fields)) && AnswerAlike(a, b, fields)
    ensures AllTruth(cs, Reading(a, unplaced, Legacy)) == AllTruth(cs, Reading(b, unplaced, Legacy))
    decreases cs, 0
  {
    if cs != [] {
      SameAnswersSameTruth(cs[0], a, b, unplaced, fields);
      SameAnswersAll(cs[1..], a, b, unplaced, fields);
    }
  }

  lemma {:induction false} SameAnswersAny(cs: seq<RuleNode>, a: Facts, b: Facts, unplaced: bool, fields: set<RuleField>)
    requires (forall c | c in cs :: Names(c, fields)) && AnswerAlike(a, b, fields)
    ensures AnyTruth(cs, Reading(a, unplaced, Legacy)) == AnyTruth(cs, Reading(b, unplaced, Legacy))
    decreases cs, 0
  {
    if cs != [] {
      SameAnswersSameTruth(cs[0], a, b, unplaced, fields);
      SameAnswersAny(cs[1..], a, b, unplaced, fields);
    }
  }

  /** What is derived for a carried-over profile: the old columns, but for a dual major's secondary programme. */
  lemma DerivedAreOldColumns(m: Minting, t: Tables, id: Id, role: Option<Role>, session: Option<int>)
    requires m.CollisionFree() && OldConstraints(t) && id in t.profiles && !Stranded(t.profiles[id])
    requires !SitsInMinted(m, t, t.profiles[id])
    ensures var p := t.profiles[id];
            var d := DerivedRuleFacts(EnrollmentOf(AllMinted(m, t), UpgradedProfile(m, p)), role, session);
            && d.legacyProgram == p.program
            && d.dualMajor == HoldsDualMajor(p) && d.dualDegree == HoldsDualDegree(p)
            && d.secondaryProgram == if HoldsDualMajor(p) then p.program else p.flags.value.secondary
  {
    var p := t.profiles[id];
    if ComboOf(p).Some? {
      OwnComboIsMinted(m, t, id);
    } else if p.program.Some? {
      CombinedRowsAreMinted(m, t, p.program.value);
      SingleRowsAreBare(m, t, p.program.value);
    }
  }

  /** How the derived facts overlay the columns. */
  lemma Overlaid(columns: Facts, d: DerivedFacts, f: RuleField)
    requires PreMigration(f)
    ensures Lookup(WithDerived(columns, d), ActualKey(f, Legacy)) ==
              match f
              case ProgramId => IdFact(d.legacyProgram)
              case IsDualMajor => Single(Flag(d.dualMajor))
              case IsDualDegree => Single(Flag(d.dualDegree))
              case SecondaryProgramId => IdFact(d.secondaryProgram)
              case _ => Lookup(columns, ActualKey(f, Legacy))
  {
  }

  lemma OldOverlaid(p: Profile, f: RuleField)
    requires p.flags.Some? && PreMigration(f)
    ensures Lookup(OldFacts(p), ActualKey(f, Legacy)) ==
              match f
              case ProgramId => IdFact(p.program)
              case IsDualMajor => Single(Flag(p.flags.value.dualMajor))
              case IsDualDegree => Single(Flag(p.flags.value.dualDegree))
              case SecondaryProgramId => IdFact(p.flags.value.secondary)
              case _ => Lookup(p.columns, ActualKey(f, Legacy))
  {
  }

  lemma DerivedOverlayAlike(p: Profile, d: DerivedFacts, f: RuleField)
    requires p.flags.Some? && PreMigration(f) && !(f.SecondaryProgramId? && HoldsDualMajor(p))
    requires d.legacyProgram == p.program && d.dualMajor == HoldsDualMajor(p) && d.dualDegree == HoldsDualDegree(p)
    requires d.secondaryProgram == if HoldsDualMajor(p) then p.program else p.flags.value.secondary
    ensures Lookup(OldFacts(p), ActualKey(f, Legacy)) == Lookup(WithDerived(p.columns, d), ActualKey(f, Legacy))
  {
    OldOverlaid(p, f);
    Overlaid(p.columns, d, f);
  }

  /** Field by field: the derived facts answer as the old columns did, but for a dual major's secondary programme. */
  lemma FieldsAnswerAlike(m: Minting, t: Tables, id: Id, role: Option<Role>, session: Option<int>, f: RuleField)
    requires m.CollisionFree() && OldConstraints(t) && id in t.profiles && !Stranded(t.profiles[id])
    requires !SitsInMinted(m, t, t.profiles[id])
    requires PreMigration(f) && !(f.SecondaryProgramId? && HoldsDualMajor(t.profiles[id]))
    ensures Lookup(OldFacts(t.profiles[id]), ActualKey(f, Legacy))
         == Lookup(NewFacts(AllMinted(m, t), UpgradedProfile(m, t.profiles[id]), role, session), ActualKey(f, Legacy))
  {
    var p := t.profiles[id];
    DerivedAreOldColumns(m, t, id, role, session);
    DerivedOverlayAlike(p, DerivedRuleFacts(EnrollmentOf(AllMinted(m, t), UpgradedProfile(m, p)), role, session), f);
  }

  lemma SingleRowsAreBare(m: Minting, t: Tables, c: Id)
    requires m.CollisionFree() && c in AllMinted(m, t) && AllMinted(m, t)[c].structure.SingleProgram?
    ensures AllMinted(m, t)[c].primary.None? && AllMinted(m, t)[c].secondary.None?
  {
    UsedExist(t, AllSingle(t.programs));
    UsedExist(t, MajorsMinted(m, t));
  }

  /**
   An old rule gives every carried-over student the verdict it gave before: any tree over
   pre-migration fields, naming the secondary programme only for students who are not dual majors.
   */
  lemma OldRulesKeepVerdicts(m: Minting, t: Tables, id: Id, node: RuleNode, fields: set<RuleField>, unplaced: bool,
                             role: Option<Role>, session: Option<int>)
    requires m.CollisionFree() && OldConstraints(t) && id in t.profiles && !Stranded(t.profiles[id])
    requires !SitsInMinted(m, t, t.profiles[id])
    requires Names(node, fields)
    requires forall f | f in fields :: PreMigration(f) && !(f.SecondaryProgramId? && HoldsDualMajor(t.profiles[id]))
    ensures TruthOf(node, Reading(OldFacts(t.profiles[id]), unplaced, Legacy))
         == TruthOf(node, Reading(NewFacts(AllMinted(m, t), UpgradedProfile(m, t.profiles[id]), role, session),
                                  unplaced, Legacy))
  {
    var old' := OldFacts(t.profiles[id]);
    var new' := NewFacts(AllMinted(m, t), UpgradedProfile(m, t.profiles[id]), role, session);
    forall f | f in fields ensures Lookup(old', ActualKey(f, Legacy)) == Lookup(new', ActualKey(f, Legacy)) {
      FieldsAnswerAlike(m, t, id, role, session, f);
    }
    SameAnswersSameTruth(node, old', new', unplaced, fields);
  }

  lemma FieldRuleReads(f: RuleField, v: Scalar, facts: Facts, unplaced: bool)
    requires f.SecondaryProgramId? && v.Uuid?
    ensures var rule := Field(Leaf(f, Eq, One(v)));
            && (Lookup(facts, ByField(f)) == Single(v) ==> TruthOf(rule, Reading(facts, unplaced, Legacy)) == Holds)
            && (Lookup(facts, ByField(f)).Absent? ==> TruthOf(rule, Reading(facts, unplaced, Legacy)) == Fails)
  {
  }

  /** Why the secondary programme is left out: on every dual major, this rule failed before and holds after. */
  lemma DualMajorSecondaryFlips(m: Minting, t: Tables, id: Id, unplaced: bool, role: Option<Role>, session: Option<int>)
    requires m.CollisionFree() && OldConstraints(t) && id in t.profiles && HoldsDualMajor(t.profiles[id])
             && t.profiles[id].program.Some?
    ensures var rule := Field(Leaf(SecondaryProgramId, Eq, One(Uuid(t.profiles[id].program.value))));
            var after := NewFacts(AllMinted(m, t), UpgradedProfile(m, t.profiles[id]), role, session);
            && TruthOf(rule, Reading(OldFacts(t.profiles[id]), unplaced, Legacy)) == Fails
            && TruthOf(rule, Reading(after, unplaced, Legacy)) == Holds
  {
    var p := t.profiles[id];
    DerivedAreOldColumns(m, t, id, role, session);
    Overlaid(p.columns, DerivedRuleFacts(EnrollmentOf(AllMinted(m, t), UpgradedProfile(m, p)), role, session),
             SecondaryProgramId);
    FieldRuleReads(SecondaryProgramId, Uuid(p.program.value), OldFacts(p), unplaced);
    FieldRuleReads(SecondaryProgramId, Uuid(p.program.value),
                   NewFacts(AllMinted(m, t), UpgradedProfile(m, p), role, session), unplaced);
  }

  function FlagRule(f: RuleField): RuleNode {
    Field(Leaf(f, Eq, One(Flag(true))))
  }

  lemma FlagRuleReads(f: RuleField, facts: Facts, flag: bool, unplaced: bool)
    requires IsBooleanField(f) && Lookup(facts, ByField(f)) == Single(Flag(flag))
    ensures TruthOf(FlagRule(f), Reading(facts, unplaced, Legacy)) == TruthOfBool(flag)
  {
  }

  /** A student in a minted programme reads as dual from then on, whatever the old flags said. */
  lemma SittingReadsDual(m: Minting, t: Tables, id: Id, role: Option<Role>, session: Option<int>)
    requires m.CollisionFree() && OldConstraints(t) && id in t.profiles && SitsInMinted(m, t, t.profiles[id])
    ensures var d := DerivedRuleFacts(EnrollmentOf(AllMinted(m, t), UpgradedProfile(m, t.profiles[id])), role, session);
            d.dualMajor || d.dualDegree
  {
    CombinedRowsAreMinted(m, t, t.profiles[id].program.value);
  }

  /**
   Why sitting in a minted programme is left out: of the two rules for dual students both failed and one now holds.
   */
  lemma SittingInMintedFlips(m: Minting, t: Tables, id: Id, unplaced: bool, role: Option<Role>, session: Option<int>)
    requires m.CollisionFree() && OldConstraints(t) && id in t.profiles && SitsInMinted(m, t, t.profiles[id])
    ensures var before := Reading(OldFacts(t.profiles[id]), unplaced, Legacy);
            TruthOf(FlagRule(IsDualMajor), before) == TruthOf(FlagRule(IsDualDegree), before) == Fails
    ensures var after :=
        Reading(NewFacts(AllMinted(m, t), UpgradedProfile(m, t.profiles[id]), role, session), unplaced, Legacy);
            TruthOf(FlagRule(IsDualMajor), after) == Holds || TruthOf(FlagRule(IsDualDegree), after) == Holds
  {
    var p := t.profiles[id];
    OldOverlaid(p, IsDualMajor);
    OldOverlaid(p, IsDualDegree);
    FlagRuleReads(IsDualMajor, OldFacts(p), false, unplaced);
    FlagRuleReads(IsDualDegree, OldFacts(p), false, unplaced);
    var d := DerivedRuleFacts(EnrollmentOf(AllMinted(m, t), UpgradedProfile(m, p)), role, session);
    SittingReadsDual(m, t, id, role, session);
    Overlaid(p.columns, d, IsDualMajor);
    Overlaid(p.columns, d, IsDualDegree);
    FlagRuleReads(IsDualMajor, WithDerived(p.columns, d), d.dualMajor, unplaced);
    FlagRuleReads(IsDualDegree, WithDerived(p.columns, d), d.dualDegree, unplaced);
  }

  /** The rule gives the student the verdict after the upgrade that it gave before. */
  ghost predicate KeepsVerdict(m: Minting, t: Tables, id: Id, node: RuleNode, unplaced: bool, role: Option<Role>,
                               session: Option<int>)
    requires m.CollisionFree() && id in t.profiles && t.profiles[id].flags.Some?
  {
    TruthOf(node, Reading(OldFacts(t.profiles[id]), unplaced, Legacy))
    == TruthOf(node,
               Reading(NewFacts(AllMinted(m, t), UpgradedProfile(m, t.profiles[id]), role, session), unplaced, Legacy))
  }

  lemma SittingLosesVerdict(m: Minting, t: Tables, id: Id, fields: set<RuleField>, unplaced: bool, role: Option<Role>,
                            session: Option<int>) returns (node: RuleNode)
    requires m.CollisionFree() && OldConstraints(t) && id in t.profiles && SitsInMinted(m, t, t.profiles[id])
    requires IsDualMajor in fields && IsDualDegree in fields
    ensures Names(node, fields) && !KeepsVerdict(m, t, id, node, unplaced, role, session)
  {
    SittingInMintedFlips(m, t, id, unplaced, role, session);
    node := FlagRule(IsDualMajor);
    if KeepsVerdict(m, t, id, node, unplaced, role, session) { node := FlagRule(IsDualDegree); }
  }

  lemma DualMajorLosesVerdict(m: Minting, t: Tables, id: Id, fields: set<RuleField>, unplaced: bool, role: Option<Role>,
                              session: Option<int>) returns (node: RuleNode)
    requires m.CollisionFree() && OldConstraints(t) && id in t.profiles && !Stranded(t.profiles[id])
    requires SecondaryProgramId in fields && HoldsDualMajor(t.profiles[id])
    ensures Names(node, fields) && !KeepsVerdict(m, t, id, node, unplaced, role, session)
  {
    DualMajorSecondaryFlips(m, t, id, unplaced, role, session);
    node := Field(Leaf(SecondaryProgramId, Eq, One(Uuid(t.profiles[id].program.value))));
  }

  /**
   Exactly which carried-over students every old rule treats as before: over fields that include the two dual
   flags, those who do not sit in a minted programme and, if the secondary programme is one of the fields,
   are not dual majors.
   */
  lemma OldRulesKeepVerdictsIff(m: Minting, t: Tables, id: Id, fields: set<RuleField>, unplaced: bool,
                                role: Option<Role>, session: Option<int>)
    requires m.CollisionFree() && OldConstraints(t) && id in t.profiles && !Stranded(t.profiles[id])
    requires IsDualMajor in fields && IsDualDegree in fields && forall f | f in fields :: PreMigration(f)
    ensures (forall node | Names(node, fields) :: KeepsVerdict(m, t, id, node, unplaced, role, session))
       <==> && !SitsInMinted(m, t, t.profiles[id])
            && !(SecondaryProgramId in fields && HoldsDualMajor(t.profiles[id]))
  {
    var p := t.profiles[id];
    if SitsInMinted(m, t, p) {
      var node := SittingLosesVerdict(m, t, id, fields, unplaced, role, session);
    } else if SecondaryProgramId in fields && HoldsDualMajor(p) {
      var node := DualMajorLosesVerdict(m, t, id, fields, unplaced, role, session);
    } else {
      forall node | Names(node, fields) ensures KeepsVerdict(m, t, id, node, unplaced, role, session) {
        OldRulesKeepVerdicts(m, t, id, node, fields, unplaced, role, session);
      }
    }
  }

  // ---------------------------------------------------------------- a student who sits in a minted programme

  function Pair(u: nat, g: nat): (n: nat)
    ensures n >= 1
  {
    if u == 0 then 2 * g + 1 else 2 * Pair(u - 1, g)
  }

  function Unpair(n: nat): (nat, nat)
    requires n >= 1
  {
    if n % 2 == 1 then (0, n / 2) else (Unpair(n / 2).0 + 1, Unpair(n / 2).1)
  }

  lemma OddHalves(n: nat, g: nat)
    requires n == 2 * g + 1
    ensures n % 2 == 1 && n / 2 == g
  {
    assert n == 2 * (n / 2) + n % 2;
  }

  lemma UnpairOdd(g: nat)
    ensures Unpair(2 * g + 1) == (0, g)
  {
    OddHalves(2 * g + 1, g);
  }

  lemma UnpairEven(n: nat)
    requires n >= 1
    ensures Unpair(2 * n) == (Unpair(n).0 + 1, Unpair(n).1)
  {
    assert 2 * n / 2 == n;
  }

  lemma {:induction false} PairReadsBack(u: nat, g: nat)
    ensures Unpair(Pair(u, g)) == (u, g)
  {
    if u == 0 {
      UnpairOdd(g);
    } else {
      PairReadsBack(u - 1, g);
      UnpairEven(Pair(u - 1, g));
    }
  }

  lemma {:induction false} UnpairReadsBack(n: nat)
    requires n >= 1
    ensures Pair(Unpair(n).0, Unpair(n).1) == n
  {
    if n % 2 == 0 { UnpairReadsBack(n / 2); }
  }

  function OriginOf(id: Id): Option<Combo> {
    if id % 2 == 0 then Some(MajorOf(id / 2))
    else if id == 1 then None
    else Some(DegreeOf(Unpair(id / 2).0, Unpair(id / 2).1))
  }

  /** Ids that never collide: even ones for dual majors, odd ones for pairs. */
  const PARITY := Minting((b: Id) => 2 * b, (u: Id, g: Id) => 2 * Pair(u, g) + 1, OriginOf)

  lemma ParityReadsBack(c: Combo)
    ensures OriginOf(PARITY.IdOf(c)) == Some(c)
  {
    match c
    case MajorOf(b) => assert 2 * b % 2 == 0 && 2 * b / 2 == b;
    case DegreeOf(u, g) =>
      OddHalves(2 * Pair(u, g) + 1, Pair(u, g));
      PairReadsBack(u, g);
  }

  lemma OriginReadsBack(id: Id)
    requires OriginOf(id).Some?
    ensures PARITY.IdOf(OriginOf(id).value) == id
  {
    assert id == 2 * (id / 2) + id % 2;
    if id % 2 == 1 { UnpairReadsBack(id / 2); }
  }

  lemma ParityIsCollisionFree()
    ensures PARITY.CollisionFree()
  {
    forall c ensures PARITY.origin(PARITY.IdOf(c)) == Some(c) { ParityReadsBack(c); }
    forall id: Id | PARITY.origin(id).Some? ensures PARITY.IdOf(PARITY.origin(id).value) == id { OriginReadsBack(id); }
  }

  function Student(program: Id, dualMajor: bool): Profile {
    Profile(Some(program), Some(Flags(dualMajor, false, None)), map[], None)
  }

  /**
   Tables an earlier upgrade and downgrade left: the combined programme 10 of base degree 5 is still there, one
   student is a dual major of 5, and another, not dual, has been put into 10.
   */
  const REVISITED := Tables(
    map[5 := Program("CSE", SingleProgram, None, None), 10 := Program("CSE Dual Major", SingleProgram, None, None)],
    map[1 := Student(5, true), 2 := Student(10, false)], {}, [])

  lemma RevisitedMajors(programs: Programs)
    requires 5 in programs
    ensures UsedMajors(REVISITED, programs) == {MajorOf(5)}
  {
    assert 1 in REVISITED.profiles && HoldsDualMajor(REVISITED.profiles[1]);
    assert REVISITED.profiles[1].program.value == 5;
  }

  lemma RevisitedDegrees(programs: Programs)
    ensures UsedDegrees(REVISITED, programs) == {}
  {
    assert forall id | id in REVISITED.profiles :: !HoldsDualDegree(REVISITED.profiles[id]);
  }

  lemma RevisitedCombos()
    requires PARITY.CollisionFree()
    ensures UsedCombos(PARITY, REVISITED) == {MajorOf(5)} == UsedMajors(REVISITED, AllSingle(REVISITED.programs))
    ensures UsedDegrees(REVISITED, MajorsMinted(PARITY, REVISITED)) == {}
  {
    RevisitedMajors(AllSingle(REVISITED.programs));
    RevisitedDegrees(MajorsMinted(PARITY, REVISITED));
  }

  lemma RevisitedNamesAreFree()
    requires PARITY.CollisionFree()
    ensures AllNamesFree(PARITY, REVISITED)
  {
    RevisitedCombos();
    assert PARITY.IdOf(MajorOf(5)) == 10;
    assert |"CSE"| == 3 && |"CSE Dual Major"| == 14;
  }

  lemma RevisitedIsOld()
    ensures OldConstraints(REVISITED) && !HasStranded(REVISITED)
  {
  }

  /** Nothing in the upgrade refuses these tables, yet downgrading again does not bring the second student back. */
  lemma RevisitedStudentIsNotRestored()
    ensures PARITY.CollisionFree() && OldConstraints(REVISITED) && !HasStranded(REVISITED)
    ensures AllNamesFree(PARITY, REVISITED) && SitsInMinted(PARITY, REVISITED, REVISITED.profiles[2])
    ensures var up := Upgraded(PARITY, REVISITED);
            Downgraded(up.programs, up.profiles[2]) != REVISITED.profiles[2]
  {
    ParityIsCollisionFree();
    RevisitedIsOld();
    RevisitedNamesAreFree();
    RevisitedCombos();
    assert MajorOf(5) in UsedCombos(PARITY, REVISITED) && PARITY.IdOf(MajorOf(5)) == 10;
    ProfileComesBackIff(PARITY, REVISITED, 2);
  }

  // ---------------------------------------------------------------- exact and component rules

  /**
   Under the current contract a declared-programme rule matches the exact programme, a component rule either half of it.
   */
  lemma ExactAndComponentRules(columns: Facts, p: Enrollment, role: Option<Role>, session: Option<int>, x: Id,
                               unplaced: bool)
    requires Lookup(columns, ByField(ProgramId)) == IdFact(p.program) && p.program.Some? && p.structure.Some?
    requires !p.structure.value.SingleProgram? ==> p.primaryDegree.Some? && p.secondaryDegree.Some?
    ensures var who := Reading(WithDerived(columns, DerivedRuleFacts(p, role, session)), unplaced, Current);
            && (TruthOf(Field(Leaf(ProgramId, Eq, One(Uuid(x)))), who) == Holds <==> p.program == Some(x))
            && (TruthOf(Field(Leaf(ComponentProgramId, Eq, One(Uuid(x)))), who) == Holds
                <==> if p.structure.value.SingleProgram? then p.program == Some(x)
                     else p.primaryDegree == Some(x) || p.secondaryDegree == Some(x))
  {
    var d := DerivedRuleFacts(p, role, session);
    var facts := WithDerived(columns, d);
    assert Lookup(facts, ByField(ProgramId)) == IdFact(p.program);
    assert Lookup(facts, ComponentProgramIds) == SetFact(d.components);
    var members := SetFact(d.components).vs;
    assert members != {} by {
      var y := if p.structure.value.SingleProgram? then p.program.value else p.primaryDegree.value;
      assert y in d.components.value;
      assert Uuid(y) in members;
    }
    assert Uuid(x) in members <==> x in d.components.value;
  }
}
