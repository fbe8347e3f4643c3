/**
 What a single requirement means (backend/app/domain/rules.py:237-317, backend/app/domain/rule_schema.py):
 which fact a field reads, when it can be read, and what each operator asks of it.
 */
module LeafLaws {
  import opened Common
  import opened RuleSchema
  import opened Rules

  function RuleOf(f: RuleField, op: ComparisonOp, value: Expected): RuleNode {
    Field(Leaf(f, op, value))
  }

  /** The fact a field is judged on. */
  function FactOf(f: RuleField, who: Reading): Fact {
    var key := ActualKey(f, who.semantics);
    if key in who.facts then who.facts[key] else Absent
  }

  // ---------------------------------------------------------------- which facts are read

  /**
   Every field reads the column of its name, except that the usable degrees are read for a component
   rule, and that the two contracts differ on the programme and the year of study.
   */
  lemma FieldsRead(f: RuleField, semantics: Semantics)
    ensures !f.ComponentProgramId? && !f.ProgramId? && !f.StudyYear? ==> ActualKey(f, semantics) == ByField(f)
    ensures f.ComponentProgramId? ==> ActualKey(f, semantics) == ComponentProgramIds
    ensures f.ProgramId? ==>
              ActualKey(f, semantics) == if semantics.Legacy? then LegacyProgramId else ByField(ProgramId)
    ensures f.StudyYear? ==>
              ActualKey(f, semantics) == if semantics.Legacy? then ByField(StudyYear) else CurrentStudyYear
  {
  }

  /** The kind of value a field holds. */
  predicate IsOfKind(f: RuleField, v: Scalar) {
    match f
    case StudyYear => v.Whole?
    case GraduatingYear => v.Whole?
    case ActiveBacklogs => v.Whole?
    case TotalBacklogs => v.Whole?
    case TenthYear => v.Whole?
    case TwelfthYear => v.Whole?
    case Cpi => v.Whole? || v.Dec?
    case TenthPercent => v.Whole? || v.Dec?
    case TwelfthPercent => v.Whole? || v.Dec?
    case IsDualMajor => v.Flag?
    case IsDualDegree => v.Flag?
    case Gender => v == Text("male") || v == Text("female") || v == Text("other")
    case Nationality => v.Text?
    case _ => v.Uuid?
  }

  /** The value as it is stored: a number of a decimal field as a decimal. */
  function StoredAs(f: RuleField, v: Scalar): Scalar {
    if v.Whole? && (f.Cpi? || f.TenthPercent? || f.TwelfthPercent?) then Dec(v.n as real) else v
  }

  /** The value compared: as stored, but the CPI rounded to a tenth. */
  function ValueOf(f: RuleField, v: Scalar): Scalar {
    var exact := StoredAs(f, v);
    if f.Cpi? && exact.Dec? then Dec(RoundToTenth(exact.d)) else exact
  }

  /** The fact can be judged: a value of the field's kind, or for the two set fields a set that is not empty. */
  predicate IsReadable(f: RuleField, raw: Fact) {
    if f.DisciplineId? || f.ComponentProgramId? then raw.Set? && raw.vs != {}
    else raw.Single? && IsOfKind(f, raw.v)
  }

  lemma StoredIff(f: RuleField, v: Scalar)
    ensures NormalizeExpected(f, v) == if IsOfKind(f, v) then Some(StoredAs(f, v)) else None
  {
  }

  lemma ReadableIff(f: RuleField, raw: Fact)
    requires !IsSetField(f)
    ensures NormalizeActual(f, raw) == if IsReadable(f, raw) then Some(ValueOf(f, raw.v)) else None
  {
  }

  /** What cannot be judged is undecided, or under the legacy contract false, whatever is asked of it. */
  lemma UnreadableIsUndecided(leaf: Leaf, who: Reading)
    requires ValidLeaf(leaf) && !IsReadable(leaf.field, FactOf(leaf.field, who))
    ensures TruthOf(Field(leaf), who) == if who.semantics.Legacy? then Fails else Unknown
  {
    if !IsSetField(leaf.field) { ReadableIff(leaf.field, FactOf(leaf.field, who)); }
  }

  // ---------------------------------------------------------------- what the operators ask

  /** Equality holds exactly of the value itself, or for a set of usable values exactly if it is one of them. */
  lemma EqualIff(f: RuleField, v: Scalar, who: Reading)
    requires ValidLeaf(Leaf(f, Eq, One(v))) && IsReadable(f, FactOf(f, who))
    ensures TruthOf(RuleOf(f, Eq, One(v)), who) ==
              TruthOfBool(if IsSetField(f) then v in FactOf(f, who).vs else ValueOf(f, FactOf(f, who).v) == v)
  {
    if !IsSetField(f) { ReadableIff(f, FactOf(f, who)); }
  }

  /** On a fact that can be judged, `ne` is the negation of `eq`. */
  lemma UnequalIsNegation(f: RuleField, v: Scalar, who: Reading)
    requires ValidLeaf(Leaf(f, Ne, One(v))) && IsReadable(f, FactOf(f, who))
    ensures TruthOf(RuleOf(f, Ne, One(v)), who) == TruthOf(Not(RuleOf(f, Eq, One(v))), who)
  {
    if !IsSetField(f) { ReadableIff(f, FactOf(f, who)); }
  }

  /** The list operators spelled out: one equality for each value. */
  function Equalities(f: RuleField, vs: seq<Scalar>): seq<RuleNode> {
    seq(|vs|, i requires 0 <= i < |vs| => RuleOf(f, Eq, One(vs[i])))
  }

  lemma {:induction false} AnyOfEqualities(f: RuleField, vs: seq<Scalar>, who: Reading)
    requires IsReadable(f, FactOf(f, who)) && Normalised(f, vs)
    ensures AnyTruth(Equalities(f, vs), who) ==
              TruthOfBool(exists v :: v in vs && TruthOf(RuleOf(f, Eq, One(v)), who).Holds?)
  {
    if vs != [] {
      assert Equalities(f, vs)[1..] == Equalities(f, vs[1..]);
      assert Normalised(f, vs[1..]);
      AnyOfEqualities(f, vs[1..], who);
      EqualIff(f, vs[0], who);
      assert vs == [vs[0]] + vs[1..];
    }
  }

  lemma {:induction false} AnyOfUnreadable(f: RuleField, vs: seq<Scalar>, who: Reading)
    requires !IsReadable(f, FactOf(f, who)) && Normalised(f, vs) && vs != []
    ensures AnyTruth(Equalities(f, vs), who) == if who.semantics.Legacy? then Fails else Unknown
  {
    assert Equalities(f, vs)[1..] == Equalities(f, vs[1..]);
    UnreadableIsUndecided(Leaf(f, Eq, One(vs[0])), who);
    if |vs| > 1 { AnyOfUnreadable(f, vs[1..], who); } else { assert Equalities(f, vs[1..]) == []; }
  }

  /** `in` has, on every fact, the truth of the `any` of its equalities. */
  lemma InIsAnyOfEqualities(f: RuleField, vs: seq<Scalar>, who: Reading)
    requires ValidLeaf(Leaf(f, In, Values(vs)))
    ensures TruthOf(RuleOf(f, In, Values(vs)), who) == TruthOf(Any(Equalities(f, vs)), who)
  {
    var raw := FactOf(f, who);
    if IsReadable(f, raw) {
      AnyOfEqualities(f, vs, who);
      forall v | v in vs
        ensures TruthOf(RuleOf(f, Eq, One(v)), who) ==
                  TruthOfBool(if IsSetField(f) then v in raw.vs else ValueOf(f, raw.v) == v)
      {
        var i :| 0 <= i < |vs| && vs[i] == v;
        EqualIff(f, v, who);
      }
      if !IsSetField(f) { ReadableIff(f, raw); }
    } else {
      AnyOfUnreadable(f, vs, who);
      UnreadableIsUndecided(Leaf(f, In, Values(vs)), who);
    }
  }

  /** On a fact that can be judged, `not_in` is the negation of `in`. */
  lemma NotInIsNegation(f: RuleField, vs: seq<Scalar>, who: Reading)
    requires ValidLeaf(Leaf(f, NotIn, Values(vs))) && IsReadable(f, FactOf(f, who))
    ensures TruthOf(RuleOf(f, NotIn, Values(vs)), who) == TruthOf(Not(RuleOf(f, In, Values(vs))), who)
  {
    if !IsSetField(f) { ReadableIff(f, FactOf(f, who)); }
  }

  /** The number a value stands for. */
  function Amount(v: Scalar): real {
    match v
    case Whole(n) => n as real
    case Dec(d) => d
    case _ => 0.0
  }

  /** The range operators compare amounts, ends included, and `between` is both its ends. */
  lemma RangesCompareAmounts(leaf: Leaf, who: Reading)
    requires ValidLeaf(leaf) && IsRangeOp(leaf.op) && IsReadable(leaf.field, FactOf(leaf.field, who))
    ensures var actual := Amount(ValueOf(leaf.field, FactOf(leaf.field, who).v));
            TruthOf(Field(leaf), who) == TruthOfBool(
              match leaf.value
              case One(v) => if leaf.op.Gte? then actual >= Amount(v) else actual <= Amount(v)
              case Bounds(lower, upper) => Amount(lower) <= actual <= Amount(upper)
              case Values(_) => false)
  {
    ReadableIff(leaf.field, FactOf(leaf.field, who));
  }

  // ---------------------------------------------------------------- what the validator accepts

  /** The raw leaves that become rules: the right kind of operator and of values, lists not empty, bounds in order. */
  predicate IsAcceptable(f: RuleField, op: ComparisonOp, raw: RawExpected) {
    match op
    case Between =>
      && IsOrderedField(f) && raw.RawList? && |raw.vs| == 2
      && IsOfKind(f, raw.vs[0]) && IsOfKind(f, raw.vs[1]) && Amount(raw.vs[0]) <= Amount(raw.vs[1])
    case In => !IsBooleanField(f) && raw.RawList? && raw.vs != [] && forall v | v in raw.vs :: IsOfKind(f, v)
    case NotIn => !IsBooleanField(f) && raw.RawList? && raw.vs != [] && forall v | v in raw.vs :: IsOfKind(f, v)
    case Gte => IsOrderedField(f) && raw.RawScalar? && IsOfKind(f, raw.v)
    case Lte => IsOrderedField(f) && raw.RawScalar? && IsOfKind(f, raw.v)
    case _ => raw.RawScalar? && IsOfKind(f, raw.v)
  }

  lemma {:induction false} ListAccepted(f: RuleField, vs: seq<Scalar>)
    ensures NormalizeAll(f, vs).Some? <==> forall v | v in vs :: IsOfKind(f, v)
    ensures NormalizeAll(f, vs).Some? ==> NormalizeAll(f, vs).value == AllStoredAs(f, vs)
  {
    if vs != [] {
      ListAccepted(f, vs[1..]);
      StoredIff(f, vs[0]);
      assert vs == [vs[0]] + vs[1..];
    }
  }

  function AllStoredAs(f: RuleField, vs: seq<Scalar>): seq<Scalar> {
    seq(|vs|, i requires 0 <= i < |vs| => StoredAs(f, vs[i]))
  }

  /** Exactly those are accepted, and stored value by value as they were given. */
  lemma AcceptedIff(f: RuleField, op: ComparisonOp, raw: RawExpected)
    ensures Validated(f, op, raw).Some? <==> IsAcceptable(f, op, raw)
    ensures Validated(f, op, raw).Some? ==>
              match raw
              case RawScalar(v) => Validated(f, op, raw).value == Leaf(f, op, One(StoredAs(f, v)))
              case RawList(vs) =>
                if op.Between? then
                  && |vs| == 2
                  && Validated(f, op, raw).value == Leaf(f, op, Bounds(StoredAs(f, vs[0]), StoredAs(f, vs[1])))
                else Validated(f, op, raw).value == Leaf(f, op, Values(AllStoredAs(f, vs)))
              case RawNull => false
  {
    match op
    case In => if raw.RawList? { ListAccepted(f, raw.vs); }
    case NotIn => if raw.RawList? { ListAccepted(f, raw.vs); }
    case Between => BoundsAccepted(f, raw);
    case _ => if raw.RawScalar? { StoredIff(f, raw.v); }
  }

  lemma StoredKeepsAmounts(f: RuleField, lower: Scalar, upper: Scalar)
    requires IsOrderedField(f) && IsOfKind(f, lower) && IsOfKind(f, upper)
    ensures OrderedCompare(StoredAs(f, lower), StoredAs(f, upper), Lte) == Some(Amount(lower) <= Amount(upper))
  {
  }

  lemma BoundsAccepted(f: RuleField, raw: RawExpected)
    ensures Validated(f, Between, raw).Some? <==> IsAcceptable(f, Between, raw)
    ensures Validated(f, Between, raw).Some? ==>
              && raw.RawList? && |raw.vs| == 2
              && Validated(f, Between, raw).value
                   == Leaf(f, Between, Bounds(StoredAs(f, raw.vs[0]), StoredAs(f, raw.vs[1])))
  {
    if IsOrderedField(f) && raw.RawList? && |raw.vs| == 2 {
      StoredIff(f, raw.vs[0]);
      StoredIff(f, raw.vs[1]);
      if IsOfKind(f, raw.vs[0]) && IsOfKind(f, raw.vs[1]) { StoredKeepsAmounts(f, raw.vs[0], raw.vs[1]); }
    }
  }
}
