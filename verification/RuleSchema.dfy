/**
 The eligibility-rule tree and the normalisation of its values
 (backend/app/domain/rule_schema.py).
 */
module RuleSchema {
  import opened Common

  datatype RuleField =
    | ProgramId | ComponentProgramId | SecondaryProgramId
    | PrimaryBranchId | SecondaryBranchId | DisciplineId
    | StudyYear | GraduatingYear | Cpi | ActiveBacklogs | TotalBacklogs
    | Gender | TenthPercent | TenthYear | TwelfthPercent | TwelfthYear
    | Minor1Id | Minor2Id | Nationality | IsDualMajor | IsDualDegree

  datatype ComparisonOp = Eq | Ne | In | NotIn | Gte | Lte | Between

  /** The persisted evaluator contract: Legacy is version 1, Current is version 2. */
  datatype Semantics = Legacy | Current

  datatype Scalar = Uuid(id: Id) | Whole(n: int) | Dec(d: real) | Text(s: string) | Flag(b: bool)

  /** The comparison side of a validated leaf: one scalar, a list, or two bounds. */
  datatype Expected = One(v: Scalar) | Values(vs: seq<Scalar>) | Bounds(lower: Scalar, upper: Scalar)

  datatype RawExpected = RawNull | RawScalar(v: Scalar) | RawList(vs: seq<Scalar>)

  datatype Leaf = Leaf(field: RuleField, op: ComparisonOp, value: Expected)

  datatype RuleNode =
    | All(children: seq<RuleNode>)
    | Any(children: seq<RuleNode>)
    | Not(child: RuleNode)
    | NotPlacementPlaced
    | Field(leaf: Leaf)

  /** The profile keys a rule may read; `ByField` is the column named after the field. */
  datatype FactKey = ByField(field: RuleField) | LegacyProgramId | ComponentProgramIds | CurrentStudyYear

  datatype Fact = Absent | Single(v: Scalar) | Set(vs: set<Scalar>)

  type Facts = map<FactKey, Fact>

  predicate IsUuidField(f: RuleField) {
    || f.ProgramId? || f.ComponentProgramId? || f.SecondaryProgramId? || f.PrimaryBranchId?
    || f.SecondaryBranchId? || f.DisciplineId? || f.Minor1Id? || f.Minor2Id?
  }

  predicate IsIntegerField(f: RuleField) {
    f.StudyYear? || f.GraduatingYear? || f.ActiveBacklogs? || f.TotalBacklogs? || f.TenthYear? || f.TwelfthYear?
  }

  predicate IsDecimalField(f: RuleField) {
    f.Cpi? || f.TenthPercent? || f.TwelfthPercent?
  }

  predicate IsBooleanField(f: RuleField) {
    f.IsDualMajor? || f.IsDualDegree?
  }

  predicate IsOrderedField(f: RuleField) {
    IsIntegerField(f) || IsDecimalField(f)
  }

  predicate IsSetField(f: RuleField) {
    f.DisciplineId? || f.ComponentProgramId?
  }

  predicate IsRangeOp(op: ComparisonOp) {
    op.Gte? || op.Lte? || op.Between?
  }

  predicate IsListOp(op: ComparisonOp) {
    op.In? || op.NotIn?
  }

  function ActualKey(f: RuleField, semantics: Semantics): FactKey {
    if semantics.Legacy? && f.ProgramId? then LegacyProgramId
    else if semantics.Legacy? && f.StudyYear? then ByField(StudyYear)
    else if f.ComponentProgramId? then ComponentProgramIds
    else if f.StudyYear? then CurrentStudyYear
    else ByField(f)
  }

  /** `profile.get(key)`: a missing key reads as null. */
  function Lookup(facts: Facts, key: FactKey): Fact {
    if key in facts then facts[key] else Absent
  }

  /** None stands for the ValueError raised on a value of the wrong type. */
  function NormalizeExpected(f: RuleField, v: Scalar): Option<Scalar> {
    if IsUuidField(f) then if v.Uuid? then Some(v) else None
    else if IsIntegerField(f) then if v.Whole? then Some(v) else None
    else if IsDecimalField(f) then
      match v
      case Whole(n) => Some(Dec(n as real))
      case Dec(_) => Some(v)
      case _ => None
    else if IsBooleanField(f) then if v.Flag? then Some(v) else None
    else if f.Gender? then if v.Text? && v.s in {"male", "female", "other"} then Some(v) else None
    else if v.Text? then Some(v) else None
  }

  /** Decimal.quantize(Decimal("0.1"), ROUND_HALF_UP): ties go away from zero. */
  function RoundToTenth(x: real): real {
    if x >= 0.0 then (x * 10.0 + 0.5).Floor as real / 10.0
    else -((-x * 10.0 + 0.5).Floor as real / 10.0)
  }

  function NormalizeActual(f: RuleField, raw: Fact): Option<Scalar> {
    match raw
    case Single(v) =>
      (match NormalizeExpected(f, v)
       case None => None
       case Some(n) => if f.Cpi? && n.Dec? then Some(Dec(RoundToTenth(n.d))) else Some(n))
    case _ => None
  }

  /** None stands for the TypeError raised when either side is not a number. */
  function OrderedCompare(left: Scalar, right: Scalar, op: ComparisonOp): Option<bool> {
    match (Number(left), Number(right))
    case (Some(l), Some(r)) => Some(if op.Lte? then l <= r else l >= r)
    case _ => None
  }

  /** Python counts a bool as an int. */
  function Number(v: Scalar): Option<real> {
    match v
    case Whole(n) => Some(n as real)
    case Dec(d) => Some(d)
    case Flag(b) => Some(if b then 1.0 else 0.0)
    case _ => None
  }

  function NormalizeAll(f: RuleField, vs: seq<Scalar>): Option<seq<Scalar>> {
    if vs == [] then Some([])
    else
      match (NormalizeExpected(f, vs[0]), NormalizeAll(f, vs[1..]))
      case (Some(v), Some(rest)) => Some([v] + rest)
      case _ => None
  }

  /** The model validator of a field leaf: None is a rejected rule. */
  function Validated(f: RuleField, op: ComparisonOp, raw: RawExpected): Option<Leaf> {
    if IsRangeOp(op) && !IsOrderedField(f) then None
    else if IsListOp(op) && IsBooleanField(f) then None
    else if IsListOp(op) then
      if !raw.RawList? || raw.vs == [] then None
      else
        match NormalizeAll(f, raw.vs)
        case Some(vs) => Some(Leaf(f, op, Values(vs)))
        case None => None
    else if op.Between? then
      if !raw.RawList? || |raw.vs| != 2 then None
      else
        match (NormalizeExpected(f, raw.vs[0]), NormalizeExpected(f, raw.vs[1]))
        case (Some(lower), Some(upper)) =>
          if OrderedCompare(lower, upper, Lte) == Some(true) then Some(Leaf(f, op, Bounds(lower, upper))) else None
        case _ => None
    else if !raw.RawScalar? then None
    else
      match NormalizeExpected(f, raw.v)
      case Some(v) => Some(Leaf(f, op, One(v)))
      case None => None
  }

  /** What the validator leaves in a leaf: the shape its operator needs, with normalised values. */
  predicate ValidLeaf(leaf: Leaf) {
    && (IsRangeOp(leaf.op) ==> IsOrderedField(leaf.field))
    && (IsListOp(leaf.op) ==> !IsBooleanField(leaf.field))
    && match leaf.op
       case In => leaf.value.Values? && leaf.value.vs != [] && Normalised(leaf.field, leaf.value.vs)
       case NotIn => leaf.value.Values? && leaf.value.vs != [] && Normalised(leaf.field, leaf.value.vs)
       case Between =>
         && leaf.value.Bounds?
         && NormalizeExpected(leaf.field, leaf.value.lower) == Some(leaf.value.lower)
         && NormalizeExpected(leaf.field, leaf.value.upper) == Some(leaf.value.upper)
         && OrderedCompare(leaf.value.lower, leaf.value.upper, Lte) == Some(true)
       case _ => leaf.value.One? && NormalizeExpected(leaf.field, leaf.value.v) == Some(leaf.value.v)
  }

  predicate Normalised(f: RuleField, vs: seq<Scalar>) {
    forall i | 0 <= i < |vs| :: NormalizeExpected(f, vs[i]) == Some(vs[i])
  }

  /** The schema: no empty `all` or `any`, every leaf validated. */
  predicate WellFormed(node: RuleNode) {
    match node
    case All(cs) => cs != [] && forall c | c in cs :: WellFormed(c)
    case Any(cs) => cs != [] && forall c | c in cs :: WellFormed(c)
    case Not(c) => WellFormed(c)
    case NotPlacementPlaced => true
    case Field(leaf) => ValidLeaf(leaf)
  }

  lemma {:induction false} NormalizeAllNormalises(f: RuleField, vs: seq<Scalar>)
    requires NormalizeAll(f, vs).Some?
    ensures |NormalizeAll(f, vs).value| == |vs|
    ensures Normalised(f, NormalizeAll(f, vs).value)
  {
    if vs != [] {
      NormalizeAllNormalises(f, vs[1..]);
    }
  }

  function Raw(value: Expected): RawExpected {
    match value
    case One(v) => RawScalar(v)
    case Values(vs) => RawList(vs)
    case Bounds(lower, upper) => RawList([lower, upper])
  }

  lemma {:induction false} NormalizeAllFixed(f: RuleField, vs: seq<Scalar>)
    requires Normalised(f, vs)
    ensures NormalizeAll(f, vs) == Some(vs)
  {
    if vs != [] {
      NormalizeAllFixed(f, vs[1..]);
      assert vs == [vs[0]] + vs[1..];
    }
  }

  /** Whatever the validator accepts is a valid leaf over the same field and operator. */
  lemma ValidatedIsValid(f: RuleField, op: ComparisonOp, raw: RawExpected)
    requires Validated(f, op, raw).Some?
    ensures ValidLeaf(Validated(f, op, raw).value)
  {
    if IsListOp(op) {
      NormalizeAllNormalises(f, raw.vs);
    } else {
      NormalizeOnce(f, if op.Between? then raw.vs[0] else raw.v);
      NormalizeOnce(f, if op.Between? then raw.vs[1] else raw.v);
    }
  }

  lemma NormalizeOnce(f: RuleField, v: Scalar)
    ensures NormalizeExpected(f, v).Some? ==>
              NormalizeExpected(f, NormalizeExpected(f, v).value) == NormalizeExpected(f, v)
  {
  }

  /** A stored rule validates again to itself: reloading a rule never changes it. */
  lemma ValidLeafRevalidates(leaf: Leaf)
    requires ValidLeaf(leaf)
    ensures Validated(leaf.field, leaf.op, Raw(leaf.value)) == Some(leaf)
  {
    if IsListOp(leaf.op) {
      NormalizeAllFixed(leaf.field, leaf.value.vs);
    }
  }
}
