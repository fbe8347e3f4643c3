/**
 The eligibility evaluator (backend/app/domain/rules.py): a three-valued reading of a
 rule tree that also reports which requirements, at which paths, are not met.
 */
module Rules {
  import opened Common
  import opened RuleSchema

  datatype Truth = Fails | Holds | Unknown

  /** One segment of a rule path such as `$.all[2].not`. */
  datatype Step = AllAt(i: nat) | AnyAt(i: nat) | NotStep

  type Path = seq<Step>

  /** Why a requirement is unmet; the wording of each kind is not part of the model. */
  datatype Shortfall =
    | FieldShort(leaf: Leaf)
    | CriterionShort
    | NegationShort(node: RuleNode)
    | OneOfShort(alternatives: seq<Alternative>)

  /** One branch of a failed `any`: its own shortfalls joined, or the positive clause if it has none. */
  datatype Alternative = Joined(parts: seq<Shortfall>) | Fallback(node: RuleNode)

  datatype Failure = Failure(path: Path, shortfall: Shortfall)

  /**
   Whom a rule is read for and under which contract: the live profile facts, whether the
   student holds no accepted placement offer, and the evaluator version.
   */
  datatype Reading = Reading(facts: Facts, unplaced: bool, semantics: Semantics)

  // ---------------------------------------------------------------- three-valued connectives

  function And(a: Truth, b: Truth): Truth {
    if a.Fails? || b.Fails? then Fails else if a.Unknown? || b.Unknown? then Unknown else Holds
  }

  function Or(a: Truth, b: Truth): Truth {
    if a.Holds? || b.Holds? then Holds else if a.Unknown? || b.Unknown? then Unknown else Fails
  }

  function Negate(a: Truth): Truth {
    match a
    case Fails => Holds
    case Holds => Fails
    case Unknown => Unknown
  }

  // ---------------------------------------------------------------- leaves

  function CompareSet(actual: set<Scalar>, expected: Expected, op: ComparisonOp): bool {
    match (op, expected)
    case (In, Values(vs)) => exists v | v in actual :: v in vs
    case (NotIn, Values(vs)) => forall v | v in actual :: v !in vs
    case (Eq, One(v)) => v in actual
    case (Ne, One(v)) => v !in actual
    case _ => false
  }

  /** None stands for a TypeError. */
  function Compare(actual: Scalar, expected: Expected, op: ComparisonOp): Option<bool> {
    match (op, expected)
    case (Eq, One(v)) => Some(actual == v)
    case (Ne, One(v)) => Some(actual != v)
    case (In, Values(vs)) => Some(actual in vs)
    case (NotIn, Values(vs)) => Some(actual !in vs)
    case (Gte, One(v)) => OrderedCompare(actual, v, Gte)
    case (Lte, One(v)) => OrderedCompare(actual, v, Lte)
    case (Between, Bounds(lower, upper)) =>
      (match (OrderedCompare(lower, actual, Lte), OrderedCompare(actual, upper, Lte))
       case (None, _) => None
       case (Some(false), _) => Some(false)
       case (Some(true), upperOk) => upperOk)
    case _ => None
  }

  function TruthOfBool(b: bool): Truth {
    if b then Holds else Fails
  }

  function FieldTruth(leaf: Leaf, facts: Facts, semantics: Semantics): Truth {
    var raw := Lookup(facts, ActualKey(leaf.field, semantics));
    var missing := if semantics.Legacy? then Fails else Unknown;
    if IsSetField(leaf.field) then
      if !raw.Set? || raw.vs == {} then missing else TruthOfBool(CompareSet(raw.vs, leaf.value, leaf.op))
    else
      match NormalizeActual(leaf.field, raw)
      case None => missing
      case Some(actual) =>
        match Compare(actual, leaf.value, leaf.op)
        case None => missing
        case Some(passed) => TruthOfBool(passed)
  }

  // ---------------------------------------------------------------- what the evaluator means

  /** Strong Kleene truth of a tree. */
  function TruthOf(node: RuleNode, who: Reading): Truth
    decreases node, 1
  {
    match node
    case All(cs) => AllTruth(cs, who)
    case Any(cs) => AnyTruth(cs, who)
    case Not(c) => Negate(TruthOf(c, who))
    case NotPlacementPlaced => TruthOfBool(who.unplaced)
    case Field(leaf) => FieldTruth(leaf, who.facts, who.semantics)
  }

  function AllTruth(cs: seq<RuleNode>, who: Reading): Truth
    decreases cs, 0
  {
    if cs == [] then Holds
    else And(TruthOf(cs[0], who), AllTruth(cs[1..], who))
  }

  function AnyTruth(cs: seq<RuleNode>, who: Reading): Truth
    decreases cs, 0
  {
    if cs == [] then Fails
    else Or(TruthOf(cs[0], who), AnyTruth(cs[1..], who))
  }

  /** The unmet requirements of a node, with paths relative to it. */
  function FailuresOf(node: RuleNode, who: Reading): seq<Failure>
    decreases node, 1
  {
    match node
    case All(cs) => AllFailures(cs, 0, who)
    case Any(cs) =>
      if AnyTruth(cs, who).Holds? then []
      else [Failure([], OneOfShort(Alternatives(cs, who)))]
    case Not(c) =>
      (match TruthOf(c, who)
       case Fails => []
       case Unknown => Under(NotStep, FailuresOf(c, who))
       case Holds => [Failure([], NegationShort(node))])
    case NotPlacementPlaced => if who.unplaced then [] else [Failure([], CriterionShort)]
    case Field(leaf) =>
      if FieldTruth(leaf, who.facts, who.semantics).Holds? then [] else [Failure([], FieldShort(leaf))]
  }

  /** What child i of an `all` adds to its parent's report. */
  function Contribution(c: RuleNode, i: nat, who: Reading): seq<Failure>
    decreases c, 2
  {
    if TruthOf(c, who).Holds? then [] else Under(AllAt(i), FailuresOf(c, who))
  }

  function AllFailures(cs: seq<RuleNode>, i: nat, who: Reading): seq<Failure>
    decreases cs, 0
  {
    if cs == [] then []
    else Contribution(cs[0], i, who) + AllFailures(cs[1..], i + 1, who)
  }

  function Alternatives(cs: seq<RuleNode>, who: Reading): seq<Alternative>
    decreases cs, 0
  {
    if cs == [] then []
    else [AlternativeOf(cs[0], FailuresOf(cs[0], who))]
         + Alternatives(cs[1..], who)
  }

  function AlternativeOf(child: RuleNode, failures: seq<Failure>): Alternative {
    if failures == [] then Fallback(child)
    else Joined(seq(|failures|, i requires 0 <= i < |failures| => failures[i].shortfall))
  }

  function Under(step: Step, failures: seq<Failure>): seq<Failure> {
    At([step], failures)
  }

  function At(path: Path, failures: seq<Failure>): (r: seq<Failure>)
    ensures |r| == |failures|
    ensures forall i | 0 <= i < |r| :: r[i] == Failure(path + failures[i].path, failures[i].shortfall)
  {
    seq(|failures|, i requires 0 <= i < |failures| => Failure(path + failures[i].path, failures[i].shortfall))
  }

  // ---------------------------------------------------------------- the evaluator itself

  lemma AtComposes(path: Path, step: Step, failures: seq<Failure>)
    ensures At(path + [step], failures) == At(path, Under(step, failures))
  {
    forall i | 0 <= i < |failures|
      ensures (path + [step]) + failures[i].path == path + ([step] + failures[i].path)
    {}
  }

  /** A failure reported at the node itself. */
  lemma AtNode(path: Path, shortfall: Shortfall)
    ensures At(path, [Failure([], shortfall)]) == [Failure(path, shortfall)]
  {
    assert path + [] == path;
  }

  lemma AtConcat(path: Path, a: seq<Failure>, b: seq<Failure>)
    ensures At(path, a + b) == At(path, a) + At(path, b)
  {
  }

  lemma {:induction false} AllTruthSnoc(cs: seq<RuleNode>, c: RuleNode, who: Reading)
    ensures AllTruth(cs + [c], who)
         == And(AllTruth(cs, who), TruthOf(c, who))
  {
    if cs == [] {
      assert cs + [c] == [c];
    } else {
      assert (cs + [c])[1..] == cs[1..] + [c];
      AllTruthSnoc(cs[1..], c, who);
    }
  }

  lemma {:induction false} AnyTruthSnoc(cs: seq<RuleNode>, c: RuleNode, who: Reading)
    ensures AnyTruth(cs + [c], who)
         == Or(AnyTruth(cs, who), TruthOf(c, who))
    ensures Alternatives(cs + [c], who)
         == Alternatives(cs, who)
            + [AlternativeOf(c, FailuresOf(c, who))]
  {
    if cs == [] {
      assert cs + [c] == [c];
    } else {
      assert (cs + [c])[1..] == cs[1..] + [c];
      AnyTruthSnoc(cs[1..], c, who);
    }
  }

  lemma {:induction false} AllFailuresSnoc(cs: seq<RuleNode>, c: RuleNode, i: nat, who: Reading)
    ensures AllFailures(cs + [c], i, who) == AllFailures(cs, i, who) + Contribution(c, i + |cs|, who)
  {
    if cs == [] {
      assert cs + [c] == [c];
      assert [c][1..] == [];
    } else {
      assert (cs + [c])[1..] == cs[1..] + [c];
      AllFailuresSnoc(cs[1..], c, i + 1, who);
      Concat3(Contribution(cs[0], i, who), AllFailures(cs[1..], i + 1, who), Contribution(c, i + |cs|, who));
    }
  }

  lemma Concat3<T>(a: seq<T>, b: seq<T>, c: seq<T>)
    ensures (a + b) + c == a + (b + c)
  {
  }

  lemma AnyHolds(cs: seq<RuleNode>, i: nat, who: Reading)
    requires i < |cs| && TruthOf(cs[i], who).Holds?
    ensures AnyTruth(cs, who).Holds?
  {
    if i > 0 {
      AnyHolds(cs[1..], i - 1, who);
    }
  }

  /** The recursive evaluator, loops and early return included. */
  method EvaluateNode(node: RuleNode, who: Reading, path: Path)
    returns (truth: Truth, failures: seq<Failure>)
    ensures truth == TruthOf(node, who)
    ensures failures == At(path, FailuresOf(node, who))
    decreases node, 1
  {
    match node
    case All(cs) => truth, failures := EvaluateAll(node, who, path);
    case Any(cs) => truth, failures := EvaluateAny(node, who, path);
    case Not(c) =>
      var childTruth, childFailures := EvaluateNode(c, who, path + [NotStep]);
      AtComposes(path, NotStep, FailuresOf(c, who));
      match childTruth {
        case Fails => return Holds, [];
        case Unknown => return Unknown, childFailures;
        case Holds =>
          AtNode(path, NegationShort(node));
          return Fails, [Failure(path, NegationShort(node))];
      }
    case NotPlacementPlaced =>
      if who.unplaced { return Holds, []; }
      AtNode(path, CriterionShort);
      return Fails, [Failure(path, CriterionShort)];
    case Field(leaf) =>
      AtNode(path, FieldShort(leaf));
      truth := FieldTruth(leaf, who.facts, who.semantics);
      failures := if truth.Holds? then [] else [Failure(path, FieldShort(leaf))];
  }

  method EvaluateAll(node: RuleNode, who: Reading, path: Path)
    returns (truth: Truth, failures: seq<Failure>)
    requires node.All?
    ensures truth == TruthOf(node, who)
    ensures failures == At(path, FailuresOf(node, who))
    decreases node, 0
  {
    var cs := node.children;
    failures := [];
    var childTruths: seq<Truth> := [];
    for i := 0 to |cs|
      invariant AllTruth(cs[..i], who) == Conjunction(childTruths)
      invariant failures == At(path, AllFailures(cs[..i], 0, who))
    {
      var childTruth, childFailures := EvaluateNode(cs[i], who, path + [AllAt(i)]);
      assert cs[..i + 1] == cs[..i] + [cs[i]];
      AllTruthSnoc(cs[..i], cs[i], who);
      AllFailuresSnoc(cs[..i], cs[i], 0, who);
      AtComposes(path, AllAt(i), FailuresOf(cs[i], who));
      AtConcat(path, AllFailures(cs[..i], 0, who), Contribution(cs[i], i, who));
      childTruths := childTruths + [childTruth];
      if !childTruth.Holds? {
        failures := failures + childFailures;
      }
    }
    assert cs[..|cs|] == cs;
    if Fails in childTruths { return Fails, failures; }
    if Unknown in childTruths { return Unknown, failures; }
    HoldsMeansNoFailures(cs, 0, who);
    return Holds, [];
  }

  function Conjunction(truths: seq<Truth>): Truth {
    if Fails in truths then Fails else if Unknown in truths then Unknown else Holds
  }

  lemma {:induction false} HoldsMeansNoFailures(cs: seq<RuleNode>, i: nat, who: Reading)
    requires AllTruth(cs, who).Holds?
    ensures AllFailures(cs, i, who) == []
  {
    if cs != [] {
      HoldsMeansNoFailures(cs[1..], i + 1, who);
    }
  }

  method EvaluateAny(node: RuleNode, who: Reading, path: Path)
    returns (truth: Truth, failures: seq<Failure>)
    requires node.Any?
    ensures truth == TruthOf(node, who)
    ensures failures == At(path, FailuresOf(node, who))
    decreases node, 0
  {
    var cs := node.children;
    var alternatives := [];
    var sawUnknown := false;
    for i := 0 to |cs|
      invariant AnyTruth(cs[..i], who) == if sawUnknown then Unknown else Fails
      invariant alternatives == Alternatives(cs[..i], who)
    {
      var childTruth, childFailures := EvaluateNode(cs[i], who, path + [AnyAt(i)]);
      if childTruth.Holds? {
        AnyHolds(cs, i, who);
        return Holds, [];
      }
      assert cs[..i + 1] == cs[..i] + [cs[i]];
      AnyTruthSnoc(cs[..i], cs[i], who);
      sawUnknown := sawUnknown || childTruth.Unknown?;
      AlternativeIgnoresPaths(cs[i], path + [AnyAt(i)], FailuresOf(cs[i], who));
      alternatives := alternatives + [AlternativeOf(cs[i], childFailures)];
    }
    assert cs[..|cs|] == cs;
    truth := if sawUnknown then Unknown else Fails;
    AtNode(path, OneOfShort(alternatives));
    failures := [Failure(path, OneOfShort(alternatives))];
  }

  lemma AlternativeIgnoresPaths(child: RuleNode, path: Path, failures: seq<Failure>)
    ensures AlternativeOf(child, At(path, failures)) == AlternativeOf(child, failures)
  {
  }

  /** The public answer: the verdict, and a generic failure when a denial carries none. */
  method Evaluate(node: RuleNode, who: Reading)
    returns (verdict: bool, paths: seq<Path>)
    ensures verdict <==> TruthOf(node, who).Holds?
    ensures verdict <==> paths == []
    ensures paths == PathsOf(FailuresOf(node, who))
  {
    var truth, failures := EvaluateNode(node, who, []);
    NoFailuresIffHolds(node, who);
    verdict := truth.Holds?;
    paths := PathsOf(failures);
    AtRoot(FailuresOf(node, who));
    if !verdict && paths == [] {
      paths := [[]];
    }
  }

  lemma AtRoot(failures: seq<Failure>)
    ensures At([], failures) == failures
  {
    forall i | 0 <= i < |failures| ensures [] + failures[i].path == failures[i].path {}
  }

  function PathsOf(failures: seq<Failure>): (r: seq<Path>)
    ensures |r| == |failures|
  {
    seq(|failures|, i requires 0 <= i < |failures| => failures[i].path)
  }

  // ---------------------------------------------------------------- the failure report

  /** A denial always carries a failure and a pass never does, so neither fallback can run. */
  lemma {:induction false} NoFailuresIffHolds(node: RuleNode, who: Reading)
    ensures FailuresOf(node, who) == [] <==> TruthOf(node, who).Holds?
    decreases node, 1
  {
    match node
    case All(cs) => AllNoFailuresIffHolds(cs, 0, who);
    case Not(c) => NoFailuresIffHolds(c, who);
    case _ =>
  }

  lemma {:induction false} AllNoFailuresIffHolds(cs: seq<RuleNode>, i: nat, who: Reading)
    ensures AllFailures(cs, i, who) == [] <==> AllTruth(cs, who).Holds?
    decreases cs, 0
  {
    if cs != [] {
      NoFailuresIffHolds(cs[0], who);
      AllNoFailuresIffHolds(cs[1..], i + 1, who);
    }
  }
}
