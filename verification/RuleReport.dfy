/**
 What a failure report is worth: every path in it leads to an unmet requirement, no path
 appears twice, and repairing the reported requirements is exactly what a pass needs.
 */
module RuleReport {
  import opened Common
  import opened RuleSchema
  import opened Rules

  /** The node a path addresses. */
  function Resolve(node: RuleNode, path: Path): Option<RuleNode>
    decreases path
  {
    if path == [] then Some(node)
    else
      match (node, path[0])
      case (All(cs), AllAt(i)) => if i < |cs| then Resolve(cs[i], path[1..]) else None
      case (Any(cs), AnyAt(i)) => if i < |cs| then Resolve(cs[i], path[1..]) else None
      case (Not(c), NotStep) => Resolve(c, path[1..])
      case _ => None
  }

  /** Reading the report structurally: does the node at absolute path `at` report path p? */
  ghost predicate Reports(node: RuleNode, at: Path, who: Reading, p: Path)
    decreases node
  {
    match node
    case All(cs) => exists i | 0 <= i < |cs| :: Reports(cs[i], at + [AllAt(i)], who, p)
    case Not(c) =>
      (match TruthOf(c, who)
       case Fails => false
       case Unknown => Reports(c, at + [NotStep], who, p)
       case Holds => p == at)
    case _ => !TruthOf(node, who).Holds? && p == at
  }

  lemma {:induction false} AllFailureFromChild(cs: seq<RuleNode>, i: nat, who: Reading, k: nat)
    returns (j: nat, m: nat)
    requires k < |AllFailures(cs, i, who)|
    ensures j < |cs| && m < |Contribution(cs[j], i + j, who)|
    ensures AllFailures(cs, i, who)[k] == Contribution(cs[j], i + j, who)[m]
  {
    var first := |Contribution(cs[0], i, who)|;
    if k < first {
      j, m := 0, k;
    } else {
      j, m := AllFailureFromChild(cs[1..], i + 1, who, k - first);
      j := j + 1;
    }
  }

  lemma {:induction false} ChildFailureIsInAll(cs: seq<RuleNode>, i: nat, who: Reading, j: nat, m: nat)
    returns (k: nat)
    requires j < |cs| && m < |Contribution(cs[j], i + j, who)|
    ensures k < |AllFailures(cs, i, who)|
    ensures AllFailures(cs, i, who)[k] == Contribution(cs[j], i + j, who)[m]
  {
    if j == 0 {
      k := m;
    } else {
      k := ChildFailureIsInAll(cs[1..], i + 1, who, j - 1, m);
      k := k + |Contribution(cs[0], i, who)|;
    }
  }

  /** Every entry of the report is reported structurally. */
  lemma {:induction false} ListedIsReported(node: RuleNode, at: Path, who: Reading, k: nat)
    requires k < |FailuresOf(node, who)|
    ensures Reports(node, at, who, at + FailuresOf(node, who)[k].path)
    decreases node
  {
    match node
    case All(cs) =>
      var j, m := AllFailureFromChild(cs, 0, who, k);
      var tail := FailuresOf(cs[j], who)[m].path;
      ListedIsReported(cs[j], at + [AllAt(j)], who, m);
      assert at + ([AllAt(j)] + tail) == (at + [AllAt(j)]) + tail;
    case Not(c) =>
      if TruthOf(c, who).Unknown? {
        ListedIsReported(c, at + [NotStep], who, k);
        var tail := FailuresOf(c, who)[k].path;
        assert at + ([NotStep] + tail) == (at + [NotStep]) + tail;
      } else {
        assert at + [] == at;
      }
    case _ => assert at + [] == at;
  }

  /** Everything reported structurally is an entry of the report. */
  lemma {:induction false} ReportedIsListed(node: RuleNode, at: Path, who: Reading, p: Path) returns (k: nat)
    requires Reports(node, at, who, p)
    ensures k < |FailuresOf(node, who)|
    ensures p == at + FailuresOf(node, who)[k].path
    decreases node
  {
    match node
    case All(cs) =>
      var j :| 0 <= j < |cs| && Reports(cs[j], at + [AllAt(j)], who, p);
      var m := ReportedIsListed(cs[j], at + [AllAt(j)], who, p);
      NoFailuresIffHolds(cs[j], who);
      k := ChildFailureIsInAll(cs, 0, who, j, m);
      var tail := FailuresOf(cs[j], who)[m].path;
      assert at + ([AllAt(j)] + tail) == (at + [AllAt(j)]) + tail;
    case Not(c) =>
      if TruthOf(c, who).Unknown? {
        k := ReportedIsListed(c, at + [NotStep], who, p);
        var tail := FailuresOf(c, who)[k].path;
        assert at + ([NotStep] + tail) == (at + [NotStep]) + tail;
      } else {
        k := 0;
        assert at + [] == at;
      }
    case _ =>
      k := 0;
      assert at + [] == at;
  }

  /** A reported path extends the node's own path and leads to a requirement that does not hold. */
  lemma {:induction false} ReportedNodeIsUnmet(node: RuleNode, at: Path, who: Reading, p: Path)
    requires Reports(node, at, who, p)
    ensures at <= p
    ensures Resolve(node, p[|at|..]).Some? && !TruthOf(Resolve(node, p[|at|..]).value, who).Holds?
    ensures !TruthOf(node, who).Holds?
    decreases node
  {
    match node
    case All(cs) =>
      var i :| 0 <= i < |cs| && Reports(cs[i], at + [AllAt(i)], who, p);
      ReportedNodeIsUnmet(cs[i], at + [AllAt(i)], who, p);
      StepInto(at, AllAt(i), p);
      if TruthOf(node, who).Holds? { AllHolds(cs, i, who); }
    case Not(c) =>
      if TruthOf(c, who).Unknown? {
        ReportedNodeIsUnmet(c, at + [NotStep], who, p);
        StepInto(at, NotStep, p);
      }
    case _ =>
  }

  lemma StepInto(at: Path, step: Step, p: Path)
    requires at + [step] <= p
    ensures at <= p && p[|at|..] != [] && p[|at|..][0] == step && p[|at|..][1..] == p[|at| + 1..]
    ensures |at + [step]| == |at| + 1
  {
    assert (at + [step])[|at|] == step;
    assert p[..|at|] == (at + [step])[..|at|] == at;
  }

  lemma {:induction false} AllHolds(cs: seq<RuleNode>, i: nat, who: Reading)
    requires i < |cs| && AllTruth(cs, who).Holds?
    ensures TruthOf(cs[i], who).Holds?
  {
    if i > 0 { AllHolds(cs[1..], i - 1, who); }
  }

  /** Every path in the report resolves, inside the rule, to a node that is not TRUE. */
  lemma ReportPointsAtUnmetNodes(node: RuleNode, who: Reading, k: nat)
    requires k < |FailuresOf(node, who)|
    ensures var p := FailuresOf(node, who)[k].path;
            Resolve(node, p).Some? && !TruthOf(Resolve(node, p).value, who).Holds?
  {
    ListedIsReported(node, [], who, k);
    var p := FailuresOf(node, who)[k].path;
    assert [] + p == p;
    ReportedNodeIsUnmet(node, [], who, p);
    assert p[0..] == p;
  }

  /** No path is reported twice. */
  lemma {:induction false} ReportPathsAreDistinct(node: RuleNode, who: Reading, a: nat, b: nat)
    requires a < b < |FailuresOf(node, who)|
    ensures FailuresOf(node, who)[a].path != FailuresOf(node, who)[b].path
    decreases node, 1
  {
    match node
    case All(cs) => AllPathsAreDistinct(cs, 0, who, a, b);
    case Not(c) =>
      ReportPathsAreDistinct(c, who, a, b);
      TailsDiffer(NotStep, FailuresOf(c, who)[a].path, FailuresOf(c, who)[b].path);
    case _ =>
  }

  lemma TailsDiffer(step: Step, p: Path, q: Path)
    requires p != q
    ensures [step] + p != [step] + q
  {
    assert ([step] + p)[1..] == p;
    assert ([step] + q)[1..] == q;
  }

  lemma {:induction false} AllPathsAreDistinct(cs: seq<RuleNode>, i: nat, who: Reading, a: nat, b: nat)
    requires a < b < |AllFailures(cs, i, who)|
    ensures AllFailures(cs, i, who)[a].path != AllFailures(cs, i, who)[b].path
    decreases cs, 0
  {
    var mine := Contribution(cs[0], i, who);
    if b < |mine| {
      ReportPathsAreDistinct(cs[0], who, a, b);
      TailsDiffer(AllAt(i), FailuresOf(cs[0], who)[a].path, FailuresOf(cs[0], who)[b].path);
    } else if a < |mine| {
      var j, m := AllFailureFromChild(cs[1..], i + 1, who, b - |mine|);
      assert AllFailures(cs, i, who)[b].path[0] == AllAt(i + 1 + j);
    } else {
      AllPathsAreDistinct(cs[1..], i + 1, who, a - |mine|, b - |mine|);
    }
  }

  /** The paths part at an `all`, the first into an earlier child. */
  predicate Precedes(p: Path, q: Path)
    decreases p
  {
    && p != [] && q != []
    && if p[0] == q[0] then Precedes(p[1..], q[1..])
       else p[0].AllAt? && q[0].AllAt? && p[0].i < q[0].i
  }

  /** The entries come in the order in which the rule lists what they are about. */
  lemma {:induction false} ReportIsInOrder(node: RuleNode, who: Reading, a: nat, b: nat)
    requires a < b < |FailuresOf(node, who)|
    ensures Precedes(FailuresOf(node, who)[a].path, FailuresOf(node, who)[b].path)
    decreases node, 1
  {
    match node
    case All(cs) => AllIsInOrder(cs, 0, who, a, b);
    case Not(c) =>
      ReportIsInOrder(c, who, a, b);
      StepPrecedes(NotStep, FailuresOf(c, who)[a].path, FailuresOf(c, who)[b].path);
    case _ =>
  }

  lemma StepPrecedes(step: Step, p: Path, q: Path)
    requires Precedes(p, q)
    ensures Precedes([step] + p, [step] + q)
  {
    assert ([step] + p)[1..] == p;
    assert ([step] + q)[1..] == q;
  }

  lemma {:induction false} AllIsInOrder(cs: seq<RuleNode>, i: nat, who: Reading, a: nat, b: nat)
    requires a < b < |AllFailures(cs, i, who)|
    ensures Precedes(AllFailures(cs, i, who)[a].path, AllFailures(cs, i, who)[b].path)
    decreases cs, 0
  {
    var mine := Contribution(cs[0], i, who);
    if b < |mine| {
      ReportIsInOrder(cs[0], who, a, b);
      StepPrecedes(AllAt(i), FailuresOf(cs[0], who)[a].path, FailuresOf(cs[0], who)[b].path);
    } else if a < |mine| {
      var j, m := AllFailureFromChild(cs[1..], i + 1, who, b - |mine|);
      assert AllFailures(cs, i, who)[b].path[0] == AllAt(i + 1 + j);
      assert AllFailures(cs, i, who)[a].path[0] == AllAt(i);
    } else {
      AllIsInOrder(cs[1..], i + 1, who, a - |mine|, b - |mine|);
    }
  }

  /** What an entry about this node says: the requirement itself or, of a choice, what each branch lacks, in order. */
  ghost predicate SaysWhat(n: RuleNode, who: Reading, s: Shortfall) {
    match n
    case Field(leaf) => s == FieldShort(leaf)
    case NotPlacementPlaced => s == CriterionShort
    case Not(_) => s == NegationShort(n)
    case All(_) => false
    case Any(cs) =>
      && s.OneOfShort? && |s.alternatives| == |cs|
      && forall i | 0 <= i < |cs| ::
           var lacks := FailuresOf(cs[i], who);
           && s.alternatives[i].Joined? && |s.alternatives[i].parts| == |lacks| > 0
           && forall k | 0 <= k < |lacks| :: s.alternatives[i].parts[k] == lacks[k].shortfall
  }

  lemma {:induction false} AlternativesSayWhat(cs: seq<RuleNode>, who: Reading, i: nat)
    requires i < |cs| && !TruthOf(cs[i], who).Holds?
    ensures |Alternatives(cs, who)| == |cs|
    ensures var alternative, lacks := Alternatives(cs, who)[i], FailuresOf(cs[i], who);
            && alternative.Joined? && |alternative.parts| == |lacks| > 0
            && forall k | 0 <= k < |lacks| :: alternative.parts[k] == lacks[k].shortfall
  {
    AlternativesCount(cs, who);
    NoFailuresIffHolds(cs[i], who);
    if i > 0 { AlternativesSayWhat(cs[1..], who, i - 1); }
  }

  lemma {:induction false} AlternativesCount(cs: seq<RuleNode>, who: Reading)
    ensures |Alternatives(cs, who)| == |cs|
  {
    if cs != [] { AlternativesCount(cs[1..], who); }
  }

  lemma UnmetChoiceSaysWhat(cs: seq<RuleNode>, who: Reading)
    requires !AnyTruth(cs, who).Holds?
    ensures SaysWhat(Any(cs), who, OneOfShort(Alternatives(cs, who)))
  {
    AlternativesCount(cs, who);
    forall i | 0 <= i < |cs|
      ensures var alternative, lacks := Alternatives(cs, who)[i], FailuresOf(cs[i], who);
              && alternative.Joined? && |alternative.parts| == |lacks| > 0
              && forall k | 0 <= k < |lacks| :: alternative.parts[k] == lacks[k].shortfall
    {
      if TruthOf(cs[i], who).Holds? { AnyHolds(cs, i, who); }
      AlternativesSayWhat(cs, who, i);
    }
  }

  /** Every entry says of the node its path leads to what that node asks. */
  lemma {:induction false} ReportSaysWhat(node: RuleNode, who: Reading, k: nat)
    requires k < |FailuresOf(node, who)|
    ensures var f := FailuresOf(node, who)[k];
            Resolve(node, f.path).Some? && SaysWhat(Resolve(node, f.path).value, who, f.shortfall)
    decreases node
  {
    match node
    case All(cs) =>
      var j, m := AllFailureFromChild(cs, 0, who, k);
      ReportSaysWhat(cs[j], who, m);
      var tail := FailuresOf(cs[j], who)[m].path;
      assert ([AllAt(j)] + tail)[1..] == tail;
    case Any(cs) => UnmetChoiceSaysWhat(cs, who);
    case Not(c) =>
      if TruthOf(c, who).Unknown? {
        ReportSaysWhat(c, who, k);
        var tail := FailuresOf(c, who)[k].path;
        assert ([NotStep] + tail)[1..] == tail;
      }
    case _ =>
  }

  // ---------------------------------------------------------------- repairing a rule

  /** Truth of the rule once every node whose path is in `forced` is satisfied. */
  ghost function ForcedTruth(node: RuleNode, at: Path, who: Reading, forced: set<Path>): Truth
    decreases node, 1
  {
    if at in forced then Holds
    else
      match node
      case All(cs) => ForcedAll(cs, 0, at, who, forced)
      case Any(cs) => ForcedAny(cs, 0, at, who, forced)
      case Not(c) => Negate(ForcedTruth(c, at + [NotStep], who, forced))
      case _ => TruthOf(node, who)
  }

  ghost function ForcedAll(cs: seq<RuleNode>, i: nat, at: Path, who: Reading, forced: set<Path>): Truth
    decreases cs, 0
  {
    if cs == [] then Holds
    else And(ForcedTruth(cs[0], at + [AllAt(i)], who, forced), ForcedAll(cs[1..], i + 1, at, who, forced))
  }

  ghost function ForcedAny(cs: seq<RuleNode>, i: nat, at: Path, who: Reading, forced: set<Path>): Truth
    decreases cs, 0
  {
    if cs == [] then Fails
    else Or(ForcedTruth(cs[0], at + [AnyAt(i)], who, forced), ForcedAny(cs[1..], i + 1, at, who, forced))
  }

  ghost predicate Untouched(at: Path, forced: set<Path>) {
    forall p | p in forced :: !(at <= p)
  }

  lemma UntouchedBelow(at: Path, step: Step, forced: set<Path>)
    requires Untouched(at, forced)
    ensures Untouched(at + [step], forced)
  {
    forall p | p in forced ensures !(at + [step] <= p) {
      if at + [step] <= p { StepInto(at, step, p); }
    }
  }

  /** Satisfying nodes elsewhere does not change this node. */
  lemma {:induction false} ForcingElsewhere(node: RuleNode, at: Path, who: Reading, forced: set<Path>)
    requires Untouched(at, forced)
    ensures ForcedTruth(node, at, who, forced) == TruthOf(node, who)
    decreases node, 1
  {
    match node
    case All(cs) => ForcingElsewhereAll(cs, 0, at, who, forced);
    case Any(cs) => ForcingElsewhereAny(cs, 0, at, who, forced);
    case Not(c) =>
      UntouchedBelow(at, NotStep, forced);
      ForcingElsewhere(c, at + [NotStep], who, forced);
    case _ =>
  }

  lemma {:induction false} ForcingElsewhereAll(cs: seq<RuleNode>, i: nat, at: Path, who: Reading, forced: set<Path>)
    requires Untouched(at, forced)
    ensures ForcedAll(cs, i, at, who, forced) == AllTruth(cs, who)
    decreases cs, 0
  {
    if cs != [] {
      UntouchedBelow(at, AllAt(i), forced);
      ForcingElsewhere(cs[0], at + [AllAt(i)], who, forced);
      ForcingElsewhereAll(cs[1..], i + 1, at, who, forced);
    }
  }

  lemma {:induction false} ForcingElsewhereAny(cs: seq<RuleNode>, i: nat, at: Path, who: Reading, forced: set<Path>)
    requires Untouched(at, forced)
    ensures ForcedAny(cs, i, at, who, forced) == AnyTruth(cs, who)
    decreases cs, 0
  {
    if cs != [] {
      UntouchedBelow(at, AnyAt(i), forced);
      ForcingElsewhere(cs[0], at + [AnyAt(i)], who, forced);
      ForcingElsewhereAny(cs[1..], i + 1, at, who, forced);
    }
  }

  lemma {:induction false} ForcedAllHolds(cs: seq<RuleNode>, i: nat, at: Path, who: Reading, forced: set<Path>)
    ensures ForcedAll(cs, i, at, who, forced).Holds?
       <==> forall j | 0 <= j < |cs| :: ForcedTruth(cs[j], at + [AllAt(i + j)], who, forced).Holds?
    ensures (forall j | 0 <= j < |cs| :: !ForcedTruth(cs[j], at + [AllAt(i + j)], who, forced).Unknown?)
       ==> !ForcedAll(cs, i, at, who, forced).Unknown?
    decreases cs
  {
    if cs != [] {
      ForcedAllHolds(cs[1..], i + 1, at, who, forced);
      forall j | 0 <= j < |cs[1..]|
        ensures ForcedTruth(cs[1..][j], at + [AllAt(i + 1 + j)], who, forced)
             == ForcedTruth(cs[j + 1], at + [AllAt(i + (j + 1))], who, forced)
      {}
      assert ForcedTruth(cs[0], at + [AllAt(i)], who, forced) == ForcedTruth(cs[0], at + [AllAt(i + 0)], who, forced);
    }
  }

  /** No `not` that the report looks through is UNKNOWN. */
  predicate SpineSettled(node: RuleNode, who: Reading)
    decreases node
  {
    match node
    case All(cs) => forall c | c in cs :: SpineSettled(c, who)
    case Not(c) => !TruthOf(c, who).Unknown?
    case _ => true
  }

  /** Among the paths below `at`, only reported ones are forced. */
  ghost predicate ForcesOnlyReported(node: RuleNode, at: Path, who: Reading, forced: set<Path>) {
    forall p | p in forced && at <= p :: Reports(node, at, who, p)
  }

  /** The child of an `all` that reports p is the one p steps into. */
  lemma ReportingChild(cs: seq<RuleNode>, i: nat, at: Path, who: Reading, p: Path)
    requires i < |cs| && at + [AllAt(i)] <= p && Reports(All(cs), at, who, p)
    ensures Reports(cs[i], at + [AllAt(i)], who, p)
  {
    var j :| 0 <= j < |cs| && Reports(cs[j], at + [AllAt(j)], who, p);
    ReportedNodeIsUnmet(cs[j], at + [AllAt(j)], who, p);
    StepInto(at, AllAt(j), p);
    StepInto(at, AllAt(i), p);
  }

  lemma ForcesOnlyReportedBelow(cs: seq<RuleNode>, i: nat, at: Path, who: Reading, forced: set<Path>)
    requires i < |cs| && ForcesOnlyReported(All(cs), at, who, forced)
    ensures ForcesOnlyReported(cs[i], at + [AllAt(i)], who, forced)
  {
    forall p | p in forced && at + [AllAt(i)] <= p ensures Reports(cs[i], at + [AllAt(i)], who, p) {
      StepInto(at, AllAt(i), p);
      ReportingChild(cs, i, at, who, p);
    }
  }

  /** An `all` never reports itself. */
  lemma AllReportsBelowItself(cs: seq<RuleNode>, at: Path, who: Reading)
    ensures !Reports(All(cs), at, who, at)
  {
    if Reports(All(cs), at, who, at) {
      var j :| 0 <= j < |cs| && Reports(cs[j], at + [AllAt(j)], who, at);
      ReportedNodeIsUnmet(cs[j], at + [AllAt(j)], who, at);
    }
  }

  lemma OnlyItself(node: RuleNode, at: Path, who: Reading, forced: set<Path>)
    requires ForcesOnlyReported(node, at, who, forced) && at !in forced
    requires !node.All? && (node.Not? ==> !TruthOf(node.child, who).Unknown?)
    ensures Untouched(at, forced)
  {
  }

  /** Of the structurally reported nodes, satisfying some makes the rule TRUE if and only if those are all of them. */
  lemma {:induction false} ReportedNodesRepair(node: RuleNode, at: Path, who: Reading, forced: set<Path>)
    requires SpineSettled(node, who)
    requires ForcesOnlyReported(node, at, who, forced)
    ensures ForcedTruth(node, at, who, forced).Holds?
       <==> forall p | Reports(node, at, who, p) :: p in forced
    decreases node
  {
    if node.All? {
      var cs := node.children;
      AllReportsBelowItself(cs, at, who);
      ForcedAllHolds(cs, 0, at, who, forced);
      forall i | 0 <= i < |cs|
        ensures ForcedTruth(cs[i], at + [AllAt(i)], who, forced).Holds?
           <==> forall p | Reports(cs[i], at + [AllAt(i)], who, p) :: p in forced
      {
        ForcesOnlyReportedBelow(cs, i, at, who, forced);
        ReportedNodesRepair(cs[i], at + [AllAt(i)], who, forced);
      }
      forall j | 0 <= j < |cs|
        ensures ForcedTruth(cs[j], at + [AllAt(0 + j)], who, forced) == ForcedTruth(cs[j], at + [AllAt(j)], who, forced)
      {}
    } else if at !in forced {
      OnlyItself(node, at, who, forced);
      ForcingElsewhere(node, at, who, forced);
    }
  }

  /** Whether satisfying the whole report passes the rule, UNKNOWN `not`s included. */
  predicate Repairs(node: RuleNode, who: Reading)
    decreases node
  {
    match node
    case All(cs) => forall c | c in cs :: Repairs(c, who)
    case Not(c) => TruthOf(c, who).Unknown? ==> !Repairs(c, who)
    case _ => true
  }

  ghost predicate ForcesExactlyReported(node: RuleNode, at: Path, who: Reading, forced: set<Path>) {
    forall p | at <= p :: p in forced <==> Reports(node, at, who, p)
  }

  /** Satisfying every structurally reported node settles the rule, UNKNOWN `not`s included. */
  lemma {:induction false} ReportedNodesSettle(node: RuleNode, at: Path, who: Reading, forced: set<Path>)
    requires ForcesExactlyReported(node, at, who, forced)
    ensures ForcedTruth(node, at, who, forced) == if Repairs(node, who) then Holds else Fails
    decreases node
  {
    match node
    case All(cs) =>
      AllReportsBelowItself(cs, at, who);
      ForcedAllHolds(cs, 0, at, who, forced);
      forall i | 0 <= i < |cs|
        ensures ForcedTruth(cs[i], at + [AllAt(0 + i)], who, forced) == if Repairs(cs[i], who) then Holds else Fails
      {
        forall p | at + [AllAt(i)] <= p ensures p in forced <==> Reports(cs[i], at + [AllAt(i)], who, p) {
          StepInto(at, AllAt(i), p);
          if Reports(All(cs), at, who, p) { ReportingChild(cs, i, at, who, p); }
        }
        ReportedNodesSettle(cs[i], at + [AllAt(i)], who, forced);
      }
    case Not(c) =>
      if TruthOf(c, who).Unknown? {
        forall p | at + [NotStep] <= p ensures p in forced <==> Reports(c, at + [NotStep], who, p) {
          StepInto(at, NotStep, p);
        }
        if Reports(c, at + [NotStep], who, at) { ReportedNodeIsUnmet(c, at + [NotStep], who, at); }
        ReportedNodesSettle(c, at + [NotStep], who, forced);
      } else if at !in forced {
        OnlyItself(node, at, who, forced);
        ForcingElsewhere(node, at, who, forced);
      }
    case _ =>
      if at !in forced {
        OnlyItself(node, at, who, forced);
        ForcingElsewhere(node, at, who, forced);
      }
  }

  /** The report as the set of its paths. */
  function Reported(node: RuleNode, who: Reading): set<Path> {
    Elements(PathsOf(FailuresOf(node, who)))
  }

  /** The structural reading lists exactly the paths of the evaluator's report. */
  lemma ReportIsStructural(node: RuleNode, who: Reading)
    ensures forall p :: p in Reported(node, who) <==> Reports(node, [], who, p)
  {
    var failures := FailuresOf(node, who);
    forall p | p in Reported(node, who) ensures Reports(node, [], who, p) {
      var k :| 0 <= k < |failures| && failures[k].path == p;
      ListedIsReported(node, [], who, k);
      assert [] + p == p;
    }
    forall p | Reports(node, [], who, p) ensures p in Reported(node, who) {
      var k := ReportedIsListed(node, [], who, p);
      assert [] + failures[k].path == failures[k].path;
      assert PathsOf(failures)[k] == p;
    }
  }

  /**
   The report is the exact repair set: of the nodes whose paths the evaluator lists, satisfying some
   makes the rule TRUE if and only if those are all of them.
   */
  lemma RepairNeedsEveryReportedNode(node: RuleNode, who: Reading, forced: set<Path>)
    requires SpineSettled(node, who) && forced <= Reported(node, who)
    ensures ForcedTruth(node, [], who, forced).Holds? <==> forced == Reported(node, who)
  {
    ReportIsStructural(node, who);
    ReportedNodesRepair(node, [], who, forced);
  }

  /**
   Without the hypothesis: satisfying the evaluator's whole list still settles the rule, but an
   UNKNOWN `not` that the report looks through passes only if what it negates does not.
   */
  lemma RepairOutcome(node: RuleNode, who: Reading)
    ensures ForcedTruth(node, [], who, Reported(node, who)) == if Repairs(node, who) then Holds else Fails
  {
    ReportIsStructural(node, who);
    ReportedNodesSettle(node, [], who, Reported(node, who));
  }

  /** The hypothesis of the exact repair set cannot be dropped: a negated missing fact. */
  lemma UnknownNegationIsNotRepairable()
    ensures var leaf := Leaf(Gender, Eq, One(Text("female")));
            var who := Reading(map[], true, Current);
            && PathsOf(FailuresOf(Not(Field(leaf)), who)) == [[NotStep]]
            && ForcedTruth(Not(Field(leaf)), [], who, {[NotStep]}).Fails?
  {
    var leaf := Leaf(Gender, Eq, One(Text("female")));
    var who := Reading(map[], true, Current);
    assert FieldTruth(leaf, who.facts, who.semantics).Unknown?;
    assert FailuresOf(Field(leaf), who) == [Failure([], FieldShort(leaf))];
    assert FailuresOf(Not(Field(leaf)), who)[0].path == [NotStep] + [] == [NotStep];
    assert [] + [NotStep] == [NotStep];
    assert ForcedTruth(Field(leaf), [NotStep], who, {[NotStep]}).Holds?;
  }
}
