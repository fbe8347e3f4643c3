/**
 Missing facts: under the current contract they never pass a rule, and filling them in
 never takes back a decided answer (backend/app/domain/rules.py).
 */
module RuleCompletion {
  import opened RuleSchema
  import opened Rules

  /** A fact the profile does not state: null, or a set with nothing in it. */
  predicate Blank(fact: Fact) {
    fact.Absent? || (fact.Set? && fact.vs == {})
  }

  /** q states everything p states, and possibly more. */
  ghost predicate Completes(p: Facts, q: Facts) {
    forall key :: Blank(Lookup(p, key)) || Lookup(q, key) == Lookup(p, key)
  }

  /** Order of information: UNKNOWN may become anything, a decided value only itself. */
  predicate Refines(a: Truth, b: Truth) {
    a.Unknown? || a == b
  }

  lemma LeafSurvivesCompletion(leaf: Leaf, p: Facts, q: Facts)
    requires Completes(p, q)
    ensures Refines(FieldTruth(leaf, p, Current), FieldTruth(leaf, q, Current))
  {
    var key := ActualKey(leaf.field, Current);
    assert Blank(Lookup(p, key)) || Lookup(q, key) == Lookup(p, key);
  }

  /** TRUE and FALSE survive any filling-in of missing facts, through any nesting. */
  lemma {:induction false} DecidedSurvivesCompletion(node: RuleNode, p: Facts, q: Facts, unplaced: bool)
    requires Completes(p, q)
    ensures Refines(TruthOf(node, Reading(p, unplaced, Current)), TruthOf(node, Reading(q, unplaced, Current)))
    decreases node, 1
  {
    match node
    case All(cs) => ChildrenSurviveCompletion(cs, p, q, unplaced);
    case Any(cs) => ChildrenSurviveCompletion(cs, p, q, unplaced);
    case Not(c) => DecidedSurvivesCompletion(c, p, q, unplaced);
    case NotPlacementPlaced =>
    case Field(leaf) => LeafSurvivesCompletion(leaf, p, q);
  }

  lemma {:induction false} ChildrenSurviveCompletion(cs: seq<RuleNode>, p: Facts, q: Facts, unplaced: bool)
    requires Completes(p, q)
    ensures Refines(AllTruth(cs, Reading(p, unplaced, Current)), AllTruth(cs, Reading(q, unplaced, Current)))
    ensures Refines(AnyTruth(cs, Reading(p, unplaced, Current)), AnyTruth(cs, Reading(q, unplaced, Current)))
    decreases cs, 0
  {
    if cs != [] {
      DecidedSurvivesCompletion(cs[0], p, q, unplaced);
      ChildrenSurviveCompletion(cs[1..], p, q, unplaced);
    }
  }

  /** A rule reading a missing fact is UNKNOWN under any number of negations, so it never passes. */
  function Negations(n: nat, node: RuleNode): RuleNode {
    if n == 0 then node else Not(Negations(n - 1, node))
  }

  lemma {:induction false} MissingFactNeverPasses(n: nat, leaf: Leaf, facts: Facts, unplaced: bool)
    requires Blank(Lookup(facts, ActualKey(leaf.field, Current)))
    ensures TruthOf(Negations(n, Field(leaf)), Reading(facts, unplaced, Current)).Unknown?
  {
    if n > 0 { MissingFactNeverPasses(n - 1, leaf, facts, unplaced); }
  }

  // ---------------------------------------------------------------- the two contracts

  /** Both contracts read the same value for the two fields whose key depends on the version. */
  predicate SameFacts(facts: Facts) {
    && Lookup(facts, LegacyProgramId) == Lookup(facts, ByField(ProgramId))
    && Lookup(facts, ByField(StudyYear)) == Lookup(facts, CurrentStudyYear)
  }

  /** How version 1 answers a question version 2 leaves open. */
  function Collapse(t: Truth): Truth {
    if t.Unknown? then Fails else t
  }

  lemma LegacyLeafCollapses(leaf: Leaf, facts: Facts)
    requires SameFacts(facts)
    ensures FieldTruth(leaf, facts, Legacy) == Collapse(FieldTruth(leaf, facts, Current))
  {
  }

  predicate NegationFree(node: RuleNode) {
    match node
    case All(cs) => forall c | c in cs :: NegationFree(c)
    case Any(cs) => forall c | c in cs :: NegationFree(c)
    case Not(_) => false
    case _ => true
  }

  /** On a tree without `not`, version 1 is version 2 with UNKNOWN read as FALSE: same verdict. */
  lemma {:induction false} ContractsAgreeWithoutNegation(node: RuleNode, facts: Facts, unplaced: bool)
    requires SameFacts(facts) && NegationFree(node)
    ensures TruthOf(node, Reading(facts, unplaced, Legacy))
        == Collapse(TruthOf(node, Reading(facts, unplaced, Current)))
    decreases node, 1
  {
    match node
    case All(cs) => ChildrenAgreeWithoutNegation(cs, facts, unplaced);
    case Any(cs) => ChildrenAgreeWithoutNegation(cs, facts, unplaced);
    case NotPlacementPlaced =>
    case Field(leaf) => LegacyLeafCollapses(leaf, facts);
  }

  lemma {:induction false} ChildrenAgreeWithoutNegation(cs: seq<RuleNode>, facts: Facts, unplaced: bool)
    requires SameFacts(facts) && forall c | c in cs :: NegationFree(c)
    ensures AllTruth(cs, Reading(facts, unplaced, Legacy)) == Collapse(AllTruth(cs, Reading(facts, unplaced, Current)))
    ensures AnyTruth(cs, Reading(facts, unplaced, Legacy)) == Collapse(AnyTruth(cs, Reading(facts, unplaced, Current)))
    decreases cs, 0
  {
    if cs != [] {
      ContractsAgreeWithoutNegation(cs[0], facts, unplaced);
      ChildrenAgreeWithoutNegation(cs[1..], facts, unplaced);
    }
  }

  /** On every tree, whatever version 2 decides version 1 decides the same way. */
  lemma {:induction false} LegacyKeepsDecidedAnswers(node: RuleNode, facts: Facts, unplaced: bool)
    requires SameFacts(facts)
    ensures Refines(TruthOf(node, Reading(facts, unplaced, Current)), TruthOf(node, Reading(facts, unplaced, Legacy)))
    ensures !TruthOf(node, Reading(facts, unplaced, Legacy)).Unknown?
    decreases node, 1
  {
    match node
    case All(cs) => LegacyKeepsDecidedChildren(cs, facts, unplaced);
    case Any(cs) => LegacyKeepsDecidedChildren(cs, facts, unplaced);
    case Not(c) => LegacyKeepsDecidedAnswers(c, facts, unplaced);
    case NotPlacementPlaced =>
    case Field(leaf) => LegacyLeafCollapses(leaf, facts);
  }

  lemma {:induction false} LegacyKeepsDecidedChildren(cs: seq<RuleNode>, facts: Facts, unplaced: bool)
    requires SameFacts(facts)
    ensures Refines(AllTruth(cs, Reading(facts, unplaced, Current)), AllTruth(cs, Reading(facts, unplaced, Legacy)))
    ensures Refines(AnyTruth(cs, Reading(facts, unplaced, Current)), AnyTruth(cs, Reading(facts, unplaced, Legacy)))
    ensures !AllTruth(cs, Reading(facts, unplaced, Legacy)).Unknown?
    ensures !AnyTruth(cs, Reading(facts, unplaced, Legacy)).Unknown?
    decreases cs, 0
  {
    if cs != [] {
      LegacyKeepsDecidedAnswers(cs[0], facts, unplaced);
      LegacyKeepsDecidedChildren(cs[1..], facts, unplaced);
    }
  }

  /**
   The new contract only narrows eligibility: a version-2 pass is a version-1 pass, and the
   verdicts differ exactly when version 2 finds the rule UNKNOWN and version 1 lets it pass.
   */
  lemma CurrentOnlyNarrows(node: RuleNode, facts: Facts, unplaced: bool)
    requires SameFacts(facts)
    ensures var old1 := TruthOf(node, Reading(facts, unplaced, Legacy));
            var new2 := TruthOf(node, Reading(facts, unplaced, Current));
            && (new2.Holds? ==> old1.Holds?)
            && (old1.Holds? != new2.Holds? <==> old1.Holds? && new2.Unknown?)
  {
    LegacyKeepsDecidedAnswers(node, facts, unplaced);
  }

  /** The separating family: negating any leaf whose fact is missing. */
  lemma NegatedMissingLeafSeparates(leaf: Leaf, facts: Facts, unplaced: bool)
    requires SameFacts(facts) && Blank(Lookup(facts, ActualKey(leaf.field, Current)))
    ensures TruthOf(Not(Field(leaf)), Reading(facts, unplaced, Legacy)).Holds?
    ensures TruthOf(Not(Field(leaf)), Reading(facts, unplaced, Current)).Unknown?
  {
    LegacyLeafCollapses(leaf, facts);
    MissingFactNeverPasses(1, leaf, facts, unplaced);
    assert Negations(1, Field(leaf)) == Not(Negations(0, Field(leaf)));
  }
}
