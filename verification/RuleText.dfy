/**
 The plain-language summary of a rule (backend/app/domain/rule_text.py). A leaf clause is
 one token; the connectives and parentheses around the clauses are modelled in full.
 */
module RuleText {
  import opened Common
  import opened RuleSchema
  import opened Rules

  /** The clause of one leaf: the noun of its field, the phrase of its operator, its values. */
  datatype Clause =
    | DualMajor(wanted: bool)
    | DualDegree(wanted: bool)
    | Is(field: RuleField, v: Scalar)
    | OtherThan(field: RuleField, v: Scalar)
    | OneOf(field: RuleField, vs: seq<Scalar>)
    | NoneOf(field: RuleField, vs: seq<Scalar>)
    | AtLeast(field: RuleField, v: Scalar)
    | AtMost(field: RuleField, v: Scalar)
    | InRange(field: RuleField, lower: Scalar, upper: Scalar)
    | NoAcceptedPlacement

  datatype Token = Word(clause: Clause) | AndTok | OrTok | NotTok | Open | Close

  datatype Connector = AsAnd | AsOr | AsLeaf

  /** `requirement`: the positive clause of a validated leaf. */
  function Requirement(leaf: Leaf): Clause
    requires ValidLeaf(leaf)
  {
    if IsBooleanField(leaf.field) then
      var wants := if leaf.op.Eq? then leaf.value.v.b else !leaf.value.v.b;
      if leaf.field.IsDualMajor? then DualMajor(wants) else DualDegree(wants)
    else
      match leaf.op
      case Eq => Is(leaf.field, leaf.value.v)
      case Ne => OtherThan(leaf.field, leaf.value.v)
      case In => OneOf(leaf.field, leaf.value.vs)
      case NotIn => NoneOf(leaf.field, leaf.value.vs)
      case Gte => AtLeast(leaf.field, leaf.value.v)
      case Lte => AtMost(leaf.field, leaf.value.v)
      case Between => InRange(leaf.field, leaf.value.lower, leaf.value.upper)
  }

  function ConnectorOf(node: RuleNode): Connector {
    match node
    case All(_) => AsAnd
    case Any(_) => AsOr
    case _ => AsLeaf
  }

  function Separator(own: Connector): Token {
    if own.AsOr? then OrTok else AndTok
  }

  /** The clause `_describe` returns; the connector it returns beside it is `ConnectorOf`. */
  function Describe(node: RuleNode): seq<Token>
    requires WellFormed(node)
    decreases node, 1
  {
    match node
    case All(cs) => Join(cs, AsAnd)
    case Any(cs) => Join(cs, AsOr)
    case Not(c) => [NotTok, Open] + Describe(c) + [Close]
    case NotPlacementPlaced => [Word(NoAcceptedPlacement)]
    case Field(leaf) => [Word(Requirement(leaf))]
  }

  /** One child inside a group, bracketed when its own connector differs from the group's. */
  function Part(child: RuleNode, own: Connector): seq<Token>
    requires WellFormed(child)
    decreases child, 2
  {
    if ConnectorOf(child) != AsLeaf && ConnectorOf(child) != own then [Open] + Describe(child) + [Close]
    else Describe(child)
  }

  function Join(cs: seq<RuleNode>, own: Connector): seq<Token>
    requires cs != [] && forall c | c in cs :: WellFormed(c)
    decreases cs, 0
  {
    if |cs| == 1 then Part(cs[0], own)
    else Part(cs[0], own) + [Separator(own)] + Join(cs[1..], own)
  }

  lemma {:induction false} JoinSnoc(cs: seq<RuleNode>, c: RuleNode, own: Connector)
    requires cs != [] && (forall d | d in cs :: WellFormed(d)) && WellFormed(c)
    ensures forall d | d in cs + [c] :: WellFormed(d)
    ensures Join(cs + [c], own) == Join(cs, own) + [Separator(own)] + Part(c, own)
  {
    if |cs| == 1 {
      assert (cs + [c])[1..] == [c];
    } else {
      assert (cs + [c])[1..] == cs[1..] + [c];
      JoinSnoc(cs[1..], c, own);
    }
  }

  /** The recursive printer, with the loop that collects a group's parts. */
  method Print(node: RuleNode) returns (clause: seq<Token>, connector: Connector)
    requires WellFormed(node)
    ensures clause == Describe(node)
    ensures connector == ConnectorOf(node)
    decreases node, 1
  {
    connector := ConnectorOf(node);
    match node
    case All(cs) => clause := PrintJoined(node, AsAnd);
    case Any(cs) => clause := PrintJoined(node, AsOr);
    case Not(c) =>
      var inner, _ := Print(c);
      clause := [NotTok, Open] + inner + [Close];
    case NotPlacementPlaced => clause := [Word(NoAcceptedPlacement)];
    case Field(leaf) => clause := [Word(Requirement(leaf))];
  }

  method PrintJoined(node: RuleNode, own: Connector) returns (clause: seq<Token>)
    requires node.All? || node.Any?
    requires WellFormed(node)
    ensures clause == Join(node.children, own)
    decreases node, 0
  {
    var children := node.children;
    clause := [];
    for i := 0 to |children|
      invariant i > 0 ==> forall c | c in children[..i] :: WellFormed(c)
      invariant clause == if i == 0 then [] else Join(children[..i], own)
    {
      var part, childConnector := Print(children[i]);
      if childConnector != AsLeaf && childConnector != own {
        part := [Open] + part + [Close];
      }
      assert children[..i + 1] == children[..i] + [children[i]];
      if i == 0 {
        clause := part;
      } else {
        JoinSnoc(children[..i], children[i], own);
        clause := clause + [Separator(own)] + part;
      }
    }
    assert children[..|children|] == children;
  }

  // ---------------------------------------------------------------- reading a summary back

  /** A sentence as its reader understands it. */
  datatype Sentence =
    | Saying(clause: Clause)
    | Both(parts: seq<Sentence>)
    | Either(parts: seq<Sentence>)
    | Denied(part: Sentence)

  /** A group's items and the connective that joined them, if there was one. */
  datatype Items = Items(parts: seq<Sentence>, sep: Option<Token>)

  datatype Read<+T> = NotASentence | Understood(value: T, rest: seq<Token>)

  predicate IsSeparator(t: Token) {
    t.AndTok? || t.OrTok?
  }

  /**
   Reads one group: items joined by a single kind of connective. `sep` is the connective
   already seen in this group; meeting the other one makes the text ambiguous, so it is refused.
   */
  function ReadGroup(ts: seq<Token>, sep: Option<Token>): (r: Read<Items>)
    ensures r.Understood? ==> |r.rest| < |ts|
    decreases |ts|, 1
  {
    match ReadItem(ts)
    case NotASentence => NotASentence
    case Understood(item, rest) => ReadMore(item, rest, sep)
  }

  function ReadMore(item: Sentence, rest: seq<Token>, sep: Option<Token>): (r: Read<Items>)
    ensures r.Understood? ==> |r.rest| <= |rest|
    decreases |rest|, 2
  {
    if rest == [] || !IsSeparator(rest[0]) then Understood(Items([item], sep), rest)
    else if sep.Some? && sep.value != rest[0] then NotASentence
    else
      match ReadGroup(rest[1..], Some(rest[0]))
      case NotASentence => NotASentence
      case Understood(more, rest') => Understood(Items([item] + more.parts, more.sep), rest')
  }

  function ReadItem(ts: seq<Token>): (r: Read<Sentence>)
    ensures r.Understood? ==> |r.rest| < |ts|
    decreases |ts|, 0
  {
    if ts == [] then NotASentence
    else if ts[0].Word? then Understood(Saying(ts[0].clause), ts[1..])
    else if ts[0].Open? then ReadClosed(ts[1..])
    else if ts[0].NotTok? && |ts| > 1 && ts[1].Open? then
      match ReadClosed(ts[2..])
      case NotASentence => NotASentence
      case Understood(s, rest) => Understood(Denied(s), rest)
    else NotASentence
  }

  /** The inside of a parenthesis, up to and including its closing one. */
  function ReadClosed(ts: seq<Token>): (r: Read<Sentence>)
    ensures r.Understood? ==> |r.rest| < |ts|
    decreases |ts|, 2
  {
    match ReadGroup(ts, None)
    case NotASentence => NotASentence
    case Understood(group, rest) =>
      if rest == [] || rest[0] != Close then NotASentence else Understood(Grouped(group), rest[1..])
  }

  function Grouped(group: Items): Sentence {
    if |group.parts| == 1 then group.parts[0]
    else if group.sep == Some(OrTok) then Either(group.parts)
    else Both(group.parts)
  }

  /** A whole summary: one group and nothing after it. */
  function ReadSummary(ts: seq<Token>): Option<Sentence> {
    match ReadGroup(ts, None)
    case NotASentence => None
    case Understood(group, rest) => if rest == [] then Some(Grouped(group)) else None
  }

  /** The meaning of a sentence when each clause has the given truth. */
  function Meaning(s: Sentence, truth: Clause -> Truth): Truth
    decreases s, 1
  {
    match s
    case Saying(c) => truth(c)
    case Both(ps) => MeaningOfBoth(ps, truth)
    case Either(ps) => MeaningOfEither(ps, truth)
    case Denied(p) => Negate(Meaning(p, truth))
  }

  function MeaningOfBoth(ps: seq<Sentence>, truth: Clause -> Truth): Truth
    decreases ps, 0
  {
    if ps == [] then Holds else And(Meaning(ps[0], truth), MeaningOfBoth(ps[1..], truth))
  }

  function MeaningOfEither(ps: seq<Sentence>, truth: Clause -> Truth): Truth
    decreases ps, 0
  {
    if ps == [] then Fails else Or(Meaning(ps[0], truth), MeaningOfEither(ps[1..], truth))
  }

  // ---------------------------------------------------------------- the printer is unambiguous

  /** What a node contributes to a group with connective `own`: a like-joined child dissolves into it. */
  function ItemsOf(node: RuleNode, own: Connector): seq<Sentence>
    requires WellFormed(node)
    decreases node, 3
  {
    match node
    case All(cs) => if own.AsAnd? then ItemsOfAll(cs, own) else [Sense(node)]
    case Any(cs) => if own.AsOr? then ItemsOfAll(cs, own) else [Sense(node)]
    case _ => [Sense(node)]
  }

  function ItemsOfAll(cs: seq<RuleNode>, own: Connector): (r: seq<Sentence>)
    requires cs != [] && forall c | c in cs :: WellFormed(c)
    decreases cs, 0
  {
    if |cs| == 1 then ItemsOf(cs[0], own) else ItemsOf(cs[0], own) + ItemsOfAll(cs[1..], own)
  }

  /** The sentence a node's own clause reads as. */
  function Sense(node: RuleNode): Sentence
    requires WellFormed(node)
    decreases node, 2
  {
    match node
    case All(cs) => Grouped(Items(ItemsOfAll(cs, AsAnd), Some(AndTok)))
    case Any(cs) => Grouped(Items(ItemsOfAll(cs, AsOr), Some(OrTok)))
    case Not(c) => Denied(Sense(c))
    case NotPlacementPlaced => Saying(NoAcceptedPlacement)
    case Field(leaf) => Saying(Requirement(leaf))
  }

  lemma {:induction false} ItemsNotEmpty(node: RuleNode, own: Connector)
    requires WellFormed(node)
    ensures ItemsOf(node, own) != []
  {
    if node.All? && own.AsAnd? {
      ItemsNotEmpty(node.children[0], own);
    } else if node.Any? && own.AsOr? {
      ItemsNotEmpty(node.children[0], own);
    }
  }

  /** Where a group may go on: another item of the same group, or the end of the group. */
  predicate GroupEnds(rest: seq<Token>) {
    rest == [] || rest[0].Close?
  }

  predicate GroupGoesOn(rest: seq<Token>, own: Connector) {
    rest != [] && rest[0] == Separator(own)
  }

  /** Having read `parts` in a group with connective `own`, what reading the rest makes of them. */
  function Resumed(parts: seq<Sentence>, rest: seq<Token>, sep: Option<Token>, own: Connector): Read<Items> {
    if !GroupGoesOn(rest, own) then Understood(Items(parts, if |parts| > 1 then Some(Separator(own)) else sep), rest)
    else
      match ReadGroup(rest[1..], Some(Separator(own)))
      case NotASentence => NotASentence
      case Understood(more, rest') => Understood(Items(parts + more.parts, more.sep), rest')
  }

  predicate Compatible(sep: Option<Token>, own: Connector) {
    sep == None || sep == Some(Separator(own))
  }

  lemma {:induction false} ReadsClosed(node: RuleNode, rest: seq<Token>)
    requires WellFormed(node)
    ensures ReadClosed(Describe(node) + [Close] + rest) == Understood(Sense(node), rest)
    decreases node, if node.All? || node.Any? then 1 else 3
  {
    var tail := [Close] + rest;
    assert Describe(node) + [Close] + rest == Describe(node) + tail;
    match node
    case All(cs) => ReadsJoin(cs, AsAnd, tail, None);
    case Any(cs) => ReadsJoin(cs, AsOr, tail, None);
    case _ => ReadsPart(node, AsAnd, tail, None);
    assert tail[1..] == rest;
  }

  lemma {:induction false} ReadsPart(node: RuleNode, own: Connector, rest: seq<Token>, sep: Option<Token>)
    requires WellFormed(node) && own != AsLeaf && Compatible(sep, own)
    requires GroupEnds(rest) || GroupGoesOn(rest, own)
    ensures ReadGroup(Part(node, own) + rest, sep) == Resumed(ItemsOf(node, own), rest, sep, own)
    decreases node, 2
  {
    var ts := Part(node, own) + rest;
    if ConnectorOf(node) == own {
      ReadsJoin(node.children, own, rest, sep);
    } else if node.All? || node.Any? {
      assert ts == [Open] + (Describe(node) + [Close] + rest);
      ReadsClosed(node, rest);
      assert ts[1..] == Describe(node) + [Close] + rest;
    } else if node.Not? {
      ReadsNegated(node, own, rest, sep);
    } else {
      assert ts[1..] == rest;
    }
  }

  lemma {:induction false} ReadsNegated(node: RuleNode, own: Connector, rest: seq<Token>, sep: Option<Token>)
    requires WellFormed(node) && node.Not? && own != AsLeaf && Compatible(sep, own)
    requires GroupEnds(rest) || GroupGoesOn(rest, own)
    ensures ReadGroup(Part(node, own) + rest, sep) == Resumed(ItemsOf(node, own), rest, sep, own)
    decreases node, 1
  {
    var ts, inner := Part(node, own) + rest, Describe(node.child);
    assert Part(node, own) == [NotTok, Open] + inner + [Close];
    assert ts == [NotTok, Open] + (inner + [Close] + rest);
    ReadsClosed(node.child, rest);
    assert ts[2..] == inner + [Close] + rest;
  }

  lemma {:induction false} ReadsJoin(cs: seq<RuleNode>, own: Connector, rest: seq<Token>, sep: Option<Token>)
    requires cs != [] && (forall c | c in cs :: WellFormed(c)) && own != AsLeaf && Compatible(sep, own)
    requires GroupEnds(rest) || GroupGoesOn(rest, own)
    ensures ReadGroup(Join(cs, own) + rest, sep) == Resumed(ItemsOfAll(cs, own), rest, sep, own)
    decreases cs, 0
  {
    if |cs| == 1 {
      ReadsPart(cs[0], own, rest, sep);
    } else {
      var more := Join(cs[1..], own) + rest;
      var tail := [Separator(own)] + more;
      assert Join(cs, own) + rest == Part(cs[0], own) + tail;
      ReadsPart(cs[0], own, tail, sep);
      assert tail[1..] == more;
      ReadsJoin(cs[1..], own, rest, Some(Separator(own)));
      ItemsNotEmpty(cs[0], own);
      ItemsNotEmpty(cs[1], own);
      ResumedTwice(ItemsOf(cs[0], own), ItemsOfAll(cs[1..], own), rest, sep, own);
    }
  }

  lemma ResumedTwice(a: seq<Sentence>, b: seq<Sentence>, rest: seq<Token>, sep: Option<Token>, own: Connector)
    requires a != [] && b != []
    ensures match Resumed(b, rest, Some(Separator(own)), own)
            case NotASentence => Resumed(a + b, rest, sep, own) == NotASentence
            case Understood(more, rest') =>
              Resumed(a + b, rest, sep, own) == Understood(Items(a + more.parts, more.sep), rest')
  {
    if GroupGoesOn(rest, own) && ReadGroup(rest[1..], Some(Separator(own))).Understood? {
      var more := ReadGroup(rest[1..], Some(Separator(own))).value;
      assert (a + b) + more.parts == a + (b + more.parts);
    }
  }

  /** Every summary reads back, in one way, as the sentence its rule was meant to say. */
  lemma SummaryReadsBack(node: RuleNode)
    requires WellFormed(node)
    ensures ReadSummary(Describe(node)) == Some(Sense(node))
  {
    assert Describe(node) + [] == Describe(node);
    match node
    case All(cs) => ReadsJoin(cs, AsAnd, [], None);
    case Any(cs) => ReadsJoin(cs, AsOr, [], None);
    case _ => ReadsPart(node, AsAnd, [], None);
  }

  // ---------------------------------------------------------------- and it keeps the meaning

  /** The truth of a rule when each leaf clause has the given truth. */
  function TruthUnder(node: RuleNode, truth: Clause -> Truth): Truth
    requires WellFormed(node)
    decreases node, 1
  {
    match node
    case All(cs) => AllUnder(cs, truth)
    case Any(cs) => AnyUnder(cs, truth)
    case Not(c) => Negate(TruthUnder(c, truth))
    case NotPlacementPlaced => truth(NoAcceptedPlacement)
    case Field(leaf) => truth(Requirement(leaf))
  }

  function AllUnder(cs: seq<RuleNode>, truth: Clause -> Truth): Truth
    requires forall c | c in cs :: WellFormed(c)
    decreases cs, 0
  {
    if cs == [] then Holds else And(TruthUnder(cs[0], truth), AllUnder(cs[1..], truth))
  }

  function AnyUnder(cs: seq<RuleNode>, truth: Clause -> Truth): Truth
    requires forall c | c in cs :: WellFormed(c)
    decreases cs, 0
  {
    if cs == [] then Fails else Or(TruthUnder(cs[0], truth), AnyUnder(cs[1..], truth))
  }

  function MeaningIn(parts: seq<Sentence>, own: Connector, truth: Clause -> Truth): Truth {
    if own.AsOr? then MeaningOfEither(parts, truth) else MeaningOfBoth(parts, truth)
  }

  function Combine(own: Connector, a: Truth, b: Truth): Truth {
    if own.AsOr? then Or(a, b) else And(a, b)
  }

  lemma {:induction false} MeaningConcat(a: seq<Sentence>, b: seq<Sentence>, own: Connector, truth: Clause -> Truth)
    ensures MeaningIn(a + b, own, truth) == Combine(own, MeaningIn(a, own, truth), MeaningIn(b, own, truth))
  {
    if a == [] {
      assert a + b == b;
    } else {
      assert (a + b)[1..] == a[1..] + b;
      MeaningConcat(a[1..], b, own, truth);
    }
  }

  lemma SingleMeaning(s: Sentence, own: Connector, truth: Clause -> Truth)
    ensures MeaningIn([s], own, truth) == Meaning(s, truth)
  {
    assert [s][1..] == [];
    assert MeaningOfBoth([s][1..], truth) == Holds;
    assert MeaningOfEither([s][1..], truth) == Fails;
  }

  lemma GroupedMeaning(parts: seq<Sentence>, own: Connector, truth: Clause -> Truth)
    requires parts != []
    ensures Meaning(Grouped(Items(parts, Some(Separator(own)))), truth) == MeaningIn(parts, own, truth)
  {
    if |parts| == 1 {
      assert parts == [parts[0]];
      SingleMeaning(parts[0], own, truth);
    }
  }

  lemma {:induction false} SenseKeepsTruth(node: RuleNode, truth: Clause -> Truth)
    requires WellFormed(node)
    ensures Meaning(Sense(node), truth) == TruthUnder(node, truth)
    decreases node, 2
  {
    match node
    case All(cs) =>
      GroupKeepsTruth(cs, AsAnd, truth);
      GroupedMeaning(ItemsOfAll(cs, AsAnd), AsAnd, truth);
    case Any(cs) =>
      GroupKeepsTruth(cs, AsOr, truth);
      GroupedMeaning(ItemsOfAll(cs, AsOr), AsOr, truth);
    case Not(c) => SenseKeepsTruth(c, truth);
    case _ =>
  }

  lemma {:induction false} ItemsKeepTruth(node: RuleNode, own: Connector, truth: Clause -> Truth)
    requires WellFormed(node) && own != AsLeaf
    ensures MeaningIn(ItemsOf(node, own), own, truth) == TruthUnder(node, truth)
    decreases node, 3
  {
    if ConnectorOf(node) == own {
      GroupKeepsTruth(node.children, own, truth);
    } else {
      SenseKeepsTruth(node, truth);
      SingleMeaning(Sense(node), own, truth);
    }
  }

  lemma {:induction false} GroupKeepsTruth(cs: seq<RuleNode>, own: Connector, truth: Clause -> Truth)
    requires cs != [] && (forall c | c in cs :: WellFormed(c)) && own != AsLeaf
    ensures MeaningIn(ItemsOfAll(cs, own), own, truth) == if own.AsOr? then AnyUnder(cs, truth) else AllUnder(cs, truth)
    ensures ItemsOfAll(cs, own) != []
    decreases cs, 0
  {
    ItemsKeepTruth(cs[0], own, truth);
    ItemsNotEmpty(cs[0], own);
    if |cs| == 1 {
      assert cs[1..] == [];
    } else {
      GroupKeepsTruth(cs[1..], own, truth);
      MeaningConcat(ItemsOf(cs[0], own), ItemsOfAll(cs[1..], own), own, truth);
    }
  }

  /** The leaf a clause asks for; two leaves with one clause ask the same question. */
  function AskedBy(clause: Clause): RuleNode {
    match clause
    case DualMajor(w) => Field(Leaf(IsDualMajor, Eq, One(Flag(w))))
    case DualDegree(w) => Field(Leaf(IsDualDegree, Eq, One(Flag(w))))
    case Is(f, v) => Field(Leaf(f, Eq, One(v)))
    case OtherThan(f, v) => Field(Leaf(f, Ne, One(v)))
    case OneOf(f, vs) => Field(Leaf(f, In, Values(vs)))
    case NoneOf(f, vs) => Field(Leaf(f, NotIn, Values(vs)))
    case AtLeast(f, v) => Field(Leaf(f, Gte, One(v)))
    case AtMost(f, v) => Field(Leaf(f, Lte, One(v)))
    case InRange(f, lower, upper) => Field(Leaf(f, Between, Bounds(lower, upper)))
    case NoAcceptedPlacement => NotPlacementPlaced
  }

  lemma ClauseDecidesLeaf(leaf: Leaf, who: Reading)
    requires ValidLeaf(leaf)
    ensures TruthOf(AskedBy(Requirement(leaf)), who) == TruthOf(Field(leaf), who)
  {
  }

  function ClauseTruth(who: Reading): Clause -> Truth {
    (c: Clause) => TruthOf(AskedBy(c), who)
  }

  lemma {:induction false} TruthByClauses(node: RuleNode, who: Reading)
    requires WellFormed(node)
    ensures TruthUnder(node, ClauseTruth(who)) == TruthOf(node, who)
    decreases node, 1
  {
    match node
    case All(cs) => ChildrenByClauses(cs, who);
    case Any(cs) => ChildrenByClauses(cs, who);
    case Not(c) => TruthByClauses(c, who);
    case NotPlacementPlaced =>
    case Field(leaf) => ClauseDecidesLeaf(leaf, who);
  }

  lemma {:induction false} ChildrenByClauses(cs: seq<RuleNode>, who: Reading)
    requires forall c | c in cs :: WellFormed(c)
    ensures AllUnder(cs, ClauseTruth(who)) == AllTruth(cs, who)
    ensures AnyUnder(cs, ClauseTruth(who)) == AnyTruth(cs, who)
    decreases cs, 0
  {
    if cs != [] {
      TruthByClauses(cs[0], who);
      ChildrenByClauses(cs[1..], who);
    }
  }

  /** Reading a summary back gives the rule's three-valued truth, whatever the clauses are worth. */
  lemma ReadBackKeepsMeaning(node: RuleNode, truth: Clause -> Truth)
    requires WellFormed(node)
    ensures ReadSummary(Describe(node)).Some?
    ensures Meaning(ReadSummary(Describe(node)).value, truth) == TruthUnder(node, truth)
  {
    SummaryReadsBack(node);
    SenseKeepsTruth(node, truth);
  }

  /** Two rules with one summary have one verdict on every profile, under either contract. */
  lemma EqualSummariesEqualVerdicts(a: RuleNode, b: RuleNode, who: Reading)
    requires WellFormed(a) && WellFormed(b) && Describe(a) == Describe(b)
    ensures TruthOf(a, who) == TruthOf(b, who)
  {
    ReadBackKeepsMeaning(a, ClauseTruth(who));
    ReadBackKeepsMeaning(b, ClauseTruth(who));
    TruthByClauses(a, who);
    TruthByClauses(b, who);
  }
}
