/** What overrides can and cannot do to a gate's verdict. */
module GateLaws {
  import opened Common
  import opened Domain
  import opened Gates
  import Rules
  import RuleSchema

  /** Every evaluator, with the facts it is asked about. */
  datatype Question =
    | AskGates(context: GateContext)
    | AskAcceptance(constraints: Constraints)
    | AskOutcome(constraints: Constraints, phase: Phase)
    | AskCap(constraints: Constraints)
    | AskExpiry(membershipActive: bool, constraints: Constraints)
    | AskOfferDeadline(now: int, deadline: Option<int>)
    | AskWindow(now: int, deadline: Option<int>, allowedAfter: bool, domain: RuleDomain)
    | AskRegistration(now: int, opens: Option<int>, closes: Option<int>)
    | AskJoinRule(shortfalls: seq<Reason>)
    | AskEligibility(shortfalls: seq<Reason>)

  function AnswerTo(q: Question, overrides: seq<GateOverride>): GateResult {
    match q
    case AskGates(g) => GatesResult(g, overrides)
    case AskAcceptance(c) => ConstraintsResult(c, overrides, Accepting)
    case AskOutcome(c, phase) => OutcomeResult(c, overrides, phase)
    case AskCap(c) => CapResult(c, overrides)
    case AskExpiry(m, c) => ExpiryResult(m, c, overrides)
    case AskOfferDeadline(now, d) => OfferDeadlineResult(now, d, overrides)
    case AskWindow(now, d, after, domain) => WindowResult(now, d, after, domain, overrides)
    case AskRegistration(now, o, c) => RegistrationResult(now, o, c, overrides)
    case AskJoinRule(shortfalls) => JoinRuleResult(shortfalls, overrides)
    case AskEligibility(shortfalls) => EligibilityResult(shortfalls, overrides)
  }

  /** The catalogue of override domains an evaluator may consult (GATE_DOMAINS). */
  function Domains(q: Question): set<RuleDomain> {
    match q
    case AskGates(_) => {ApplicationDeadline, OutcomeGate, OfferCap}
    case AskAcceptance(_) => {OutcomeGate, OfferCap}
    case AskOutcome(_, _) => {OutcomeGate}
    case AskCap(_) => {OfferCap}
    case AskExpiry(_, _) => {OutcomeGate, OfferCap}
    case AskOfferDeadline(_, _) => {OfferDeadline}
    case AskWindow(_, _, _, domain) => {domain}
    case AskRegistration(_, _, _) => {CycleRegistrationWindow}
    case AskJoinRule(_) => {CycleJoinRule}
    case AskEligibility(_) => {Eligibility}
  }

  // ---------------------------------------------------------------- filtering

  function Only(domains: set<RuleDomain>, overrides: seq<GateOverride>): seq<GateOverride> {
    if overrides == [] then []
    else (if overrides[0].domain in domains then [overrides[0]] else []) + Only(domains, overrides[1..])
  }

  lemma {:induction false} MatchingWithin(domain: RuleDomain, domains: set<RuleDomain>, overrides: seq<GateOverride>)
    requires domain in domains
    ensures Matching(domain, Only(domains, overrides)) == Matching(domain, overrides)
  {
    if overrides != [] {
      MatchingWithin(domain, domains, overrides[1..]);
      var rest, all := Only(domains, overrides[1..]), Only(domains, overrides);
      assert all == if overrides[0].domain in domains then [overrides[0]] + rest else rest;
      assert overrides[0].domain in domains ==> all[0] == overrides[0] && all[1..] == rest;
    }
  }

  lemma SelectedWithin(domain: RuleDomain, domains: set<RuleDomain>, overrides: seq<GateOverride>)
    requires domain in domains
    ensures SelectedOverride(domain, Only(domains, overrides)) == SelectedOverride(domain, overrides)
  {
    MatchingWithin(domain, domains, overrides);
  }

  lemma ConstraintsWithin(c: Constraints, phase: Phase, domains: set<RuleDomain>, overrides: seq<GateOverride>)
    requires OutcomeGate in domains && OfferCap in domains
    ensures ConstraintsResult(c, Only(domains, overrides), phase) == ConstraintsResult(c, overrides, phase)
  {
    SelectedWithin(OutcomeGate, domains, overrides);
    SelectedWithin(OfferCap, domains, overrides);
  }

  lemma GatesWithin(g: GateContext, domains: set<RuleDomain>, overrides: seq<GateOverride>)
    requires ApplicationDeadline in domains && OutcomeGate in domains && OfferCap in domains
    ensures GatesResult(g, Only(domains, overrides)) == GatesResult(g, overrides)
  {
    SelectedWithin(ApplicationDeadline, domains, overrides);
    ConstraintsWithin(g.constraints, Applying, domains, overrides);
  }

  lemma RuleGatesWithin(shortfalls: seq<Reason>, domains: set<RuleDomain>, overrides: seq<GateOverride>)
    ensures CycleJoinRule in domains ==>
        JoinRuleResult(shortfalls, Only(domains, overrides)) == JoinRuleResult(shortfalls, overrides)
    ensures Eligibility in domains ==>
        EligibilityResult(shortfalls, Only(domains, overrides)) == EligibilityResult(shortfalls, overrides)
  {
    if CycleJoinRule in domains { SelectedWithin(CycleJoinRule, domains, overrides); }
    if Eligibility in domains { SelectedWithin(Eligibility, domains, overrides); }
  }

  /** No evaluator consults an override outside its catalogue entry. */
  lemma CatalogueIsComplete(q: Question, overrides: seq<GateOverride>)
    ensures AnswerTo(q, Only(Domains(q), overrides)) == AnswerTo(q, overrides)
  {
    match q
    case AskGates(g) => GatesWithin(g, Domains(q), overrides);
    case AskAcceptance(c) => ConstraintsWithin(c, Accepting, Domains(q), overrides);
    case AskOutcome(_, _) => SelectedWithin(OutcomeGate, Domains(q), overrides);
    case AskCap(_) => SelectedWithin(OfferCap, Domains(q), overrides);
    case AskExpiry(_, c) => ConstraintsWithin(c, Accepting, Domains(q), overrides);
    case AskOfferDeadline(_, _) => SelectedWithin(OfferDeadline, Domains(q), overrides);
    case AskWindow(_, _, _, domain) => SelectedWithin(domain, Domains(q), overrides);
    case AskRegistration(_, _, _) => SelectedWithin(CycleRegistrationWindow, Domains(q), overrides);
    case AskJoinRule(shortfalls) => RuleGatesWithin(shortfalls, Domains(q), overrides);
    case AskEligibility(shortfalls) => RuleGatesWithin(shortfalls, Domains(q), overrides);
  }

  // ---------------------------------------------------------------- order

  datatype Effect = Untouched | Lifted | Denied

  function EffectOf(domain: RuleDomain, overrides: seq<GateOverride>): Effect {
    match SelectedOverride(domain, overrides)
    case None => Untouched
    case Some(o) => if o.allow then Lifted else Denied
  }

  predicate HasDenial(domain: RuleDomain, overrides: seq<GateOverride>) {
    exists o :: o in overrides && o.domain == domain && !o.allow
  }

  predicate HasOverride(domain: RuleDomain, overrides: seq<GateOverride>) {
    exists o :: o in overrides && o.domain == domain
  }

  lemma {:induction false} MatchingAre(domain: RuleDomain, overrides: seq<GateOverride>)
    ensures forall o :: o in Matching(domain, overrides) <==> o in overrides && o.domain == domain
  {
    if overrides != [] {
      MatchingAre(domain, overrides[1..]);
      assert overrides == [overrides[0]] + overrides[1..];
    }
  }

  lemma {:induction false} FirstDenialIs(overrides: seq<GateOverride>)
    ensures FirstDenial(overrides).Some? ==>
        FirstDenial(overrides).value in overrides && !FirstDenial(overrides).value.allow
    ensures FirstDenial(overrides).None? ==> forall o | o in overrides :: o.allow
  {
    if overrides != [] && overrides[0].allow { FirstDenialIs(overrides[1..]); }
  }

  /** A denial wins over any number of allowances, wherever they stand; the chosen override belongs to the domain. */
  lemma EffectIs(domain: RuleDomain, overrides: seq<GateOverride>)
    ensures EffectOf(domain, overrides).Denied? <==> HasDenial(domain, overrides)
    ensures EffectOf(domain, overrides).Untouched? <==> !HasOverride(domain, overrides)
    ensures SelectedOverride(domain, overrides).Some? ==>
              SelectedOverride(domain, overrides).value in overrides
              && SelectedOverride(domain, overrides).value.domain == domain
  {
    var matching := Matching(domain, overrides);
    MatchingAre(domain, overrides);
    FirstDenialIs(matching);
    if matching != [] { assert matching[0] in matching; }
    if HasOverride(domain, overrides) {
      var o :| o in overrides && o.domain == domain;
      assert o in matching;
    }
  }

  lemma EffectIgnoresOrder(domain: RuleDomain, a: seq<GateOverride>, b: seq<GateOverride>)
    requires multiset(a) == multiset(b)
    ensures EffectOf(domain, a) == EffectOf(domain, b)
  {
    assert forall o :: o in a <==> o in multiset(a);
    assert forall o :: o in b <==> o in multiset(b);
    EffectIs(domain, a);
    EffectIs(domain, b);
  }

  /** The same reasons, and as many overrides credited. */
  predicate Alike(a: GateResult, b: GateResult) {
    a.failures == b.failures && |a.applied| == |b.applied|
  }

  lemma DecisionIgnoresOrder(failure: Option<Reason>, domain: RuleDomain, a: seq<GateOverride>, b: seq<GateOverride>)
    requires multiset(a) == multiset(b)
    ensures Alike(OverrideDecision(failure, domain, a), OverrideDecision(failure, domain, b))
  {
    EffectIgnoresOrder(domain, a, b);
  }

  lemma ConstraintsIgnoreOrder(c: Constraints, phase: Phase, a: seq<GateOverride>, b: seq<GateOverride>)
    requires multiset(a) == multiset(b)
    ensures Alike(ConstraintsResult(c, a, phase), ConstraintsResult(c, b, phase))
  {
    DecisionIgnoresOrder(OutcomeFailure(c, phase), OutcomeGate, a, b);
    DecisionIgnoresOrder(CapFailure(c), OfferCap, a, b);
  }

  lemma GatesIgnoreOrder(g: GateContext, a: seq<GateOverride>, b: seq<GateOverride>)
    requires multiset(a) == multiset(b)
    ensures Alike(GatesResult(g, a), GatesResult(g, b))
  {
    DecisionIgnoresOrder(DeadlineFailure(g.now, g.deadline, "application_deadline"), ApplicationDeadline, a, b);
    ConstraintsIgnoreOrder(g.constraints, Applying, a, b);
  }

  lemma ExpiryIgnoresOrder(membershipActive: bool, c: Constraints, a: seq<GateOverride>, b: seq<GateOverride>)
    requires multiset(a) == multiset(b)
    ensures Alike(ExpiryResult(membershipActive, c, a), ExpiryResult(membershipActive, c, b))
  {
    ConstraintsIgnoreOrder(c, Accepting, a, b);
  }

  lemma JoinRuleIgnoresOrder(shortfalls: seq<Reason>, a: seq<GateOverride>, b: seq<GateOverride>)
    requires EffectOf(CycleJoinRule, a) == EffectOf(CycleJoinRule, b)
    ensures Alike(JoinRuleResult(shortfalls, a), JoinRuleResult(shortfalls, b))
  {
  }

  lemma EligibilityIgnoresOrder(shortfalls: seq<Reason>, a: seq<GateOverride>, b: seq<GateOverride>)
    requires EffectOf(Eligibility, a) == EffectOf(Eligibility, b)
    ensures Alike(EligibilityResult(shortfalls, a), EligibilityResult(shortfalls, b))
  {
  }

  /**
   Which reasons stand does not depend on the order overrides are read in; only which of equal overrides is credited
   can.
   */
  lemma OrderDoesNotDecide(q: Question, a: seq<GateOverride>, b: seq<GateOverride>)
    requires multiset(a) == multiset(b)
    ensures Alike(AnswerTo(q, a), AnswerTo(q, b))
  {
    match q
    case AskGates(g) => GatesIgnoreOrder(g, a, b);
    case AskAcceptance(c) => ConstraintsIgnoreOrder(c, Accepting, a, b);
    case AskOutcome(c, phase) => DecisionIgnoresOrder(OutcomeFailure(c, phase), OutcomeGate, a, b);
    case AskCap(c) => DecisionIgnoresOrder(CapFailure(c), OfferCap, a, b);
    case AskExpiry(m, c) => ExpiryIgnoresOrder(m, c, a, b);
    case AskOfferDeadline(now, d) =>
      DecisionIgnoresOrder(DeadlineFailure(now, d, "offer_acceptance_deadline"), OfferDeadline, a, b);
    case AskWindow(now, d, after, domain) => DecisionIgnoresOrder(WindowFailure(now, d, after), domain, a, b);
    case AskRegistration(now, o, c) =>
      DecisionIgnoresOrder(RegistrationFailure(now, o, c), CycleRegistrationWindow, a, b);
    case AskJoinRule(shortfalls) =>
      EffectIgnoresOrder(CycleJoinRule, a, b);
      JoinRuleIgnoresOrder(shortfalls, a, b);
    case AskEligibility(shortfalls) =>
      EffectIgnoresOrder(Eligibility, a, b);
      EligibilityIgnoresOrder(shortfalls, a, b);
  }

  // ---------------------------------------------------------------- exactly when a gate passes

  /** A gate passes exactly if nothing denies it and its own failure, if any, is lifted. */
  lemma DecisionPassesIff(failure: Option<Reason>, domain: RuleDomain, overrides: seq<GateOverride>)
    ensures OverrideDecision(failure, domain, overrides).Passes()
       <==> !HasDenial(domain, overrides) && (failure.None? || HasOverride(domain, overrides))
    ensures |OverrideDecision(failure, domain, overrides).applied| == 1
       <==> HasDenial(domain, overrides) || (failure.Some? && HasOverride(domain, overrides))
  {
    EffectIs(domain, overrides);
  }

  /** Nothing denies this domain, and an allowance stands if one is needed. */
  predicate Lets(domain: RuleDomain, needed: bool, overrides: seq<GateOverride>) {
    !HasDenial(domain, overrides) && (needed ==> HasOverride(domain, overrides))
  }

  predicate OutcomeBlocks(c: Constraints, phase: Phase) {
    || (c.role.Placement? && c.placedGlobally && !(phase.Applying? && c.kind.OpenCycle?))
    || (c.role.Internship? && c.kind.InternshipCycle? && c.internInCycle)
  }

  predicate CapBlocks(c: Constraints) {
    c.cap.Some? && c.capUsed >= c.cap.value
  }

  lemma ConstraintsPassIff(c: Constraints, overrides: seq<GateOverride>, phase: Phase)
    ensures ConstraintsResult(c, overrides, phase).Passes()
       <==> Lets(OutcomeGate, OutcomeBlocks(c, phase), overrides) && Lets(OfferCap, CapBlocks(c), overrides)
  {
    DecisionPassesIff(OutcomeFailure(c, phase), OutcomeGate, overrides);
    DecisionPassesIff(CapFailure(c), OfferCap, overrides);
  }

  /**
   An application passes every gate exactly when the membership, job and conduct facts allow it and each overridable
   gate lets it.
   */
  lemma GatesPassIff(g: GateContext, overrides: seq<GateOverride>)
    ensures GatesResult(g, overrides).Passes()
       <==> && g.membership.Active? && !g.archived && !g.cancelled && g.published
            && !g.duplicate && !(g.penaltyBlocks && g.penalty)
            && Lets(ApplicationDeadline, Past(g.now, g.deadline), overrides)
            && Lets(OutcomeGate, OutcomeBlocks(g.constraints, Applying), overrides)
            && Lets(OfferCap, CapBlocks(g.constraints), overrides)
  {
    DecisionPassesIff(DeadlineFailure(g.now, g.deadline, "application_deadline"), ApplicationDeadline, overrides);
    ConstraintsPassIff(g.constraints, overrides, Applying);
  }

  /** The system accepts on expiry exactly when the membership is active and acceptance itself would pass. */
  lemma ExpiryPassesIff(membershipActive: bool, c: Constraints, overrides: seq<GateOverride>)
    ensures ExpiryResult(membershipActive, c, overrides).Passes()
       <==> membershipActive && ConstraintsResult(c, overrides, Accepting).Passes()
  {
  }

  /** An offer can be answered in time or on an allowance, and never against a denial; its deadline is closed. */
  lemma OfferDeadlinePassesIff(now: int, deadline: Option<int>, overrides: seq<GateOverride>)
    ensures OfferDeadlineResult(now, deadline, overrides).Passes()
       <==> Lets(OfferDeadline, deadline.Some? && deadline.value <= now, overrides)
  {
    DecisionPassesIff(DeadlineFailure(now, deadline, "offer_acceptance_deadline"), OfferDeadline, overrides);
  }

  /**
   Each window needs an allowance of its own domain exactly if the deadline has passed and the policy then shuts it.
   */
  lemma WindowPassesIff(now: int, deadline: Option<int>, allowedAfter: bool, domain: RuleDomain,
                        overrides: seq<GateOverride>)
    ensures WindowResult(now, deadline, allowedAfter, domain, overrides).Passes()
       <==> Lets(domain, !allowedAfter && deadline.Some? && deadline.value <= now, overrides)
  {
    DecisionPassesIff(WindowFailure(now, deadline, allowedAfter), domain, overrides);
  }

  /** Registration is open from its opening time up to, not including, its closing time; either may be missing. */
  lemma RegistrationPassesIff(now: int, opens: Option<int>, closes: Option<int>, overrides: seq<GateOverride>)
    ensures RegistrationResult(now, opens, closes, overrides).Passes()
       <==> Lets(CycleRegistrationWindow,
                 !((opens.None? || opens.value <= now) && (closes.None? || now < closes.value)), overrides)
  {
    DecisionPassesIff(RegistrationFailure(now, opens, closes), CycleRegistrationWindow, overrides);
  }

  /** What a rule's shortfalls come to after overrides: all of them, one denial in their place, or none. */
  predicate Decides(domain: RuleDomain, shortfalls: seq<Reason>, overrides: seq<GateOverride>, r: GateResult) {
    && (r.Passes() <==> Lets(domain, shortfalls != [], overrides))
    && (HasDenial(domain, overrides) ==> |r.failures| == 1 && r.failures[0].code.BlockedByOverride?)
    && (!HasOverride(domain, overrides) ==> r == GateResult(shortfalls, []))
    && (|r.applied| == 1 <==> HasDenial(domain, overrides) || (shortfalls != [] && HasOverride(domain, overrides)))
  }

  lemma JoinRulePassesIff(shortfalls: seq<Reason>, overrides: seq<GateOverride>)
    ensures Decides(CycleJoinRule, shortfalls, overrides, JoinRuleResult(shortfalls, overrides))
  {
    EffectIs(CycleJoinRule, overrides);
  }

  lemma EligibilityPassesIff(shortfalls: seq<Reason>, overrides: seq<GateOverride>)
    ensures Decides(Eligibility, shortfalls, overrides, EligibilityResult(shortfalls, overrides))
  {
    EffectIs(Eligibility, overrides);
  }

  /**
   With one shortfall for each failure the evaluator reports, joining and applying each pass exactly
   if the rule holds or an allowance stands in for it, and nothing denies them.
   */
  lemma RuleGatesPassIff(node: RuleSchema.RuleNode, who: Rules.Reading, shortfalls: seq<Reason>,
                         overrides: seq<GateOverride>)
    requires |shortfalls| == |Rules.FailuresOf(node, who)|
    ensures JoinRuleResult(shortfalls, overrides).Passes()
       <==> Lets(CycleJoinRule, !Rules.TruthOf(node, who).Holds?, overrides)
    ensures EligibilityResult(shortfalls, overrides).Passes()
       <==> Lets(Eligibility, !Rules.TruthOf(node, who).Holds?, overrides)
  {
    Rules.NoFailuresIffHolds(node, who);
    JoinRulePassesIff(shortfalls, overrides);
    EligibilityPassesIff(shortfalls, overrides);
  }

  // ---------------------------------------------------------------- which reasons are given

  /** What a gate that can be overridden says: nothing, its own reason, or that an override blocks it. */
  function Said(domain: RuleDomain, fails: bool, code: Code, path: string, overrides: seq<GateOverride>): seq<Reason> {
    if HasDenial(domain, overrides) then [Reason(BlockedByOverride, if fails then path else DomainPath(domain))]
    else if fails && !HasOverride(domain, overrides) then [Reason(code, path)]
    else []
  }

  lemma DecisionSays(fails: bool, code: Code, path: string, domain: RuleDomain, overrides: seq<GateOverride>)
    requires path != ""
    ensures OverrideDecision(if fails then Some(Reason(code, path)) else None, domain, overrides).failures
         == Said(domain, fails, code, path, overrides)
  {
    EffectIs(domain, overrides);
  }

  /** The first of these facts that stands in the way of the job. */
  function JobSays(g: GateContext): seq<Reason> {
    if g.archived then [Reason(CycleArchived, "cycle_archived")]
    else if g.cancelled then [Reason(JobCancelled, "job_cancelled")]
    else if !g.published then [Reason(JobUnpublished, "job_published")]
    else []
  }

  function OutcomeSays(c: Constraints, phase: Phase, overrides: seq<GateOverride>): seq<Reason> {
    Said(OutcomeGate, OutcomeBlocks(c, phase),
         if c.role.Placement? then OutcomeGatePlacement else OutcomeGateInternship, "outcome", overrides)
  }

  function CapSays(c: Constraints, overrides: seq<GateOverride>): seq<Reason> {
    Said(OfferCap, CapBlocks(c), OfferCapReached, "max_accepted_offers", overrides)
  }

  lemma ConstraintsSay(c: Constraints, phase: Phase, overrides: seq<GateOverride>)
    ensures ConstraintsResult(c, overrides, phase).failures == OutcomeSays(c, phase, overrides) + CapSays(c, overrides)
  {
    var code := if c.role.Placement? then OutcomeGatePlacement else OutcomeGateInternship;
    DecisionSays(OutcomeBlocks(c, phase), code, "outcome", OutcomeGate, overrides);
    DecisionSays(CapBlocks(c), OfferCapReached, "max_accepted_offers", OfferCap, overrides);
  }

  /**
   The reasons an application is given, in the mandated order: membership, job, deadline, duplicate, penalty,
   outcome, cap; each at its own path.
   */
  lemma GatesSay(g: GateContext, overrides: seq<GateOverride>)
    ensures GatesResult(g, overrides).failures ==
              (if g.membership.Active? then [] else [Reason(MembershipNotActive, "membership_status")])
              + JobSays(g)
              + Said(ApplicationDeadline, Past(g.now, g.deadline), DeadlinePassed, "application_deadline", overrides)
              + (if g.duplicate then [Reason(DuplicateApplication, "application")] else [])
              + (if g.penaltyBlocks && g.penalty then [Reason(PenaltyActive, "penalty")] else [])
              + (OutcomeSays(g.constraints, Applying, overrides) + CapSays(g.constraints, overrides))
  {
    DecisionSays(Past(g.now, g.deadline), DeadlinePassed, "application_deadline", ApplicationDeadline, overrides);
    ConstraintsSay(g.constraints, Applying, overrides);
  }

  /** The reasons of the system's own acceptance, and of the four gates that stand alone. */
  lemma OtherGatesSay(membershipActive: bool, c: Constraints, now: int, opens: Option<int>, closes: Option<int>,
                      allowedAfter: bool, domain: RuleDomain, overrides: seq<GateOverride>)
    ensures ExpiryResult(membershipActive, c, overrides).failures ==
              (if membershipActive then [] else [Reason(MembershipNotActive, "membership_status")])
              + (OutcomeSays(c, Accepting, overrides) + CapSays(c, overrides))
    ensures OfferDeadlineResult(now, closes, overrides).failures
         == Said(OfferDeadline, Past(now, closes), DeadlinePassed, "offer_acceptance_deadline", overrides)
    ensures WindowResult(now, closes, allowedAfter, domain, overrides).failures
         == Said(domain, Past(now, closes) && !allowedAfter, WindowClosed, "application_deadline", overrides)
    ensures RegistrationResult(now, opens, closes, overrides).failures
         == Said(CycleRegistrationWindow, (opens.Some? && now < opens.value) || Past(now, closes), RegistrationClosed,
                 "cycle_id", overrides)
  {
    ConstraintsSay(c, Accepting, overrides);
    DecisionSays(Past(now, closes), DeadlinePassed, "offer_acceptance_deadline", OfferDeadline, overrides);
    DecisionSays(Past(now, closes) && !allowedAfter, WindowClosed, "application_deadline", domain, overrides);
    DecisionSays((opens.Some? && now < opens.value) || Past(now, closes), RegistrationClosed, "cycle_id",
                 CycleRegistrationWindow, overrides);
  }

  /** What the two rule gates say against a denial, and whom they credit. */
  lemma RuleGatesSay(shortfalls: seq<Reason>, overrides: seq<GateOverride>)
    ensures HasDenial(CycleJoinRule, overrides) ==>
              JoinRuleResult(shortfalls, overrides).failures
              == [Reason(BlockedByOverride, if shortfalls == [] || shortfalls[0].path == "" then "cycle_join_rule"
                                            else shortfalls[0].path)]
    ensures HasDenial(Eligibility, overrides) ==>
              EligibilityResult(shortfalls, overrides).failures == [Reason(BlockedByOverride, "eligibility")]
    ensures IsCredit(CycleJoinRule, overrides, JoinRuleResult(shortfalls, overrides))
    ensures IsCredit(Eligibility, overrides, EligibilityResult(shortfalls, overrides))
  {
    SelectedIsFirst(CycleJoinRule, overrides);
    SelectedIsFirst(Eligibility, overrides);
    EffectIs(CycleJoinRule, overrides);
    EffectIs(Eligibility, overrides);
  }

  /** At most one override is on record: the one that decides its domain. */
  predicate IsCredit(domain: RuleDomain, overrides: seq<GateOverride>, r: GateResult) {
    |r.applied| <= 1 && (r.applied != [] ==>
      exists i :: 0 <= i < |overrides| && overrides[i].id == r.applied[0] && DecidesAt(domain, overrides, i))
  }

  /** The first denial of the domain or, where there is none, its first override. */
  predicate DecidesAt(domain: RuleDomain, overrides: seq<GateOverride>, i: nat)
    requires i < |overrides|
  {
    && overrides[i].domain == domain
    && forall j | 0 <= j < |overrides| && overrides[j].domain == domain && j != i ::
         if overrides[i].allow then overrides[j].allow && i < j else overrides[j].allow || i < j
  }

  lemma {:induction false} FirstMatching(domain: RuleDomain, overrides: seq<GateOverride>) returns (i: nat)
    requires Matching(domain, overrides) != []
    ensures i < |overrides| && overrides[i] == Matching(domain, overrides)[0] && overrides[i].domain == domain
    ensures forall j | 0 <= j < i :: overrides[j].domain != domain
  {
    if overrides[0].domain == domain {
      i := 0;
    } else {
      var k := FirstMatching(domain, overrides[1..]);
      i := k + 1;
      assert forall j | 0 < j < i :: overrides[j] == overrides[1..][j - 1];
    }
  }

  lemma {:induction false} FirstDenialAt(domain: RuleDomain, overrides: seq<GateOverride>) returns (i: nat)
    requires FirstDenial(Matching(domain, overrides)).Some?
    ensures i < |overrides| && overrides[i] == FirstDenial(Matching(domain, overrides)).value
    ensures overrides[i].domain == domain && !overrides[i].allow
    ensures forall j | 0 <= j < i && overrides[j].domain == domain :: overrides[j].allow
  {
    if overrides[0].domain == domain && !overrides[0].allow {
      i := 0;
    } else {
      var rest := Matching(domain, overrides[1..]);
      if overrides[0].domain == domain {
        assert Matching(domain, overrides)[1..] == rest;
      } else {
        assert Matching(domain, overrides) == rest;
      }
      var k := FirstDenialAt(domain, overrides[1..]);
      i := k + 1;
      assert forall j | 0 < j < i :: overrides[j] == overrides[1..][j - 1];
    }
  }

  /** The override that decides a domain is its first denial or, without one, its first override. */
  lemma SelectedIsFirst(domain: RuleDomain, overrides: seq<GateOverride>)
    ensures SelectedOverride(domain, overrides).Some? ==>
              exists i :: 0 <= i < |overrides| && overrides[i] == SelectedOverride(domain, overrides).value
                          && DecidesAt(domain, overrides, i)
  {
    var matching := Matching(domain, overrides);
    if FirstDenial(matching).Some? {
      var i := FirstDenialAt(domain, overrides);
      assert DecidesAt(domain, overrides, i);
    } else if matching != [] {
      MatchingAre(domain, overrides);
      FirstDenialIs(matching);
      var i := FirstMatching(domain, overrides);
      forall j | 0 <= j < |overrides| && overrides[j].domain == domain ensures overrides[j].allow {
        assert overrides[j] in matching;
      }
      assert DecidesAt(domain, overrides, i);
    }
  }

  /** Every gate that can be overridden credits at most the override that decides its domain. */
  lemma DecisionCredits(failure: Option<Reason>, domain: RuleDomain, overrides: seq<GateOverride>)
    ensures IsCredit(domain, overrides, OverrideDecision(failure, domain, overrides))
  {
    SelectedIsFirst(domain, overrides);
  }

  /** Acceptance credits what its outcome gate and then its cap credit ... */
  lemma ConstraintsCredit(c: Constraints, phase: Phase, overrides: seq<GateOverride>)
    ensures IsCredit(OutcomeGate, overrides, OutcomeResult(c, overrides, phase))
    ensures IsCredit(OfferCap, overrides, CapResult(c, overrides))
    ensures ConstraintsResult(c, overrides, phase).applied
         == OutcomeResult(c, overrides, phase).applied + CapResult(c, overrides).applied
  {
    DecisionCredits(OutcomeFailure(c, phase), OutcomeGate, overrides);
    DecisionCredits(CapFailure(c), OfferCap, overrides);
  }

  /** What an application's deadline gate comes to. */
  function DeadlineResult(g: GateContext, overrides: seq<GateOverride>): GateResult {
    OverrideDecision(DeadlineFailure(g.now, g.deadline, "application_deadline"), ApplicationDeadline, overrides)
  }

  lemma DeadlineCredits(g: GateContext, overrides: seq<GateOverride>)
    ensures IsCredit(ApplicationDeadline, overrides, DeadlineResult(g, overrides))
  {
    DecisionCredits(DeadlineFailure(g.now, g.deadline, "application_deadline"), ApplicationDeadline, overrides);
  }

  lemma StandingCreditsNobody(a: GateResult, failure: Option<Reason>)
    ensures Both(a, Standing(failure)).applied == a.applied
    ensures Both(Standing(failure), a).applied == a.applied
  {
  }

  /** ... and an application what its deadline credits before that. */
  lemma GatesCredit(g: GateContext, overrides: seq<GateOverride>)
    ensures GatesResult(g, overrides).applied
         == DeadlineResult(g, overrides).applied + ConstraintsResult(g.constraints, overrides, Applying).applied
  {
    StandingCreditsNobody(Standing(MembershipFailure(g)), JobFailure(g));
    var deadline := DeadlineResult(g, overrides);
    var a := Both(Both(Standing(MembershipFailure(g)), Standing(JobFailure(g))), deadline);
    assert a.applied == deadline.applied;
    StandingCreditsNobody(a, DuplicateFailure(g));
    StandingCreditsNobody(Both(a, Standing(DuplicateFailure(g))), PenaltyFailure(g));
  }

  /** Passing against a failing gate always leaves an allowance of that domain on record. */
  lemma LiftIsCredited(failure: Option<Reason>, domain: RuleDomain, overrides: seq<GateOverride>)
    requires failure.Some? && OverrideDecision(failure, domain, overrides).Passes()
    ensures exists o ::
              && o in overrides && o.domain == domain && o.allow
              && OverrideDecision(failure, domain, overrides).applied == [o.id]
  {
    EffectIs(domain, overrides);
  }
}
