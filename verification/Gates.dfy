/** Standing gates, and the overrides that lift or impose them (backend/app/domain/gates.py). */
module Gates {
  import opened Common
  import opened Domain

  datatype RuleDomain =
    | Eligibility | ApplicationDeadline | EditWindow | WithdrawWindow | OutcomeGate | OfferCap | OfferDeadline
    | CycleRegistrationWindow | CycleJoinRule

  datatype GateOverride = GateOverride(id: Id, domain: RuleDomain, allow: bool)

  datatype Code =
    | MembershipNotActive | CycleArchived | JobCancelled | JobUnpublished | DeadlinePassed | DuplicateApplication
    | PenaltyActive | OutcomeGatePlacement | OutcomeGateInternship | OfferCapReached | WindowClosed
    | RegistrationClosed | RuleFailed | BlockedByOverride

  datatype Reason = Reason(code: Code, path: string)

  datatype GateResult = GateResult(failures: seq<Reason>, applied: seq<Id>) {
    predicate Passes() {
      failures == []
    }
  }

  datatype Phase = Applying | Accepting

  // ---------------------------------------------------------------- selecting an override

  function Matching(domain: RuleDomain, overrides: seq<GateOverride>): seq<GateOverride> {
    if overrides == [] then []
    else (if overrides[0].domain == domain then [overrides[0]] else []) + Matching(domain, overrides[1..])
  }

  function FirstDenial(overrides: seq<GateOverride>): Option<GateOverride> {
    if overrides == [] then None else if !overrides[0].allow then Some(overrides[0]) else FirstDenial(overrides[1..])
  }

  /** The first denial of the domain, or else its first override. */
  function SelectedOverride(domain: RuleDomain, overrides: seq<GateOverride>): Option<GateOverride> {
    var matching := Matching(domain, overrides);
    match FirstDenial(matching)
    case Some(o) => Some(o)
    case None => if matching == [] then None else Some(matching[0])
  }

  function DomainPath(domain: RuleDomain): string {
    match domain
    case Eligibility => "eligibility"
    case ApplicationDeadline => "application_deadline"
    case EditWindow => "edit_window"
    case WithdrawWindow => "withdraw_window"
    case OutcomeGate => "outcome_gate"
    case OfferCap => "offer_cap"
    case OfferDeadline => "offer_deadline"
    case CycleRegistrationWindow => "cycle_registration_window"
    case CycleJoinRule => "cycle_join_rule"
  }

  /** What one gate contributes, given its failure and what was overridden. */
  function OverrideDecision(failure: Option<Reason>, domain: RuleDomain, overrides: seq<GateOverride>): GateResult {
    match SelectedOverride(domain, overrides)
    case Some(o) =>
      if !o.allow then
        var path := if failure.Some? && failure.value.path != "" then failure.value.path else DomainPath(domain);
        GateResult([Reason(BlockedByOverride, path)], [o.id])
      else if failure.Some? then GateResult([], [o.id]) else GateResult([], [])
    case None => GateResult(if failure.Some? then [failure.value] else [], [])
  }

  function Both(a: GateResult, b: GateResult): GateResult {
    GateResult(a.failures + b.failures, a.applied + b.applied)
  }

  function Standing(failure: Option<Reason>): GateResult {
    GateResult(if failure.Some? then [failure.value] else [], [])
  }

  // ---------------------------------------------------------------- the gates

  /** What stands in the student's way at acceptance. */
  datatype Constraints = Constraints(role: Role, kind: CycleKind, placedGlobally: bool, internInCycle: bool,
                                     cap: Option<int>, capUsed: int)

  function OutcomeFailure(c: Constraints, phase: Phase): Option<Reason> {
    if c.role.Placement? && c.placedGlobally && !(phase.Applying? && c.kind.OpenCycle?) then
      Some(Reason(OutcomeGatePlacement, "outcome"))
    else if c.role.Internship? && c.kind.InternshipCycle? && c.internInCycle then
      Some(Reason(OutcomeGateInternship, "outcome"))
    else None
  }

  function CapFailure(c: Constraints): Option<Reason> {
    if c.cap.Some? && c.capUsed >= c.cap.value then Some(Reason(OfferCapReached, "max_accepted_offers")) else None
  }

  function OutcomeResult(c: Constraints, overrides: seq<GateOverride>, phase: Phase): GateResult {
    OverrideDecision(OutcomeFailure(c, phase), OutcomeGate, overrides)
  }

  function CapResult(c: Constraints, overrides: seq<GateOverride>): GateResult {
    OverrideDecision(CapFailure(c), OfferCap, overrides)
  }

  function ConstraintsResult(c: Constraints, overrides: seq<GateOverride>, phase: Phase): GateResult {
    Both(OutcomeResult(c, overrides, phase), CapResult(c, overrides))
  }

  function ExpiryResult(membershipActive: bool, c: Constraints, overrides: seq<GateOverride>): GateResult {
    Both(Standing(if membershipActive then None else Some(Reason(MembershipNotActive, "membership_status"))),
         ConstraintsResult(c, overrides, Accepting))
  }

  datatype GateContext = GateContext(membership: MembershipStatus, published: bool, cancelled: bool, archived: bool,
                                     deadline: Option<int>, now: int, duplicate: bool, penalty: bool,
                                     penaltyBlocks: bool, constraints: Constraints)

  function Past(now: int, deadline: Option<int>): bool {
    deadline.Some? && now >= deadline.value
  }

  function MembershipFailure(g: GateContext): Option<Reason> {
    if g.membership.Active? then None else Some(Reason(MembershipNotActive, "membership_status"))
  }

  function JobFailure(g: GateContext): Option<Reason> {
    if g.archived then Some(Reason(CycleArchived, "cycle_archived"))
    else if g.cancelled then Some(Reason(JobCancelled, "job_cancelled"))
    else if !g.published then Some(Reason(JobUnpublished, "job_published"))
    else None
  }

  function DeadlineFailure(now: int, deadline: Option<int>, path: string): Option<Reason> {
    if Past(now, deadline) then Some(Reason(DeadlinePassed, path)) else None
  }

  function DuplicateFailure(g: GateContext): Option<Reason> {
    if g.duplicate then Some(Reason(DuplicateApplication, "application")) else None
  }

  function PenaltyFailure(g: GateContext): Option<Reason> {
    if g.penaltyBlocks && g.penalty then Some(Reason(PenaltyActive, "penalty")) else None
  }

  /** Every gate of an application, in the mandated order. */
  function GatesResult(g: GateContext, overrides: seq<GateOverride>): GateResult {
    Both(Both(Both(Both(Both(Standing(MembershipFailure(g)), Standing(JobFailure(g))),
                        OverrideDecision(DeadlineFailure(g.now, g.deadline, "application_deadline"),
                                         ApplicationDeadline, overrides)),
                   Standing(DuplicateFailure(g))),
              Standing(PenaltyFailure(g))),
         ConstraintsResult(g.constraints, overrides, Applying))
  }

  function OfferDeadlineResult(now: int, deadline: Option<int>, overrides: seq<GateOverride>): GateResult {
    OverrideDecision(DeadlineFailure(now, deadline, "offer_acceptance_deadline"), OfferDeadline, overrides)
  }

  function WindowFailure(now: int, deadline: Option<int>, allowedAfter: bool): Option<Reason> {
    if Past(now, deadline) && !allowedAfter then Some(Reason(WindowClosed, "application_deadline")) else None
  }

  /** The edit and withdrawal windows, by their domain. */
  function WindowResult(now: int, deadline: Option<int>, allowedAfter: bool, domain: RuleDomain,
                        overrides: seq<GateOverride>)
    : GateResult
  {
    OverrideDecision(WindowFailure(now, deadline, allowedAfter), domain, overrides)
  }

  function RegistrationFailure(now: int, opens: Option<int>, closes: Option<int>): Option<Reason> {
    if (opens.Some? && now < opens.value) || Past(now, closes) then Some(Reason(RegistrationClosed, "cycle_id"))
    else None
  }

  function RegistrationResult(now: int, opens: Option<int>, closes: Option<int>,
                              overrides: seq<GateOverride>): GateResult {
    OverrideDecision(RegistrationFailure(now, opens, closes), CycleRegistrationWindow, overrides)
  }

  /** The join rule keeps every path-addressed shortfall unless one override decides the whole rule. */
  function JoinRuleResult(shortfalls: seq<Reason>, overrides: seq<GateOverride>): GateResult {
    if shortfalls == [] then OverrideDecision(None, CycleJoinRule, overrides)
    else
      match SelectedOverride(CycleJoinRule, overrides)
      case None => GateResult(shortfalls, [])
      case Some(o) =>
        GateResult(if o.allow then []
                   else
                     [Reason(BlockedByOverride,
                             if shortfalls[0].path == "" then "cycle_join_rule" else shortfalls[0].path)],
                   [o.id])
  }

  /** `apply_eligibility_override`, over the job rule's verdict. */
  function EligibilityResult(shortfalls: seq<Reason>, overrides: seq<GateOverride>): GateResult {
    match SelectedOverride(Eligibility, overrides)
    case Some(o) =>
      if !o.allow then GateResult([Reason(BlockedByOverride, "eligibility")], [o.id])
      else if shortfalls == [] then GateResult([], []) else GateResult([], [o.id])
    case None => GateResult(shortfalls, [])
  }

  // ---------------------------------------------------------------- the evaluators, appending to shared lists

  class Tally {
    var failures: seq<Reason>
    var applied: seq<Id>

    constructor ()
      ensures Result() == GateResult([], [])
    {
      failures, applied := [], [];
    }

    function Result(): GateResult
      reads this
    {
      GateResult(failures, applied)
    }

    method Fail(reason: Reason)
      modifies `failures
      ensures Result() == Both(old(Result()), Standing(Some(reason)))
    {
      failures := failures + [reason];
    }

    method AppendOverrideDecision(failure: Option<Reason>, domain: RuleDomain, overrides: seq<GateOverride>)
      modifies this
      ensures Result() == Both(old(Result()), OverrideDecision(failure, domain, overrides))
    {
      var selected := SelectedOverride(domain, overrides);
      if selected.Some? && !selected.value.allow {
        var path := if failure.Some? && failure.value.path != "" then failure.value.path else DomainPath(domain);
        failures := failures + [Reason(BlockedByOverride, path)];
        applied := applied + [selected.value.id];
      } else if failure.Some? && selected.None? {
        failures := failures + [failure.value];
      } else if failure.Some? && selected.Some? {
        applied := applied + [selected.value.id];
      }
    }

    method AppendAcceptanceConstraints(c: Constraints, overrides: seq<GateOverride>, phase: Phase)
      modifies this
      ensures Result() == Both(old(Result()), ConstraintsResult(c, overrides, phase))
    {
      var outcome := EvaluateOutcomeGate(c, overrides, phase);
      failures := failures + outcome.failures;
      applied := applied + outcome.applied;
      var cap := EvaluateOfferCap(c, overrides);
      failures := failures + cap.failures;
      applied := applied + cap.applied;
    }
  }

  method EvaluateOutcomeGate(c: Constraints, overrides: seq<GateOverride>, phase: Phase) returns (r: GateResult)
    ensures r == OutcomeResult(c, overrides, phase)
  {
    var openApplying := phase.Applying? && c.kind.OpenCycle?;
    var failure: Option<Reason> := None;
    if c.role.Placement? && c.placedGlobally && !openApplying {
      failure := Some(Reason(OutcomeGatePlacement, "outcome"));
    } else if c.role.Internship? && c.kind.InternshipCycle? && c.internInCycle {
      failure := Some(Reason(OutcomeGateInternship, "outcome"));
    }
    var tally := new Tally();
    tally.AppendOverrideDecision(failure, OutcomeGate, overrides);
    r := tally.Result();
  }

  method EvaluateOfferCap(c: Constraints, overrides: seq<GateOverride>) returns (r: GateResult)
    ensures r == CapResult(c, overrides)
  {
    var tally := new Tally();
    tally.AppendOverrideDecision(CapFailure(c), OfferCap, overrides);
    r := tally.Result();
  }

  method EvaluateAcceptanceConstraints(c: Constraints, overrides: seq<GateOverride>) returns (r: GateResult)
    ensures r == ConstraintsResult(c, overrides, Accepting)
  {
    var tally := new Tally();
    tally.AppendAcceptanceConstraints(c, overrides, Accepting);
    r := tally.Result();
  }

  method EvaluateExpiryAcceptanceConstraints(membershipActive: bool, c: Constraints, overrides: seq<GateOverride>)
    returns (r: GateResult)
    ensures r == ExpiryResult(membershipActive, c, overrides)
  {
    var tally := new Tally();
    if !membershipActive { tally.Fail(Reason(MembershipNotActive, "membership_status")); }
    tally.AppendAcceptanceConstraints(c, overrides, Accepting);
    r := tally.Result();
  }

  method EvaluateGates(g: GateContext, overrides: seq<GateOverride>) returns (r: GateResult)
    ensures r == GatesResult(g, overrides)
  {
    var tally := new Tally();
    if !g.membership.Active? { tally.Fail(Reason(MembershipNotActive, "membership_status")); }
    if g.archived {
      tally.Fail(Reason(CycleArchived, "cycle_archived"));
    } else if g.cancelled {
      tally.Fail(Reason(JobCancelled, "job_cancelled"));
    } else if !g.published {
      tally.Fail(Reason(JobUnpublished, "job_published"));
    }
    assert tally.Result() == Both(Standing(MembershipFailure(g)), Standing(JobFailure(g)));
    tally.AppendOverrideDecision(DeadlineFailure(g.now, g.deadline, "application_deadline"), ApplicationDeadline,
                                 overrides);
    label Deadline:
    if g.duplicate { tally.Fail(Reason(DuplicateApplication, "application")); }
    assert tally.Result() == Both(old@Deadline(tally.Result()), Standing(DuplicateFailure(g)));
    label Duplicate:
    if g.penaltyBlocks && g.penalty { tally.Fail(Reason(PenaltyActive, "penalty")); }
    assert tally.Result() == Both(old@Duplicate(tally.Result()), Standing(PenaltyFailure(g)));
    tally.AppendAcceptanceConstraints(g.constraints, overrides, Applying);
    r := tally.Result();
  }

  method EvaluateOfferDeadline(now: int, deadline: Option<int>, overrides: seq<GateOverride>) returns (r: GateResult)
    ensures r == OfferDeadlineResult(now, deadline, overrides)
  {
    var tally := new Tally();
    tally.AppendOverrideDecision(DeadlineFailure(now, deadline, "offer_acceptance_deadline"), OfferDeadline, overrides);
    r := tally.Result();
  }

  method EvaluateApplicationWindow(now: int, deadline: Option<int>, allowedAfter: bool, domain: RuleDomain,
                                   overrides: seq<GateOverride>)
    returns (r: GateResult)
    ensures r == WindowResult(now, deadline, allowedAfter, domain, overrides)
  {
    var failure := if deadline.Some? && !allowedAfter && now >= deadline.value
                   then Some(Reason(WindowClosed, "application_deadline")) else None;
    var tally := new Tally();
    tally.AppendOverrideDecision(failure, domain, overrides);
    r := tally.Result();
  }

  method EvaluateCycleRegistrationWindow(now: int, opens: Option<int>, closes: Option<int>,
                                         overrides: seq<GateOverride>)
    returns (r: GateResult)
    ensures r == RegistrationResult(now, opens, closes, overrides)
  {
    var failure := if (opens.Some? && now < opens.value) || (closes.Some? && now >= closes.value)
                   then Some(Reason(RegistrationClosed, "cycle_id")) else None;
    var tally := new Tally();
    tally.AppendOverrideDecision(failure, CycleRegistrationWindow, overrides);
    r := tally.Result();
  }

  method EvaluateCycleJoinRule(shortfalls: seq<Reason>, overrides: seq<GateOverride>) returns (r: GateResult)
    ensures r == JoinRuleResult(shortfalls, overrides)
  {
    var tally := new Tally();
    tally.failures := shortfalls;
    if tally.failures != [] {
      var original := tally.failures;
      tally.failures := [];
      var selected := SelectedOverride(CycleJoinRule, overrides);
      if selected.None? {
        tally.failures := original;
      } else if !selected.value.allow {
        tally.failures :=
            [Reason(BlockedByOverride, if original[0].path == "" then "cycle_join_rule" else original[0].path)];
        tally.applied := [selected.value.id];
      } else {
        tally.applied := [selected.value.id];
      }
    } else {
      tally.AppendOverrideDecision(None, CycleJoinRule, overrides);
    }
    r := tally.Result();
  }
}
