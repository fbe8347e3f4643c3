/**
 One student's applications, offers and memberships, moved by gated applications, offers,
 answers, pipeline steps, terminations and membership exits.
 */
module Lifecycle {
  import opened Common
  import opened Domain
  import opened Transitions
  import opened Gates
  import opened GateLaws
  import opened Cascade
  import opened Memberships

  /** An offer row; `credits` are the domains of the overrides its acceptance was recorded with. */
  datatype OfferRow = OfferRow(application: Id, response: Option<Response>, terminated: bool, credits: set<RuleDomain>)

  type LiveStatus = s: ApplicationStatus | IsLive(s) witness InProgress

  /** `cascades` is the history of acceptances: by accepted offer, what each application it moved was before. */
  datatype State = State(apps: Apps, offers: map<Id, OfferRow>, memberships: map<Id, MembershipStatus>,
                         cascades: map<Id, map<Id, LiveStatus>>)

  const EMPTY := State(map[], map[], map[], map[])

  /** Per cycle, the most offers that may be accepted; a cycle without an entry has no cap. */
  type Caps = map<Id, int>

  // ---------------------------------------------------------------- derived facts

  /** The accepted, unterminated offers. */
  function Held(s: State): set<Id> {
    set o | o in s.offers && s.offers[o].response == Some(AcceptedOffer) && !s.offers[o].terminated
  }

  predicate IsHeldIn(s: State, o: Id, cycle: Id) {
    o in Held(s) && s.offers[o].application in s.apps && s.apps[s.offers[o].application].cycle == cycle
  }

  predicate IsHeldFor(s: State, o: Id, role: Role) {
    o in Held(s) && s.offers[o].application in s.apps && s.apps[s.offers[o].application].role == role
  }

  function HeldIn(s: State, cycle: Id): set<Id> {
    set o | o in Held(s) && IsHeldIn(s, o, cycle)
  }

  function HeldPlacements(s: State): set<Id> {
    set o | o in Held(s) && IsHeldFor(s, o, Placement)
  }

  function HeldInternships(s: State, cycle: Id): set<Id> {
    set o | o in Held(s) && IsHeldIn(s, o, cycle) && IsHeldFor(s, o, Internship)
  }

  function ConstraintsOn(s: State, caps: Caps, role: Role, cycle: Id, kind: CycleKind): Constraints {
    Constraints(role, kind, HeldPlacements(s) != {}, HeldInternships(s, cycle) != {},
                if cycle in caps then Some(caps[cycle]) else None, |HeldIn(s, cycle)|)
  }

  function MembershipIn(s: State, cycle: Id): MembershipStatus {
    if cycle in s.memberships then s.memberships[cycle] else Pending
  }

  /** The domains of the allowances an evaluation applied. */
  function Credits(overrides: seq<GateOverride>, applied: seq<Id>): set<RuleDomain> {
    set o | o in overrides && o.allow && o.id in applied :: o.domain
  }

  // ---------------------------------------------------------------- events

  /**
   A termination restores the chosen applications, each with the id of its fresh offer if it needs one;
   `blocked` marks those with another live application for the same job. A reinstatement is refused for
   such a duplicate, a cancelled job or a round of another job.
   */
  datatype Event =
    | ApplyTo(app: Id, role: Role, cycle: Id, kind: CycleKind, context: GateContext, overrides: seq<GateOverride>)
    | Extend(app: Id, name: TransitionName, offer: Id)
    | AcceptOffer(app: Id, actor: TransitionActor, expiry: OfferExpiry, now: int, deadline: Option<int>,
                  overrides: seq<GateOverride>)
    | DeclineOffer(app: Id, actor: TransitionActor, expiry: OfferExpiry)
    | Pipeline(app: Id, name: TransitionName, target: ApplicationStatus, actor: TransitionActor)
    | Terminate(app: Id, restore: map<Id, Id>, blocked: set<Id>)
    | Member(cycle: Id, step: MembershipName, actor: TransitionActor, hasReason: bool)
    | Reinstate(app: Id, refused: bool)

  predicate CanMove(s: State, app: Id, name: TransitionName, target: ApplicationStatus, actor: TransitionActor,
                    expiry: OfferExpiry) {
    && app in s.apps
    && Decision(name, Move(Some(s.apps[app].status), target, actor, TransitionContext(s.apps[app].kind, expiry), false),
                true) == Allowed
  }

  /** The application's current offer, while it awaits an answer. */
  predicate HasOpenOffer(s: State, app: Id) {
    && app in s.apps && s.apps[app].offer.Some?
    && var o := s.apps[app].offer.value;
    && o in s.offers && s.offers[o].response.None? && !s.offers[o].terminated
  }

  /** What acceptance is judged by: students also by the offer's deadline, the system also by membership. */
  function AcceptanceResult(s: State, caps: Caps, e: Event): GateResult
    requires e.AcceptOffer? && e.app in s.apps
  {
    var a := s.apps[e.app];
    var c := ConstraintsOn(s, caps, a.role, a.cycle, a.kind);
    match e.actor
    case Student =>
      Both(OfferDeadlineResult(e.now, e.deadline, e.overrides), ConstraintsResult(c, e.overrides, Accepting))
    case Staff => ConstraintsResult(c, e.overrides, Accepting)
    case System => ExpiryResult(MembershipIn(s, a.cycle).Active?, c, e.overrides)
  }

  function Applied(s: State, e: Event): State
    requires e.ApplyTo?
  {
    s.(apps := s.apps[e.app := App(e.app, InProgress, e.role, e.cycle, e.kind, None, None)])
  }

  function Extended(s: State, app: Id, offer: Id): State
    requires app in s.apps
  {
    s.(apps := s.apps[app := s.apps[app].(status := Offered, offer := Some(offer))],
       offers := s.offers[offer := OfferRow(app, None, false, {})])
  }

  function WithStatus(s: State, app: Id, status: ApplicationStatus): State
    requires app in s.apps
  {
    s.(apps := s.apps[app := s.apps[app].(status := status)])
  }

  function Answered(s: State, app: Id, response: Response, credits: set<RuleDomain>): State
    requires app in s.apps && s.apps[app].offer.Some? && s.apps[app].offer.value in s.offers
  {
    var o := s.apps[app].offer.value;
    WithStatus(s, app, if response.AcceptedOffer? then Accepted else Declined)
      .(offers := s.offers[o := s.offers[o].(response := Some(response), credits := credits)])
  }

  /** The acceptance of this application declines that offer on its way. */
  predicate CascadeDeclines(s: State, accepted: App, o: Id) {
    && o in s.offers && s.offers[o].application in s.apps
    && var other := s.apps[s.offers[o].application];
    && Moves(accepted, other) && other.status.Offered? && other.offer == Some(o)
  }

  /** What each application the acceptance moves was before it. */
  function MovedBy(s: State, accepted: App): map<Id, LiveStatus> {
    map id | id in s.apps && Moves(accepted, s.apps[id]) :: s.apps[id].status
  }

  /** Everything the acceptance cascade changes, its events included. */
  function Cascaded(s: State, accepted: App, offer: Id): State {
    s.(apps := map id | id in s.apps :: Settled(accepted, s.apps[id]),
       offers := map o | o in s.offers ::
         if CascadeDeclines(s, accepted, o) then s.offers[o].(response := Some(DeclinedOffer)) else s.offers[o],
       cascades := s.cascades[offer := MovedBy(s, accepted)])
  }

  function OfferEnded(s: State, app: Id, status: ApplicationStatus): State
    requires app in s.apps && s.apps[app].offer.Some? && s.apps[app].offer.value in s.offers
  {
    var o := s.apps[app].offer.value;
    WithStatus(s, app, status).(offers := s.offers[o := s.offers[o].(terminated := true)])
  }

  /** The application is still where the acceptance of this offer put it. */
  predicate IsCandidate(s: State, offer: Id, id: Id) {
    && offer in s.cascades && id in s.cascades[offer] && id in s.apps
    && s.apps[id].status == MovedStatus(s.cascades[offer][id])
  }

  /** Only candidates are restored, and every fresh offer has an id of its own. */
  predicate Restorable(s: State, offer: Id, restore: map<Id, Id>) {
    && (forall id | id in restore :: IsCandidate(s, offer, id) && restore[id] !in s.offers)
    && (forall a, b | a in restore && b in restore && a != b :: restore[a] != restore[b])
  }

  function PutBack(a: App, was: LiveStatus, newOffer: Id): App {
    if was.Offered? then a.(status := Offered, offer := Some(newOffer)) else a.(status := was)
  }

  /** The chosen applications are what they were before the acceptance, those that were offered with a fresh offer. */
  function Restored(s: State, offer: Id, restore: map<Id, Id>): State
    requires Restorable(s, offer, restore)
  {
    s.(apps := map id | id in s.apps ::
         if id in restore then PutBack(s.apps[id], s.cascades[offer][id], restore[id]) else s.apps[id],
       offers := s.offers + map id | id in restore && s.cascades[offer][id].Offered? ::
         restore[id] := OfferRow(id, None, false, {}))
  }

  lemma EndingKeepsCandidates(s: State, app: Id, restore: map<Id, Id>)
    requires app in s.apps && s.apps[app].offer.Some? && s.apps[app].offer.value in s.offers
    requires s.apps[app].status.Offered? || s.apps[app].status.Accepted?
    requires Restorable(s, s.apps[app].offer.value, restore)
    ensures Restorable(OfferEnded(s, app, OfferTerminated), s.apps[app].offer.value, restore)
  {
  }

  function Terminated(s: State, app: Id, restore: map<Id, Id>): State
    requires app in s.apps && s.apps[app].offer.Some? && s.apps[app].offer.value in s.offers
    requires s.apps[app].status.Offered? || s.apps[app].status.Accepted?
    requires Restorable(s, s.apps[app].offer.value, restore)
  {
    EndingKeepsCandidates(s, app, restore);
    Restored(OfferEnded(s, app, OfferTerminated), s.apps[app].offer.value, restore)
  }

  function Exited(s: State, cycle: Id): State {
    s.(apps := map id | id in s.apps ::
         if s.apps[id].cycle == cycle && InFlight(s.apps[id].status) then s.apps[id].(status := AutoWithdrawn)
         else s.apps[id])
  }

  function MemberMoved(s: State, e: Event): State
    requires e.Member?
  {
    var row := MembershipRow(e.step);
    var moved := s.(memberships := s.memberships[e.cycle := row.target]);
    if row.cascades then Exited(moved, e.cycle) else moved
  }

  predicate IsPipeline(name: TransitionName) {
    name.Advance? || name.AdvanceFinal? || name.Eliminate? || name.BulkReject? || name.CancelJob? || name.Withdraw?
  }

  /** The current offer of a declined application was answered, that of a terminated one ended. */
  predicate CanReExtend(s: State, app: Id) {
    && app in s.apps && s.apps[app].offer.Some? && s.apps[app].offer.value in s.offers
    && var o := s.offers[s.apps[app].offer.value];
    && (s.apps[app].status.Declined? ==> o.response.Some? && !o.terminated)
    && (s.apps[app].status.OfferTerminated? ==> o.terminated)
  }

  /** The facts an application's gates are evaluated on: membership and standing as they are, the rest as given. */
  function FactsOn(s: State, caps: Caps, e: Event): GateContext
    requires e.ApplyTo?
  {
    e.context.(membership := MembershipIn(s, e.cycle), constraints := ConstraintsOn(s, caps, e.role, e.cycle, e.kind))
  }

  /** The event can happen now: its guards hold. */
  predicate Enabled(s: State, caps: Caps, e: Event) {
    match e
    case ApplyTo(app, role, cycle, kind, context, overrides) =>
      && app !in s.apps
      && GatesResult(FactsOn(s, caps, e), overrides).Passes()
    case Extend(app, name, offer) =>
      && (name.ExtendOffer? || (name.ReExtend? && CanReExtend(s, app)))
      && offer !in s.offers
      && CanMove(s, app, name, Offered, Staff, AutoDecline)
    case AcceptOffer(app, actor, expiry, _, _, _) =>
      CanMove(s, app, Accept, Accepted, actor, expiry) && HasOpenOffer(s, app) && AcceptanceResult(s, caps, e).Passes()
    case DeclineOffer(app, actor, expiry) => CanMove(s, app, Decline, Declined, actor, expiry) && HasOpenOffer(s, app)
    case Pipeline(app, name, target, actor) => IsPipeline(name) && CanMove(s, app, name, target, actor, AutoDecline)
    case Terminate(app, restore, blocked) =>
      && CanMove(s, app, TerminateOffer, OfferTerminated, Staff, AutoDecline)
      && s.apps[app].offer.Some?
      && Restorable(s, s.apps[app].offer.value, restore)
      && forall id | id in restore && id in blocked :: s.cascades[s.apps[app].offer.value][id].Offered?
    case Member(cycle, step, actor, hasReason) =>
      DecideMembership(step, if cycle in s.memberships then Some(s.memberships[cycle]) else None,
                       actor, hasReason).Allowed?
    case Reinstate(app, refused) =>
      && CanMove(s, app, TransitionName.Reinstate, InProgress, Staff, AutoDecline)
      && MembershipIn(s, s.apps[app].cycle).Active?
      && !refused
  }

  /** The application keeps the offer it points to consistent with its own status. */
  predicate Consistent(s: State) {
    && Keyed(s.apps)
    && (forall o | o in s.offers :: s.offers[o].application in s.apps)
    && (forall id | id in s.apps && (s.apps[id].status.Offered? || s.apps[id].status.Accepted?) :: OfferFits(s, id))
    && forall o | o in Held(s) :: var a := s.apps[s.offers[o].application]; a.status.Accepted? && a.offer == Some(o)
  }

  predicate OfferFits(s: State, id: Id)
    requires id in s.apps
  {
    && s.apps[id].offer.Some?
    && var o := s.apps[id].offer.value;
    && o in s.offers && s.offers[o].application == id && !s.offers[o].terminated
    && s.offers[o].response == if s.apps[id].status.Accepted? then Some(AcceptedOffer) else None
  }

  function Next(s: State, caps: Caps, e: Event): State
    requires Consistent(s)
  {
    if !Enabled(s, caps, e) then s
    else
      match e
      case ApplyTo(_, _, _, _, _, _) => Applied(s, e)
      case Extend(app, _, offer) => Extended(s, app, offer)
      case AcceptOffer(app, _, _, _, _, overrides) =>
        Answered(Cascaded(s, s.apps[app], s.apps[app].offer.value), app, AcceptedOffer,
                 Credits(overrides, AcceptanceResult(s, caps, e).applied))
      case DeclineOffer(app, _, _) => Answered(s, app, DeclinedOffer, {})
      case Pipeline(app, _, target, _) =>
        if s.apps[app].status.Offered? then OfferEnded(s, app, target) else WithStatus(s, app, target)
      case Terminate(app, restore, _) =>
        Terminated(s, app, restore)
      case Member(_, _, _, _) => MemberMoved(s, e)
      case Reinstate(app, _) => WithStatus(s, app, InProgress)
  }
}
