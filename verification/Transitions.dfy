/** The application transition table and its legality check (backend/app/domain/transitions.py:25-318). */
module Transitions {
  import opened Common
  import opened Domain

  datatype TransitionActor = Student | Staff | System

  datatype TransitionName =
    | Apply | Advance | AdvanceFinal | Eliminate | BulkReject | CancelJob | ExtendOffer | Accept | Decline | Withdraw
    | AutoWithdraw | TerminateOffer | Reinstate | DirectOffer | ReExtend | Force

  datatype Target = To(status: ApplicationStatus) | AnyOther

  datatype TransitionSpec = TransitionSpec(name: TransitionName, origins: set<Option<ApplicationStatus>>,
                                           target: Target, actors: set<TransitionActor>, requiresReason: bool)

  datatype TransitionContext = TransitionContext(kind: CycleKind, expiry: OfferExpiry)

  /** The table, in its order. */
  const NAMES: seq<TransitionName> := [
    Apply, Advance, AdvanceFinal, Eliminate, BulkReject, CancelJob, ExtendOffer, Accept, Decline, Withdraw,
    AutoWithdraw, TerminateOffer, Reinstate, DirectOffer, ReExtend, Force]

  function Row(name: TransitionName): TransitionSpec {
    match name
    case Apply => TransitionSpec(name, {None}, To(InProgress), {Student}, false)
    case Advance => TransitionSpec(name, {Some(InProgress)}, To(InProgress), {Staff}, false)
    case AdvanceFinal => TransitionSpec(name, {Some(InProgress)}, To(PendingOffer), {Staff}, false)
    case Eliminate => TransitionSpec(name, {Some(InProgress)}, To(Rejected), {Staff}, true)
    case BulkReject => TransitionSpec(name, {Some(InProgress), Some(PendingOffer)}, To(Rejected), {Staff}, true)
    case CancelJob =>
      TransitionSpec(name, {Some(InProgress), Some(PendingOffer), Some(Offered)}, To(Rejected), {Staff}, true)
    case ExtendOffer => TransitionSpec(name, {Some(InProgress), Some(PendingOffer)}, To(Offered), {Staff}, false)
    case Accept => TransitionSpec(name, {Some(Offered)}, To(Accepted), {Student, Staff, System}, false)
    case Decline => TransitionSpec(name, {Some(Offered)}, To(Declined), {Student, Staff, System}, false)
    case Withdraw => TransitionSpec(name, {Some(InProgress)}, To(Withdrawn), {Student}, false)
    case AutoWithdraw =>
      TransitionSpec(name, {Some(InProgress), Some(PendingOffer)}, To(AutoWithdrawn), {System}, false)
    case TerminateOffer => TransitionSpec(name, {Some(Offered), Some(Accepted)}, To(OfferTerminated), {Staff}, true)
    case Reinstate =>
      TransitionSpec(name, {Some(Rejected), Some(Withdrawn), Some(AutoWithdrawn)}, To(InProgress), {Staff}, true)
    case DirectOffer =>
      TransitionSpec(name, {Some(InProgress), Some(PendingOffer), Some(Declined), Some(Rejected), Some(Withdrawn),
                            Some(AutoWithdrawn), Some(OfferTerminated)}, To(Offered), {Staff}, false)
    case ReExtend => TransitionSpec(name, {Some(Declined), Some(OfferTerminated)}, To(Offered), {Staff}, false)
    case Force =>
      TransitionSpec(name, {Some(InProgress), Some(PendingOffer), Some(Offered), Some(Accepted), Some(Declined),
                            Some(Rejected), Some(Withdrawn), Some(AutoWithdrawn), Some(OfferTerminated)},
                     AnyOther, {Staff}, true)
  }

  lemma EveryNameIsListed(name: TransitionName)
    ensures name in NAMES
  {
    match name
    case Apply => assert NAMES[0] == name;
    case Advance => assert NAMES[1] == name;
    case AdvanceFinal => assert NAMES[2] == name;
    case Eliminate => assert NAMES[3] == name;
    case BulkReject => assert NAMES[4] == name;
    case CancelJob => assert NAMES[5] == name;
    case ExtendOffer => assert NAMES[6] == name;
    case Accept => assert NAMES[7] == name;
    case Decline => assert NAMES[8] == name;
    case Withdraw => assert NAMES[9] == name;
    case AutoWithdraw => assert NAMES[10] == name;
    case TerminateOffer => assert NAMES[11] == name;
    case Reinstate => assert NAMES[12] == name;
    case DirectOffer => assert NAMES[13] == name;
    case ReExtend => assert NAMES[14] == name;
    case Force => assert NAMES[15] == name;
  }

  predicate ActorContextAllows(name: TransitionName, actor: TransitionActor, context: TransitionContext) {
    match name
    case Accept =>
      (match actor
       case Student => !context.kind.OpenCycle?
       case Staff => context.kind.OpenCycle?
       case System => !context.kind.OpenCycle? && context.expiry.AutoAccept?)
    case Decline => if actor.Staff? then context.kind.OpenCycle? else !context.kind.OpenCycle?
    case _ => true
  }

  /**
   A requested move: from where (None: no application yet), to where, by whom, and whether forcing is on the table.
   */
  datatype Move = Move(origin: Option<ApplicationStatus>, target: ApplicationStatus, actor: TransitionActor,
                       context: TransitionContext, includeForce: bool)

  predicate RowAllows(t: TransitionSpec, m: Move) {
    && !(t.name.Force? && !m.includeForce)
    && m.origin in t.origins
    && (match t.target
        case To(s) => s == m.target
        case AnyOther => m.origin.Some? && m.origin.value != m.target)
    && m.actor in t.actors
    && ActorContextAllows(t.name, m.actor, m.context)
  }

  /** The listed names whose rows allow the move, in the table's order. */
  function Allowing(names: seq<TransitionName>, m: Move): seq<TransitionName> {
    if names == [] then []
    else
      var last := names[|names| - 1];
      Allowing(names[..|names| - 1], m) + if RowAllows(Row(last), m) then [last] else []
  }

  /** The loop of `legal_transition_names` over these rows. */
  method NamesOfRows(rows: seq<TransitionName>, m: Move) returns (names: seq<TransitionName>)
    ensures names == Allowing(rows, m)
  {
    names := [];
    for i := 0 to |rows|
      invariant names == Allowing(rows[..i], m)
    {
      var t := Row(rows[i]);
      assert rows[..i + 1][..i] == rows[..i];
      if t.name.Force? && !m.includeForce { continue; }
      var targetMatches := if t.target.To? then t.target.status == m.target
                           else m.origin.Some? && m.origin.value != m.target;
      var allowed := m.origin in t.origins && targetMatches && m.actor in t.actors
                     && ActorContextAllows(t.name, m.actor, m.context);
      assert allowed == RowAllows(t, m);
      if allowed {
        names := names + [t.name];
      }
    }
    assert rows[..|rows|] == rows;
  }

  method LegalTransitionNames(m: Move) returns (names: seq<TransitionName>)
    ensures names == Allowing(NAMES, m)
  {
    names := NamesOfRows(NAMES, m);
  }

  lemma {:induction false} AllowingAre(names: seq<TransitionName>, m: Move, name: TransitionName)
    ensures name in Allowing(names, m) <==> name in names && RowAllows(Row(name), m)
  {
    if names != [] {
      AllowingAre(names[..|names| - 1], m, name);
      assert names == names[..|names| - 1] + [names[|names| - 1]];
    }
  }

  /** A legal name is one whose own row allows the move. */
  lemma LegalIffRowAllows(m: Move, name: TransitionName)
    ensures name in Allowing(NAMES, m) <==> RowAllows(Row(name), m)
  {
    EveryNameIsListed(name);
    AllowingAre(NAMES, m, name);
  }

  /** These places in the list rise, and the names are those found there. */
  ghost predicate PickedInOrder(from: seq<TransitionName>, picked: seq<TransitionName>, places: seq<nat>) {
    && |picked| == |places|
    && (forall i, j | 0 <= i < j < |places| :: places[i] < places[j])
    && forall i | 0 <= i < |places| :: places[i] < |from| && picked[i] == from[places[i]]
  }

  lemma {:induction false} AllowingInOrder(names: seq<TransitionName>, m: Move) returns (places: seq<nat>)
    ensures PickedInOrder(names, Allowing(names, m), places)
  {
    places := [];
    if names != [] {
      var before := names[..|names| - 1];
      places := AllowingInOrder(before, m);
      if RowAllows(Row(names[|names| - 1]), m) { places := places + [|names| - 1]; }
    }
  }

  /** The legal names come in the table's order, each once. */
  lemma LegalNamesInOrder(m: Move) returns (places: seq<nat>)
    ensures PickedInOrder(NAMES, Allowing(NAMES, m), places)
  {
    places := AllowingInOrder(NAMES, m);
  }

  datatype Verdict = Allowed | NotLegal | ReasonRequired

  /** A named move is allowed exactly when its own row allows it and a required reason was given. */
  function Decision(name: TransitionName, m: Move, hasReason: bool): Verdict {
    if !RowAllows(Row(name), m) then NotLegal
    else if Row(name).requiresReason && !hasReason then ReasonRequired
    else Allowed
  }

  /** `decide_transition`: forcing is considered only when it is what was asked for. */
  method DecideTransition(name: TransitionName, m: Move, hasReason: bool) returns (v: Verdict)
    ensures v == Decision(name, m.(includeForce := name.Force?), hasReason)
  {
    var names := LegalTransitionNames(m.(includeForce := name.Force?));
    LegalIffRowAllows(m.(includeForce := name.Force?), name);
    if name !in names { return NotLegal; }
    if Row(name).requiresReason && !hasReason { return ReasonRequired; }
    return Allowed;
  }

  // ---------------------------------------------------------------- what the table promises

  /** Some row other than forcing allows the move. */
  ghost predicate IsAllowed(origin: Option<ApplicationStatus>, target: ApplicationStatus, actor: TransitionActor,
                            context: TransitionContext, hasReason: bool)
  {
    var m := Move(origin, target, actor, context, false);
    exists name: TransitionName :: !name.Force? && Decision(name, m, hasReason) == Allowed
  }

  /** Who answers an offer: the student, or for open cycles the staff; the system only where the student does. */
  predicate MayAnswer(actor: TransitionActor, kind: CycleKind) {
    if kind.OpenCycle? then actor.Staff? else actor.Student? || actor.System?
  }

  /** The moves the behaviour allows, by where they lead: from where, by whom, and whether they need a reason. */
  predicate IsSanctioned(origin: Option<ApplicationStatus>, target: ApplicationStatus, actor: TransitionActor,
                         context: TransitionContext, hasReason: bool)
  {
    match target
    case InProgress =>
      || (origin == None && actor.Student?)
      || (origin == Some(InProgress) && actor.Staff?)
      || (origin in {Some(Rejected), Some(Withdrawn), Some(AutoWithdrawn)} && actor.Staff? && hasReason)
    case PendingOffer => origin == Some(InProgress) && actor.Staff?
    case Offered => origin.Some? && !origin.value.Offered? && !origin.value.Accepted? && actor.Staff?
    case Accepted =>
      && origin == Some(Offered) && MayAnswer(actor, context.kind)
      && (actor.System? ==> context.expiry.AutoAccept?)
    case Declined => origin == Some(Offered) && MayAnswer(actor, context.kind)
    case Rejected => origin.Some? && IsLive(origin.value) && actor.Staff? && hasReason
    case Withdrawn => origin == Some(InProgress) && actor.Student?
    case AutoWithdrawn => origin in {Some(InProgress), Some(PendingOffer)} && actor.System?
    case OfferTerminated => origin in {Some(Offered), Some(ApplicationStatus.Accepted)} && actor.Staff? && hasReason
  }

  /** The row that carries out a sanctioned move. */
  function CarrierOf(origin: Option<ApplicationStatus>, target: ApplicationStatus): TransitionName {
    match target
    case InProgress => if origin.None? then Apply else if origin.value.InProgress? then Advance else Reinstate
    case PendingOffer => AdvanceFinal
    case Offered => DirectOffer
    case Accepted => Accept
    case Declined => Decline
    case Rejected => CancelJob
    case Withdrawn => Withdraw
    case AutoWithdrawn => AutoWithdraw
    case OfferTerminated => TerminateOffer
  }

  /** Without forcing the table allows exactly the sanctioned moves. */
  lemma MovesAreSanctioned(origin: Option<ApplicationStatus>, target: ApplicationStatus, actor: TransitionActor,
                           context: TransitionContext, hasReason: bool)
    ensures IsAllowed(origin, target, actor, context, hasReason)
       <==> IsSanctioned(origin, target, actor, context, hasReason)
  {
    var m := Move(origin, target, actor, context, false);
    if IsSanctioned(origin, target, actor, context, hasReason) {
      assert Decision(CarrierOf(origin, target), m, hasReason) == Allowed;
    }
  }

  /** Rejections can be reached by several rows, which differ in where they may start ... */
  lemma RejectionsStartWhere(origin: Option<ApplicationStatus>, context: TransitionContext)
    ensures var can := (name, target) => Decision(name, Move(origin, target, Staff, context, false), true) == Allowed;
            && (can(Eliminate, Rejected) <==> origin == Some(InProgress))
            && (can(BulkReject, Rejected) <==> origin in {Some(InProgress), Some(PendingOffer)})
            && (can(CancelJob, Rejected) <==> origin.Some? && IsLive(origin.value))
  {
  }

  /** ... and so can offers. */
  lemma OffersStartWhere(origin: Option<ApplicationStatus>, context: TransitionContext)
    ensures var can := (name, target) => Decision(name, Move(origin, target, Staff, context, false), true) == Allowed;
            && (can(ExtendOffer, Offered) <==> origin in {Some(InProgress), Some(PendingOffer)})
            && (can(ReExtend, Offered) <==> origin in {Some(ApplicationStatus.Declined), Some(OfferTerminated)})
            && (can(DirectOffer, Offered) <==>
                  origin.Some? && !origin.value.Offered? && !origin.value.Accepted?)
  {
  }

  /** A reason is asked for exactly by rejections, terminations, reinstatements and force, and only once legal. */
  lemma ReasonsAskedFor(name: TransitionName, m: Move, hasReason: bool)
    ensures Decision(name, m, hasReason).ReasonRequired? <==>
              && Decision(name, m, true) == Allowed && !hasReason
              && name in {Eliminate, BulkReject, CancelJob, TerminateOffer, Reinstate, Force}
    ensures Decision(name, m, true).NotLegal? <==> Decision(name, m, hasReason).NotLegal?
  {
  }

  /** Forcing takes staff from any status to any other, and is considered only when asked for. */
  lemma ForceReachesAll(m: Move)
    ensures Decision(Force, m, true) == Allowed <==>
              m.includeForce && m.actor.Staff? && m.origin.Some? && m.origin.value != m.target
  {
  }

  /** Without forcing, an application is accepted only from an offer, and leaves accepted only by termination. */
  lemma AcceptedHasOneDoor(m: Move, name: TransitionName)
    requires name in Allowing(NAMES, m) && !name.Force?
    ensures m.target.Accepted? ==> name == Accept && m.origin == Some(Offered)
    ensures m.origin == Some(Accepted) ==> name == TerminateOffer && m.target == OfferTerminated && m.actor == Staff
  {
    LegalIffRowAllows(m, name);
  }

  /** Of the student and the staff exactly one may answer an offer, and the same one accepts and declines. */
  lemma OneHandAnswers(context: TransitionContext)
    ensures var can :=
        (name, target, actor) => Decision(name, Move(Some(Offered), target, actor, context, false), false) == Allowed;
            && can(Accept, ApplicationStatus.Accepted, Student) != can(Accept, ApplicationStatus.Accepted, Staff)
            && can(Accept, ApplicationStatus.Accepted, Student) == can(Decline, Declined, Student)
            && can(Accept, ApplicationStatus.Accepted, Staff) == can(Decline, Declined, Staff)
            && (can(Accept, ApplicationStatus.Accepted, System)
                <==> can(Decline, Declined, System) && context.expiry.AutoAccept?)
  {
  }
}
