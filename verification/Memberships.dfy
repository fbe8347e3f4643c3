/** Cycle memberships: the status table and the exit cascade (backend/app/domain/memberships.py). */
module Memberships {
  import opened Common
  import opened Sorting
  import opened Domain
  import opened Transitions
  import P = Plans

  datatype MembershipName = Join | JoinActive | Approve | RejectRequest | Rerequest | RerequestActive | Leave
    | RemoveMember | Restore

  datatype MembershipTransition = MembershipTransition(name: MembershipName, origins: set<Option<MembershipStatus>>,
                                                       target: MembershipStatus, actor: TransitionActor,
                                                       requiresReason: bool, cascades: bool)

  function MembershipRow(name: MembershipName): MembershipTransition {
    match name
    case Join => MembershipTransition(name, {None}, Pending, Student, false, false)
    case JoinActive => MembershipTransition(name, {None}, Active, Student, false, false)
    case Approve => MembershipTransition(name, {Some(Pending)}, Active, Staff, false, false)
    case RejectRequest => MembershipTransition(name, {Some(Pending)}, Refused, Staff, true, false)
    case Rerequest => MembershipTransition(name, {Some(Refused), Some(LeftCycle)}, Pending, Student, false, false)
    case RerequestActive => MembershipTransition(name, {Some(Refused), Some(LeftCycle)}, Active, Student, false, false)
    case Leave => MembershipTransition(name, {Some(Pending), Some(Active)}, LeftCycle, Student, false, true)
    case RemoveMember => MembershipTransition(name, {Some(Active)}, Removed, Staff, true, true)
    case Restore => MembershipTransition(name, {Some(LeftCycle), Some(Removed)}, Active, Staff, false, false)
  }

  function DecideMembership(name: MembershipName, origin: Option<MembershipStatus>, actor: TransitionActor,
                            hasReason: bool): Verdict {
    var row := MembershipRow(name);
    if origin !in row.origins || actor != row.actor then NotLegal
    else if row.requiresReason && !hasReason then ReasonRequired
    else Allowed
  }

  /** A row that takes a membership out of active cascades; no other row leaves active. */
  lemma LeavingActiveCascades(name: MembershipName, actor: TransitionActor, hasReason: bool)
    requires DecideMembership(name, Some(Active), actor, hasReason).Allowed?
    ensures MembershipRow(name).cascades && !MembershipRow(name).target.Active?
  {
  }

  // ---------------------------------------------------------------- the exit cascade

  datatype InCycle = InCycle(id: Id, status: ApplicationStatus, round: Option<Id>)

  datatype ExitTrigger = MembershipExit | Archival

  datatype ExitAction = ExitAction(application: Id, fromStatus: ApplicationStatus, toStatus: ApplicationStatus,
                                   fromRound: Option<Id>, eventType: P.EventType, trigger: ExitTrigger)

  function ApplicationKey(a: InCycle): Key {
    (a.id, 0)
  }

  predicate InFlight(s: ApplicationStatus) {
    s.InProgress? || s.PendingOffer?
  }

  function Withdrawal(a: InCycle, trigger: ExitTrigger): ExitAction {
    ExitAction(a.id, a.status, AutoWithdrawn, a.round, P.AutoWithdrawn, trigger)
  }

  function ExitActions(ordered: seq<InCycle>, trigger: ExitTrigger): seq<ExitAction> {
    if ordered == [] then []
    else
      var first := if InFlight(ordered[0].status) then [Withdrawal(ordered[0], trigger)] else [];
      first + ExitActions(ordered[1..], trigger)
  }

  function ExitCascade(applications: seq<InCycle>, trigger: ExitTrigger): seq<ExitAction> {
    ExitActions(Sorted(ApplicationKey, applications), trigger)
  }

  lemma {:induction false} ExitActionsAre(ordered: seq<InCycle>, trigger: ExitTrigger, x: ExitAction)
    ensures x in ExitActions(ordered, trigger)
        <==> exists a :: a in ordered && InFlight(a.status) && x == Withdrawal(a, trigger)
  {
    if ordered != [] {
      ExitActionsAre(ordered[1..], trigger, x);
      assert ordered == [ordered[0]] + ordered[1..];
    }
  }

  /** Exactly the in-flight applications withdraw, each remembering its status and round. */
  lemma ExitCascadeContents(applications: seq<InCycle>, trigger: ExitTrigger, x: ExitAction)
    ensures x in ExitCascade(applications, trigger) <==>
              exists a :: a in applications && InFlight(a.status) && x == Withdrawal(a, trigger)
  {
    SortedContents(ApplicationKey, applications);
    ExitActionsAre(Sorted(ApplicationKey, applications), trigger, x);
  }

  /** The actions do not depend on the order the applications were read in. */
  lemma ExitCascadeIgnoresOrder(applications: seq<InCycle>, again: seq<InCycle>, trigger: ExitTrigger)
    requires multiset(applications) == multiset(again)
    requires forall i, j | 0 <= i < j < |applications| :: applications[i].id != applications[j].id
    ensures ExitCascade(applications, trigger) == ExitCascade(again, trigger)
  {
    assert KeysDiffer(ApplicationKey, applications);
    SortedIgnoresOrder(ApplicationKey, applications, again);
  }

  ghost predicate InIdOrder(actions: seq<ExitAction>) {
    forall i, j | 0 <= i < j < |actions| :: actions[i].application < actions[j].application
  }

  lemma {:induction false} ExitActionsAscend(ordered: seq<InCycle>, trigger: ExitTrigger)
    requires forall i, j | 0 <= i < j < |ordered| :: ordered[i].id < ordered[j].id
    ensures InIdOrder(ExitActions(ordered, trigger))
    ensures forall x | x in ExitActions(ordered, trigger) :: ordered != [] && ordered[0].id <= x.application
  {
    if ordered != [] {
      ExitActionsAscend(ordered[1..], trigger);
      var later := ExitActions(ordered[1..], trigger);
      forall x | x in later ensures ordered[0].id < x.application {
        assert ordered[1..] != [] && ordered[1..][0] == ordered[1];
      }
    }
  }

  /** The actions come in the order of their applications' ids, one for each. */
  lemma ExitCascadeOrder(applications: seq<InCycle>, trigger: ExitTrigger)
    requires forall i, j | 0 <= i < j < |applications| :: applications[i].id != applications[j].id
    ensures InIdOrder(ExitCascade(applications, trigger))
  {
    var ordered := Sorted(ApplicationKey, applications);
    assert KeysDiffer(ApplicationKey, applications);
    SortedContents(ApplicationKey, applications);
    SortedAscends(ApplicationKey, applications);
    KeysDifferSameContents(ApplicationKey, applications, ordered);
    forall i, j | 0 <= i < j < |ordered| ensures ordered[i].id < ordered[j].id {
      assert ApplicationKey(ordered[i]) != ApplicationKey(ordered[j]);
      assert AtMost(ApplicationKey(ordered[i]), ApplicationKey(ordered[j]));
    }
    ExitActionsAscend(ordered, trigger);
  }

  /** Each action is the table's system withdrawal, whatever the cycle. */
  lemma ExitCascadeIsLegal(applications: seq<InCycle>, trigger: ExitTrigger, x: ExitAction, context: TransitionContext)
    requires x in ExitCascade(applications, trigger)
    ensures RowAllows(Row(AutoWithdraw), Move(Some(x.fromStatus), x.toStatus, System, context, false))
  {
    ExitCascadeContents(applications, trigger, x);
  }
}
