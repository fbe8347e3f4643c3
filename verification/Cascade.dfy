/**
 The acceptance cascade and the restoration of what it moved
 (backend/app/domain/transitions.py:321-460).
 */
module Cascade {
  import opened Common
  import opened Sorting
  import opened Domain
  import opened Transitions
  import P = Plans

  /** An application with its current offer, as the loader snapshots it. */
  datatype App = App(id: Id, status: ApplicationStatus, role: Role, cycle: Id, kind: CycleKind, round: Option<Id>,
                     offer: Option<Id>)

  datatype Cause = Cause(acceptanceOffer: Id, acceptedApplication: Id)

  datatype CascadeAction = CascadeAction(application: Id, offer: Option<Id>, fromStatus: ApplicationStatus,
                                         toStatus: ApplicationStatus, fromRound: Option<Id>,
                                         eventType: P.EventType, cause: Cause)

  function IdKey(a: App): Key {
    (a.id, 0)
  }

  /** An open-cycle internship takes nothing else off the table. */
  predicate Exempt(accepted: App) {
    accepted.role.Internship? && accepted.kind.OpenCycle?
  }

  /**
   This application competes with the accepted one: same role - and same cycle, for internships - outside open cycles.
   */
  predicate Competes(accepted: App, other: App) {
    && other.id != accepted.id
    && other.role == accepted.role
    && (accepted.role.Internship? ==> other.cycle == accepted.cycle)
    && !other.kind.OpenCycle?
  }

  function ActionFor(accepted: App, other: App, offer: Id): seq<CascadeAction> {
    if other.id == accepted.id || other.role != accepted.role then []
    else if accepted.role.Internship? && other.cycle != accepted.cycle then []
    else if other.kind.OpenCycle? then []
    else if other.status.Offered? then
      [CascadeAction(other.id, other.offer, other.status, Declined, other.round, P.AutoDeclined,
                     Cause(offer, accepted.id))]
    else if other.status.InProgress? || other.status.PendingOffer? then
      [CascadeAction(other.id, None, other.status, AutoWithdrawn, other.round, P.AutoWithdrawn,
                     Cause(offer, accepted.id))]
    else []
  }

  function ActionsFor(accepted: App, others: seq<App>, offer: Id): seq<CascadeAction> {
    if others == [] then []
    else ActionsFor(accepted, others[..|others| - 1], offer) + ActionFor(accepted, others[|others| - 1], offer)
  }

  function AcceptanceCascade(accepted: App, others: seq<App>, offer: Id): seq<CascadeAction> {
    if Exempt(accepted) then [] else ActionsFor(accepted, Sorted(IdKey, others), offer)
  }

  method ComputeAcceptanceCascade(accepted: App, others: seq<App>, offer: Id) returns (actions: seq<CascadeAction>)
    ensures actions == AcceptanceCascade(accepted, others, offer)
  {
    if accepted.role.Internship? && accepted.kind.OpenCycle? { return []; }
    actions := [];
    var ordered := Sorted(IdKey, others);
    for i := 0 to |ordered|
      invariant actions == ActionsFor(accepted, ordered[..i], offer)
    {
      var other := ordered[i];
      assert ordered[..i + 1][..i] == ordered[..i];
      if other.id == accepted.id || other.role != accepted.role { continue; }
      if accepted.role.Internship? && other.cycle != accepted.cycle { continue; }
      if other.kind.OpenCycle? { continue; }
      var cause := Cause(offer, accepted.id);
      if other.status.Offered? {
        actions := actions
            + [CascadeAction(other.id, other.offer, other.status, Declined, other.round, P.AutoDeclined, cause)];
      } else if other.status.InProgress? || other.status.PendingOffer? {
        actions := actions
            + [CascadeAction(other.id, None, other.status, AutoWithdrawn, other.round, P.AutoWithdrawn, cause)];
      }
    }
    assert ordered[..|ordered|] == ordered;
  }

  // ---------------------------------------------------------------- applying a cascade

  /** One student's applications, by id. */
  type Apps = map<Id, App>

  predicate Keyed(apps: Apps) {
    forall id | id in apps :: apps[id].id == id
  }

  ghost predicate DistinctApps(others: seq<App>) {
    forall i, j | 0 <= i < j < |others| :: others[i].id != others[j].id
  }

  /** A loader's snapshot: every application once, in any order. */
  ghost predicate Snapshot(apps: Apps, others: seq<App>) {
    DistinctApps(others) && forall a: App :: a in others <==> a.id in apps && apps[a.id] == a
  }

  function Perform(apps: Apps, actions: seq<CascadeAction>): Apps {
    if actions == [] then apps
    else
      var before, last := Perform(apps, actions[..|actions| - 1]), actions[|actions| - 1];
      if last.application in before then before[last.application := before[last.application].(status := last.toStatus)]
      else before
  }

  /** The application is one the acceptance moves. */
  predicate Moves(accepted: App, other: App) {
    !Exempt(accepted) && Competes(accepted, other) && IsLive(other.status)
  }

  function MovedStatus(s: ApplicationStatus): ApplicationStatus {
    if s.Offered? then Declined else AutoWithdrawn
  }

  /** What an acceptance makes of each application. */
  function Settled(accepted: App, other: App): App {
    if Moves(accepted, other) then other.(status := MovedStatus(other.status)) else other
  }

  // ---------------------------------------------------------------- what a cascade contains

  /** The action that moves this application. */
  function Moving(accepted: App, other: App, offer: Id): CascadeAction {
    CascadeAction(other.id, if other.status.Offered? then other.offer else None,
                  other.status, MovedStatus(other.status), other.round,
                  if other.status.Offered? then P.AutoDeclined else P.AutoWithdrawn, Cause(offer, accepted.id))
  }

  lemma ActionForIs(accepted: App, other: App, offer: Id)
    requires !Exempt(accepted)
    ensures ActionFor(accepted, other, offer) == if Moves(accepted, other) then [Moving(accepted, other, offer)] else []
  {
  }

  lemma {:induction false} ActionsAre(accepted: App, others: seq<App>, offer: Id)
    requires !Exempt(accepted)
    ensures forall x :: x in ActionsFor(accepted, others, offer) <==>
              exists i :: 0 <= i < |others| && Moves(accepted, others[i]) && x == Moving(accepted, others[i], offer)
  {
    if others != [] {
      var before, last := others[..|others| - 1], others[|others| - 1];
      ActionsAre(accepted, before, offer);
      ActionForIs(accepted, last, offer);
      forall x ensures x in ActionsFor(accepted, others, offer) <==>
              exists i :: 0 <= i < |others| && Moves(accepted, others[i]) && x == Moving(accepted, others[i], offer)
      {
        if x in ActionsFor(accepted, before, offer) {
          var i :| 0 <= i < |before| && Moves(accepted, before[i]) && x == Moving(accepted, before[i], offer);
          assert others[i] == before[i];
        }
        if i :| 0 <= i < |others| && Moves(accepted, others[i]) && x == Moving(accepted, others[i], offer) {
          if i < |before| {
            assert before[i] == others[i];
          }
        }
      }
    }
  }

  /** In terms of the applications themselves: one action for each that moves. */
  lemma CascadeContents(apps: Apps, accepted: App, others: seq<App>, offer: Id)
    requires Keyed(apps) && Snapshot(apps, others)
    ensures forall x :: x in AcceptanceCascade(accepted, others, offer) <==>
              exists id :: id in apps && Moves(accepted, apps[id]) && x == Moving(accepted, apps[id], offer)
  {
    if !Exempt(accepted) {
      var ordered := Sorted(IdKey, others);
      SortedContents(IdKey, others);
      ActionsAre(accepted, ordered, offer);
      forall x ensures x in AcceptanceCascade(accepted, others, offer) <==>
              exists id :: id in apps && Moves(accepted, apps[id]) && x == Moving(accepted, apps[id], offer)
      {
        if id :| id in apps && Moves(accepted, apps[id]) && x == Moving(accepted, apps[id], offer) {
          assert apps[id] in others;
          var i :| 0 <= i < |ordered| && ordered[i] == apps[id];
          assert Moves(accepted, ordered[i]);
        }
        if x in AcceptanceCascade(accepted, others, offer) {
          var i :| 0 <= i < |ordered| && Moves(accepted, ordered[i]) && x == Moving(accepted, ordered[i], offer);
          assert ordered[i] in others;
          assert ordered[i].id in apps;
        }
      }
    }
  }

  // ---------------------------------------------------------------- order

  ghost predicate AscendingActions(actions: seq<CascadeAction>) {
    forall i, j | 0 <= i < j < |actions| :: actions[i].application < actions[j].application
  }

  lemma {:induction false} ActionsAscend(accepted: App, others: seq<App>, offer: Id)
    requires !Exempt(accepted)
    requires forall i, j | 0 <= i < j < |others| :: others[i].id < others[j].id
    ensures AscendingActions(ActionsFor(accepted, others, offer))
    ensures forall i | 0 <= i < |ActionsFor(accepted, others, offer)| ::
              others != [] && ActionsFor(accepted, others, offer)[i].application <= others[|others| - 1].id
  {
    if others != [] {
      var before, last := others[..|others| - 1], others[|others| - 1];
      ActionsAscend(accepted, before, offer);
      ActionForIs(accepted, last, offer);
    }
  }

  lemma OrderedIds(others: seq<App>)
    requires DistinctApps(others)
    ensures forall i, j | 0 <= i < j < |Sorted(IdKey, others)| ::
        Sorted(IdKey, others)[i].id < Sorted(IdKey, others)[j].id
  {
    var ordered := Sorted(IdKey, others);
    assert KeysDiffer(IdKey, others);
    SortedContents(IdKey, others);
    SortedAscends(IdKey, others);
    KeysDifferSameContents(IdKey, others, ordered);
    forall i, j | 0 <= i < j < |ordered| ensures ordered[i].id < ordered[j].id {
      assert IdKey(ordered[i]) != IdKey(ordered[j]) && AtMost(IdKey(ordered[i]), IdKey(ordered[j]));
    }
  }

  /** The actions come in id order, one per application, whatever order the snapshot was read in. */
  lemma CascadeOrder(accepted: App, others: seq<App>, again: seq<App>, offer: Id)
    requires DistinctApps(others) && multiset(others) == multiset(again)
    ensures AscendingActions(AcceptanceCascade(accepted, others, offer))
    ensures AcceptanceCascade(accepted, others, offer) == AcceptanceCascade(accepted, again, offer)
  {
    OrderedIds(others);
    assert KeysDiffer(IdKey, others);
    SortedIgnoresOrder(IdKey, others, again);
    if !Exempt(accepted) { ActionsAscend(accepted, Sorted(IdKey, others), offer); }
  }

  // ---------------------------------------------------------------- the state a cascade leaves

  lemma {:induction false} PerformKeepsOthers(apps: Apps, actions: seq<CascadeAction>, id: Id)
    requires forall i | 0 <= i < |actions| :: actions[i].application != id
    ensures Perform(apps, actions).Keys == apps.Keys
    ensures id in apps ==> Perform(apps, actions)[id] == apps[id]
  {
    if actions != [] {
      var before := actions[..|actions| - 1];
      assert forall i | 0 <= i < |before| :: before[i] == actions[i];
      PerformKeepsOthers(apps, before, id);
    }
  }

  lemma {:induction false} PerformKeys(apps: Apps, actions: seq<CascadeAction>)
    ensures Perform(apps, actions).Keys == apps.Keys
  {
    if actions != [] { PerformKeys(apps, actions[..|actions| - 1]); }
  }

  lemma {:induction false} PerformAt(apps: Apps, actions: seq<CascadeAction>, i: nat)
    requires AscendingActions(actions) && i < |actions| && actions[i].application in apps
    ensures Perform(apps, actions).Keys == apps.Keys
    ensures Perform(apps, actions)[actions[i].application]
        == apps[actions[i].application].(status := actions[i].toStatus)
    decreases |actions|
  {
    var before, last := actions[..|actions| - 1], actions[|actions| - 1];
    assert forall j | 0 <= j < |before| :: before[j] == actions[j];
    PerformKeys(apps, actions);
    if i == |before| {
      PerformKeepsOthers(apps, before, last.application);
    } else {
      PerformAt(apps, before, i);
    }
  }

  /** Performing a cascade settles every application by the acceptance, and changes nothing else. */
  lemma CascadeSettles(apps: Apps, accepted: App, others: seq<App>, offer: Id)
    requires Keyed(apps) && Snapshot(apps, others)
    ensures Perform(apps, AcceptanceCascade(accepted, others, offer))
        == map id | id in apps :: Settled(accepted, apps[id])
  {
    var actions := AcceptanceCascade(accepted, others, offer);
    CascadeOrder(accepted, others, others, offer);
    PerformKeys(apps, actions);
    forall id | id in apps ensures Perform(apps, actions)[id] == Settled(accepted, apps[id]) {
      CascadeSettlesOne(apps, accepted, others, offer, id);
    }
  }

  lemma CascadeSettlesOne(apps: Apps, accepted: App, others: seq<App>, offer: Id, id: Id)
    requires Keyed(apps) && Snapshot(apps, others) && id in apps
    ensures var after := Perform(apps, AcceptanceCascade(accepted, others, offer));
            id in after && after[id] == Settled(accepted, apps[id])
  {
    var actions := AcceptanceCascade(accepted, others, offer);
    CascadeContents(apps, accepted, others, offer);
    CascadeOrder(accepted, others, others, offer);
    PerformKeys(apps, actions);
    if Moves(accepted, apps[id]) {
      assert Moving(accepted, apps[id], offer) in actions;
      var i :| 0 <= i < |actions| && actions[i] == Moving(accepted, apps[id], offer);
      PerformAt(apps, actions, i);
    } else {
      forall i | 0 <= i < |actions| ensures actions[i].application != id {
        assert actions[i] in actions;
      }
      PerformKeepsOthers(apps, actions, id);
    }
  }

  /**
   After the cascade no competitor of the accepted application is live, and everything that does not compete is
   untouched.
   */
  lemma CascadePostState(apps: Apps, accepted: App, others: seq<App>, offer: Id)
    requires Keyed(apps) && Snapshot(apps, others) && !Exempt(accepted)
    ensures var after := Perform(apps, AcceptanceCascade(accepted, others, offer));
            && after.Keys == apps.Keys
            && forall id | id in apps ::
                 && (Competes(accepted, apps[id]) ==>
                     !IsLive(after[id].status) && after[id] == apps[id].(status := after[id].status))
                 && (!Competes(accepted, apps[id]) || !IsLive(apps[id].status) ==> after[id] == apps[id])
  {
    CascadeSettles(apps, accepted, others, offer);
  }

  /** An open-cycle internship moves nothing. */
  lemma ExemptCascadeIsEmpty(apps: Apps, accepted: App, others: seq<App>, offer: Id)
    requires Exempt(accepted)
    ensures Perform(apps, AcceptanceCascade(accepted, others, offer)) == apps
  {
  }

  lemma {:induction false} NothingMoves(accepted: App, others: seq<App>, offer: Id)
    requires !Exempt(accepted) && forall i | 0 <= i < |others| :: !Moves(accepted, others[i])
    ensures ActionsFor(accepted, others, offer) == []
  {
    if others != [] {
      NothingMoves(accepted, others[..|others| - 1], offer);
      ActionForIs(accepted, others[|others| - 1], offer);
    }
  }

  lemma SettledStays(accepted: App, other: App)
    ensures !Moves(accepted, Settled(accepted, other))
  {
  }

  /** Cascading again over the state it left finds nothing to do. */
  lemma SecondCascadeIsEmpty(apps: Apps, accepted: App, others: seq<App>, offer: Id, again: seq<App>)
    requires Keyed(apps) && Snapshot(apps, others)
    requires Snapshot(Perform(apps, AcceptanceCascade(accepted, others, offer)), again)
    ensures AcceptanceCascade(accepted, again, offer) == []
  {
    CascadeSettles(apps, accepted, others, offer);
    var after := Perform(apps, AcceptanceCascade(accepted, others, offer));
    if !Exempt(accepted) {
      var ordered := Sorted(IdKey, again);
      SortedContents(IdKey, again);
      forall i | 0 <= i < |ordered| ensures !Moves(accepted, ordered[i]) {
        assert ordered[i] in again;
        SettledStays(accepted, apps[ordered[i].id]);
      }
      NothingMoves(accepted, ordered, offer);
    }
  }

  /** Every action is a system-legal row of the transition table, in whatever cycle the application sits. */
  lemma CascadeIsLegal(apps: Apps, accepted: App, others: seq<App>, offer: Id, x: CascadeAction, expiry: OfferExpiry)
    requires Keyed(apps) && Snapshot(apps, others) && x in AcceptanceCascade(accepted, others, offer)
    ensures x.application in apps && apps[x.application].status == x.fromStatus
    ensures var m :=
        Move(Some(x.fromStatus), x.toStatus, System, TransitionContext(apps[x.application].kind, expiry), false);
            Allowing(NAMES, m) == [if x.fromStatus.Offered? then Decline else AutoWithdraw]
  {
    CascadeContents(apps, accepted, others, offer);
    var id :| id in apps && Moves(accepted, apps[id]) && x == Moving(accepted, apps[id], offer);
    var m := Move(Some(x.fromStatus), x.toStatus, System, TransitionContext(apps[id].kind, expiry), false);
    OnlyRow(m, if x.fromStatus.Offered? then Decline else AutoWithdraw);
  }

  lemma OnlyRow(m: Move, name: TransitionName)
    requires RowAllows(Row(name), m)
    requires forall other: TransitionName | other != name :: !RowAllows(Row(other), m)
    ensures Allowing(NAMES, m) == [name]
  {
    EveryNameIsListed(name);
    OnlyAmong(NAMES, m, name);
  }

  lemma {:induction false} OnlyAmong(names: seq<TransitionName>, m: Move, name: TransitionName)
    requires Distinct(names) && RowAllows(Row(name), m)
    requires forall other: TransitionName | other != name :: !RowAllows(Row(other), m)
    ensures Allowing(names, m) == if name in names then [name] else []
  {
    if names != [] {
      var before := names[..|names| - 1];
      assert names == before + [names[|names| - 1]];
      OnlyAmong(before, m, name);
    }
  }
}
