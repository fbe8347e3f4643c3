/** What every run of a student's lifecycle keeps. */
module LifecycleSafety {
  import opened Common
  import opened Domain
  import opened Transitions
  import opened Gates
  import opened GateLaws
  import opened Cascade
  import opened Memberships
  import opened Lifecycle
  import R = Restore

  // ---------------------------------------------------------------- what the table allows from where

  lemma MovesStartWhere(s: State, app: Id, name: TransitionName, target: ApplicationStatus, actor: TransitionActor,
                        expiry: OfferExpiry)
    requires CanMove(s, app, name, target, actor, expiry)
    ensures var from := s.apps[app].status;
            && (name.Accept? || name.Decline? ==> from.Offered?)
            && (name.ExtendOffer? || name.DirectOffer? || name.ReExtend? ==> !from.Offered? && !from.Accepted?)
            && (name.TerminateOffer? ==> from.Offered? || from.Accepted?)
            && (name.Reinstate? ==> target.InProgress? && !IsLive(from) && !from.Accepted?)
            && (IsPipeline(name) ==>
                IsLive(from) && !target.Offered? && !target.Accepted? && (InFlight(target) ==> from.InProgress?))
  {
  }

  // ---------------------------------------------------------------- statuses and offers stay consistent

  lemma StatusMoveKeeps(s: State, app: Id, status: ApplicationStatus)
    requires Consistent(s) && app in s.apps
    requires !s.apps[app].status.Offered? && !s.apps[app].status.Accepted? && !status.Offered? && !status.Accepted?
    ensures Consistent(WithStatus(s, app, status)) && Shrinks(s, WithStatus(s, app, status))
  {
    var s' := WithStatus(s, app, status);
    assert Held(s') == Held(s);
    forall id | id in s'.apps && (s'.apps[id].status.Offered? || s'.apps[id].status.Accepted?)
      ensures OfferFits(s', id)
    {
      assert OfferFits(s, id);
    }
  }

  lemma EndingKeeps(s: State, app: Id, status: ApplicationStatus)
    requires Consistent(s) && app in s.apps && (s.apps[app].status.Offered? || s.apps[app].status.Accepted?)
    requires !status.Offered? && !status.Accepted?
    ensures s.apps[app].offer.Some? && s.apps[app].offer.value in s.offers
    ensures Consistent(OfferEnded(s, app, status)) && Shrinks(s, OfferEnded(s, app, status))
  {
    assert OfferFits(s, app);
    var s' := OfferEnded(s, app, status);
    var o := s.apps[app].offer.value;
    assert Held(s') == Held(s) - {o};
    forall id | id in s'.apps && (s'.apps[id].status.Offered? || s'.apps[id].status.Accepted?)
      ensures OfferFits(s', id)
    {
      assert OfferFits(s, id);
    }
  }

  lemma DecliningKeeps(s: State, app: Id)
    requires Consistent(s) && app in s.apps && s.apps[app].status.Offered?
    ensures s.apps[app].offer.Some? && s.apps[app].offer.value in s.offers
    ensures var s' := Answered(s, app, DeclinedOffer, {}); Consistent(s') && Shrinks(s, s')
  {
    assert OfferFits(s, app);
    var s' := Answered(s, app, DeclinedOffer, {});
    assert Held(s') == Held(s);
    forall id | id in s'.apps && (s'.apps[id].status.Offered? || s'.apps[id].status.Accepted?)
      ensures OfferFits(s', id)
    {
      assert OfferFits(s, id);
    }
  }

  lemma ExtendingKeeps(s: State, app: Id, offer: Id)
    requires Consistent(s) && app in s.apps && offer !in s.offers
    requires !s.apps[app].status.Offered? && !s.apps[app].status.Accepted?
    ensures Consistent(Extended(s, app, offer)) && Shrinks(s, Extended(s, app, offer))
  {
    var s' := Extended(s, app, offer);
    assert Held(s') == Held(s);
    forall id | id in s'.apps && (s'.apps[id].status.Offered? || s'.apps[id].status.Accepted?)
      ensures OfferFits(s', id)
    {
      if id != app { assert OfferFits(s, id); }
    }
  }

  lemma ApplyingKeeps(s: State, e: Event)
    requires Consistent(s) && e.ApplyTo? && e.app !in s.apps
    ensures Consistent(Applied(s, e)) && Shrinks(s, Applied(s, e))
  {
    var s' := Applied(s, e);
    assert Held(s') == Held(s);
    forall id | id in s'.apps && (s'.apps[id].status.Offered? || s'.apps[id].status.Accepted?)
      ensures OfferFits(s', id)
    {
      assert OfferFits(s, id);
    }
  }

  lemma ExitingKeeps(s: State, e: Event)
    requires Consistent(s) && e.Member?
    ensures Consistent(MemberMoved(s, e)) && Shrinks(s, MemberMoved(s, e))
  {
    var s' := MemberMoved(s, e);
    assert Held(s') == Held(s);
    forall id | id in s'.apps && (s'.apps[id].status.Offered? || s'.apps[id].status.Accepted?)
      ensures OfferFits(s', id)
    {
      assert OfferFits(s, id);
    }
  }

  /** A cascade declines only offers that await an answer. */
  lemma CascadingKeepsHeld(s: State, accepted: App, offer: Id)
    requires Consistent(s)
    ensures Held(Cascaded(s, accepted, offer)) == Held(s)
    ensures forall o | o in Held(s) :: Cascaded(s, accepted, offer).offers[o] == s.offers[o]
  {
    forall o | o in s.offers && CascadeDeclines(s, accepted, o) ensures s.offers[o].response.None? {
      assert OfferFits(s, s.offers[o].application);
    }
  }

  lemma CascadingKeeps(s: State, accepted: App, offer: Id)
    requires Consistent(s)
    ensures var s' := Cascaded(s, accepted, offer); Consistent(s') && Shrinks(s, s')
    ensures accepted.id in s.apps && s.apps[accepted.id] == accepted ==>
              Cascaded(s, accepted, offer).apps[accepted.id] == accepted
  {
    var s' := Cascaded(s, accepted, offer);
    CascadingKeepsHeld(s, accepted, offer);
    forall id | id in s'.apps && (s'.apps[id].status.Offered? || s'.apps[id].status.Accepted?)
      ensures OfferFits(s', id)
    {
      assert OfferFits(s, id);
    }
  }

  lemma AcceptingKeeps(s: State, app: Id, credits: set<RuleDomain>)
    requires Consistent(s) && app in s.apps && s.apps[app].status.Offered?
    ensures s.apps[app].offer.Some? && s.apps[app].offer.value in s.offers
    ensures var s' := Answered(s, app, AcceptedOffer, credits);
            Consistent(s') && Held(s') == Held(s) + {s.apps[app].offer.value}
  {
    assert OfferFits(s, app);
    var s' := Answered(s, app, AcceptedOffer, credits);
    assert Held(s') == Held(s) + {s.apps[app].offer.value};
    forall id | id in s'.apps && (s'.apps[id].status.Offered? || s'.apps[id].status.Accepted?)
      ensures OfferFits(s', id)
    {
      assert OfferFits(s, id);
    }
  }

  /**
   Every offer held after was held before, for the same application's unchanged role and cycle, with the same credits.
   */
  predicate Shrinks(s: State, s': State) {
    forall o | o in Held(s') ::
      && o in Held(s)
      && s'.offers[o].credits == s.offers[o].credits && s'.offers[o].application == s.offers[o].application
      && SamePost(s, s', s.offers[o].application)
  }

  predicate SamePost(s: State, s': State, app: Id) {
    app in s'.apps ==> app in s.apps && s'.apps[app].cycle == s.apps[app].cycle && s'.apps[app].role == s.apps[app].role
                       && s'.apps[app].kind == s.apps[app].kind
  }

  // ---------------------------------------------------------------- the cascade as it is written

  /** The offer updates of a cascade's plan, in order. */
  function DeclinedBy(offers: map<Id, OfferRow>, actions: seq<CascadeAction>): map<Id, OfferRow> {
    if actions == [] then offers
    else
      var before, o := DeclinedBy(offers, actions[..|actions| - 1]), actions[|actions| - 1].offer;
      if o.Some? && o.value in before then before[o.value := before[o.value].(response := Some(DeclinedOffer))]
      else before
  }

  lemma {:induction false} DeclinedByIs(offers: map<Id, OfferRow>, actions: seq<CascadeAction>, o: Id)
    ensures DeclinedBy(offers, actions).Keys == offers.Keys
    ensures o in offers && (exists x :: x in actions && x.offer == Some(o)) ==>
              DeclinedBy(offers, actions)[o] == offers[o].(response := Some(DeclinedOffer))
    ensures o in offers && !(exists x :: x in actions && x.offer == Some(o)) ==>
        DeclinedBy(offers, actions)[o] == offers[o]
  {
    if actions != [] {
      DeclinedByIs(offers, actions[..|actions| - 1], o);
      assert actions == actions[..|actions| - 1] + [actions[|actions| - 1]];
    }
  }

  lemma CascadeDeclinesPlanned(s: State, accepted: App, others: seq<App>, offer: Id, o: Id)
    requires Consistent(s) && Snapshot(s.apps, others) && o in s.offers
    ensures CascadeDeclines(s, accepted, o)
        <==> exists x :: x in AcceptanceCascade(accepted, others, offer) && x.offer == Some(o)
  {
    var actions := AcceptanceCascade(accepted, others, offer);
    CascadeContents(s.apps, accepted, others, offer);
    if CascadeDeclines(s, accepted, o) {
      assert Moving(accepted, s.apps[s.offers[o].application], offer) in actions;
    }
    if x :| x in actions && x.offer == Some(o) {
      var id :| id in s.apps && Moves(accepted, s.apps[id]) && x == Moving(accepted, s.apps[id], offer);
      assert OfferFits(s, id);
    }
  }

  lemma CascadedOffersAsPlanned(s: State, accepted: App, others: seq<App>, offer: Id)
    requires Consistent(s) && Snapshot(s.apps, others)
    ensures Cascaded(s, accepted, offer).offers == DeclinedBy(s.offers, AcceptanceCascade(accepted, others, offer))
  {
    var actions := AcceptanceCascade(accepted, others, offer);
    DeclinedByIs(s.offers, actions, 0);
    forall o | o in s.offers ensures DeclinedBy(s.offers, actions)[o] == Cascaded(s, accepted, offer).offers[o] {
      DeclinedByIs(s.offers, actions, o);
      CascadeDeclinesPlanned(s, accepted, others, offer, o);
    }
  }

  /** Performing the computed cascade one action at a time is the whole-state change an acceptance makes. */
  lemma CascadeIsAsPlanned(s: State, accepted: App, others: seq<App>, offer: Id)
    requires Consistent(s) && Snapshot(s.apps, others)
    ensures var actions := AcceptanceCascade(accepted, others, offer);
            Cascaded(s, accepted, offer)
            == State(Perform(s.apps, actions), DeclinedBy(s.offers, actions), s.memberships,
                     s.cascades[offer := MovedBy(s, accepted)])
  {
    CascadeSettles(s.apps, accepted, others, offer);
    CascadedOffersAsPlanned(s, accepted, others, offer);
  }

  // ---------------------------------------------------------------- the candidates as they are computed

  /**
   What the lifecycle remembers of an acceptance is what its event rows say: an application is a candidate for
   restoration exactly if `compute_restore_candidates` lists it, with that status and need of a fresh offer.
   */
  lemma CandidatesAreComputed(before: State, accepted: App, others: seq<App>, offer: Id, earlier: seq<R.HistoryItem>,
                              first: int, later: seq<R.HistoryItem>, s: State, id: Id)
    requires Consistent(before) && Snapshot(before.apps, others)
    requires R.Unrelated(earlier, offer) && R.Unrelated(later, offer)
    requires offer in s.cascades && s.cascades[offer] == MovedBy(before, accepted)
    ensures var history := earlier + R.Recorded(AcceptanceCascade(accepted, others, offer), first) + later;
            var candidates := R.RestoreCandidates(offer, history, map x | x in s.apps :: s.apps[x].status);
            && (IsCandidate(s, offer, id) <==> exists c :: c in candidates && c.application == id)
            && forall c | c in candidates && c.application == id ::
                 c.restoreStatus == s.cascades[offer][id] && c.requiresFreshOffer == s.cascades[offer][id].Offered?
  {
    var current := map x | x in s.apps :: s.apps[x].status;
    R.RestoreUndoesCascade(before.apps, accepted, others, offer, earlier, first, later, current);
    var history := earlier + R.Recorded(AcceptanceCascade(accepted, others, offer), first) + later;
    if IsCandidate(s, offer, id) {
      assert R.Undoing(before.apps[id]) in R.RestoreCandidates(offer, history, current);
    }
  }

  // ---------------------------------------------------------------- the bounds

  /** Accepted offers of a cycle that no cap override was credited with. */
  function UncreditedIn(s: State, cycle: Id): set<Id> {
    set o | o in Held(s) && IsHeldIn(s, o, cycle) && OfferCap !in s.offers[o].credits
  }

  /** Accepted placements that no outcome override was credited with. */
  function UncreditedPlacements(s: State): set<Id> {
    set o | o in Held(s) && IsHeldFor(s, o, Placement) && OutcomeGate !in s.offers[o].credits
  }

  /** Accepted internships of an internship cycle that no outcome override was credited with. */
  function UncreditedInternships(s: State, cycle: Id): set<Id> {
    set o | o in Held(s) && IsHeldIn(s, o, cycle) && IsHeldFor(s, o, Internship)
            && s.apps[s.offers[o].application].kind.InternshipCycle? && OutcomeGate !in s.offers[o].credits
  }

  predicate CapKept(s: State, caps: Caps, cycle: Id) {
    cycle in caps ==> |UncreditedIn(s, cycle)| <= if caps[cycle] < 0 then 0 else caps[cycle]
  }

  ghost predicate Within(s: State, caps: Caps) {
    && (forall cycle | cycle in caps :: CapKept(s, caps, cycle))
    && |UncreditedPlacements(s)| <= 1
    && forall cycle :: |UncreditedInternships(s, cycle)| <= 1
  }

  lemma ShrinkingKeepsBounds(s: State, s': State, caps: Caps)
    requires Consistent(s) && Consistent(s') && Shrinks(s, s') && Within(s, caps)
    ensures Within(s', caps)
  {
    forall cycle | cycle in caps ensures CapKept(s', caps, cycle) {
      assert CapKept(s, caps, cycle);
      assert UncreditedIn(s', cycle) <= UncreditedIn(s, cycle);
      SubsetSize(UncreditedIn(s', cycle), UncreditedIn(s, cycle));
    }
    assert UncreditedPlacements(s') <= UncreditedPlacements(s);
    SubsetSize(UncreditedPlacements(s'), UncreditedPlacements(s));
    forall cycle ensures |UncreditedInternships(s', cycle)| <= 1 {
      assert UncreditedInternships(s', cycle) <= UncreditedInternships(s, cycle);
      SubsetSize(UncreditedInternships(s', cycle), UncreditedInternships(s, cycle));
    }
  }

  lemma LiftedIsCredited(failure: Option<Reason>, domain: RuleDomain, overrides: seq<GateOverride>, applied: seq<Id>)
    requires failure.Some? && OverrideDecision(failure, domain, overrides).Passes()
    requires forall id | id in OverrideDecision(failure, domain, overrides).applied :: id in applied
    ensures domain in Credits(overrides, applied)
  {
    LiftIsCredited(failure, domain, overrides);
    var o :| o in overrides && o.domain == domain && o.allow
             && OverrideDecision(failure, domain, overrides).applied == [o.id];
    assert o.id in [o.id];
  }

  /** An acceptance not credited against a gate met that gate on its merits. */
  lemma UncreditedMeetsGates(s: State, caps: Caps, e: Event)
    requires e.AcceptOffer? && e.app in s.apps && AcceptanceResult(s, caps, e).Passes()
    ensures var a := s.apps[e.app];
            var c := ConstraintsOn(s, caps, a.role, a.cycle, a.kind);
            var credits := Credits(e.overrides, AcceptanceResult(s, caps, e).applied);
            && (OfferCap !in credits ==> CapFailure(c).None?)
            && (OutcomeGate !in credits ==> OutcomeFailure(c, Accepting).None?)
  {
    var a := s.apps[e.app];
    var c := ConstraintsOn(s, caps, a.role, a.cycle, a.kind);
    var applied := AcceptanceResult(s, caps, e).applied;
    if CapFailure(c).Some? { LiftedIsCredited(CapFailure(c), OfferCap, e.overrides, applied); }
    if OutcomeFailure(c, Accepting).Some? {
      LiftedIsCredited(OutcomeFailure(c, Accepting), OutcomeGate, e.overrides, applied);
    }
  }

  /** Facts an acceptance with these credits rests on. */
  predicate MeetsGates(s: State, caps: Caps, app: Id, credits: set<RuleDomain>)
    requires app in s.apps
  {
    var c := ConstraintsOn(s, caps, s.apps[app].role, s.apps[app].cycle, s.apps[app].kind);
    && (OfferCap !in credits ==> CapFailure(c).None?)
    && (OutcomeGate !in credits ==> OutcomeFailure(c, Accepting).None?)
  }

  /**
   An acceptance adds its own offer to its own cycle's uncredited ones, unless credited, and nothing anywhere else.
   */
  lemma UncreditedAfter(s: State, app: Id, credits: set<RuleDomain>, cycle: Id)
    requires Consistent(s) && app in s.apps && s.apps[app].status.Offered? && OfferFits(s, app)
    ensures UncreditedIn(Answered(s, app, AcceptedOffer, credits), cycle)
         <= if cycle == s.apps[app].cycle && OfferCap !in credits then HeldIn(s, cycle) + {s.apps[app].offer.value}
            else UncreditedIn(s, cycle)
  {
    AcceptingKeeps(s, app, credits);
  }

  lemma AcceptingKeepsCap(s: State, caps: Caps, app: Id, credits: set<RuleDomain>, cycle: Id)
    requires Consistent(s) && CapKept(s, caps, cycle) && app in s.apps && s.apps[app].status.Offered?
    requires OfferFits(s, app) && MeetsGates(s, caps, app, credits)
    ensures CapKept(Answered(s, app, AcceptedOffer, credits), caps, cycle)
  {
    var after := UncreditedIn(Answered(s, app, AcceptedOffer, credits), cycle);
    UncreditedAfter(s, app, credits, cycle);
    if cycle == s.apps[app].cycle && OfferCap !in credits {
      SubsetSize(after, HeldIn(s, cycle) + {s.apps[app].offer.value});
    } else {
      SubsetSize(after, UncreditedIn(s, cycle));
    }
  }

  lemma AcceptingKeepsPlacements(s: State, caps: Caps, app: Id, credits: set<RuleDomain>)
    requires Consistent(s) && |UncreditedPlacements(s)| <= 1 && app in s.apps && s.apps[app].status.Offered?
    requires OfferFits(s, app) && MeetsGates(s, caps, app, credits)
    ensures |UncreditedPlacements(Answered(s, app, AcceptedOffer, credits))| <= 1
  {
    var s' := Answered(s, app, AcceptedOffer, credits);
    var o := s.apps[app].offer.value;
    AcceptingKeeps(s, app, credits);
    if s.apps[app].role.Placement? && OutcomeGate !in credits {
      assert UncreditedPlacements(s') <= {o};
      SubsetSize(UncreditedPlacements(s'), {o});
    } else {
      assert UncreditedPlacements(s') <= UncreditedPlacements(s);
      SubsetSize(UncreditedPlacements(s'), UncreditedPlacements(s));
    }
  }

  lemma AcceptingKeepsInternships(s: State, caps: Caps, app: Id, credits: set<RuleDomain>, cycle: Id)
    requires Consistent(s) && |UncreditedInternships(s, cycle)| <= 1 && app in s.apps && s.apps[app].status.Offered?
    requires OfferFits(s, app) && MeetsGates(s, caps, app, credits)
    ensures |UncreditedInternships(Answered(s, app, AcceptedOffer, credits), cycle)| <= 1
  {
    var s', a := Answered(s, app, AcceptedOffer, credits), s.apps[app];
    var o := a.offer.value;
    AcceptingKeeps(s, app, credits);
    if a.cycle == cycle && a.role.Internship? && a.kind.InternshipCycle? && OutcomeGate !in credits {
      assert HeldInternships(s, cycle) == {};
      assert UncreditedInternships(s', cycle) <= {o};
      SubsetSize(UncreditedInternships(s', cycle), {o});
    } else {
      assert UncreditedInternships(s', cycle) <= UncreditedInternships(s, cycle);
      SubsetSize(UncreditedInternships(s', cycle), UncreditedInternships(s, cycle));
    }
  }

  /** Accepting within the bounds stays within them. */
  lemma AcceptingStaysWithin(s: State, caps: Caps, app: Id, credits: set<RuleDomain>)
    requires Consistent(s) && Within(s, caps) && app in s.apps && s.apps[app].status.Offered?
    requires OfferFits(s, app) && MeetsGates(s, caps, app, credits)
    ensures Within(Answered(s, app, AcceptedOffer, credits), caps)
  {
    forall cycle | cycle in caps ensures CapKept(Answered(s, app, AcceptedOffer, credits), caps, cycle) {
      AcceptingKeepsCap(s, caps, app, credits, cycle);
    }
    AcceptingKeepsPlacements(s, caps, app, credits);
    forall cycle ensures |UncreditedInternships(Answered(s, app, AcceptedOffer, credits), cycle)| <= 1 {
      AcceptingKeepsInternships(s, caps, app, credits, cycle);
    }
  }

  lemma CascadingKeepsPosts(s: State, accepted: App, offer: Id, cycle: Id)
    requires Consistent(s)
    ensures forall o | o in Held(s) :: IsHeldIn(Cascaded(s, accepted, offer), o, cycle) <==> IsHeldIn(s, o, cycle)
    ensures forall o, role | o in Held(s) :: IsHeldFor(Cascaded(s, accepted, offer), o, role) <==> IsHeldFor(s, o, role)
  {
    CascadingKeepsHeld(s, accepted, offer);
  }

  lemma CascadingKeepsFacts(s: State, accepted: App, offer: Id, caps: Caps, role: Role, cycle: Id, kind: CycleKind)
    requires Consistent(s)
    ensures ConstraintsOn(Cascaded(s, accepted, offer), caps, role, cycle, kind)
         == ConstraintsOn(s, caps, role, cycle, kind)
  {
    var s' := Cascaded(s, accepted, offer);
    CascadingKeepsHeld(s, accepted, offer);
    CascadingKeepsPosts(s, accepted, offer, cycle);
    assert HeldIn(s', cycle) == HeldIn(s, cycle);
    assert HeldPlacements(s') == HeldPlacements(s);
    assert HeldInternships(s', cycle) == HeldInternships(s, cycle);
  }

  /** Old offers are untouched; the new ones are the fresh offers, each of its own application. */
  lemma RestoredOffers(s: State, offer: Id, restore: map<Id, Id>)
    requires Restorable(s, offer, restore)
    ensures var s' := Restored(s, offer, restore);
            && (forall o | o in s.offers :: o in s'.offers && s'.offers[o] == s.offers[o])
            && (forall o | o in s'.offers && o !in s.offers ::
                  s'.offers[o].application in restore && s'.offers[o].response.None?)
            && (forall id | id in restore && s.cascades[offer][id].Offered? ::
                  restore[id] in s'.offers && s'.offers[restore[id]] == OfferRow(id, None, false, {}))
            && Held(s') == Held(s)
  {
    var s' := Restored(s, offer, restore);
    FreshOffers(s, offer, restore);
    assert forall o | o in s'.offers && o !in s.offers :: s'.offers[o].response.None?;
  }

  lemma FreshOffers(s: State, offer: Id, restore: map<Id, Id>)
    requires Restorable(s, offer, restore)
    ensures var s' := Restored(s, offer, restore);
            && (forall o | o in s'.offers && o !in s.offers ::
                  s'.offers[o].application in restore && s'.offers[o].response.None?)
            && forall id | id in restore && s.cascades[offer][id].Offered? ::
                 restore[id] in s'.offers && s'.offers[restore[id]] == OfferRow(id, None, false, {})
  {
  }

  /** Restored applications are what they were before the acceptance, the others what they are. */
  lemma RestoredApps(s: State, offer: Id, restore: map<Id, Id>)
    requires Restorable(s, offer, restore)
    ensures var s' := Restored(s, offer, restore);
            && s'.memberships == s.memberships && s'.apps.Keys == s.apps.Keys
            && (forall id | id in restore :: id in s.apps && !IsLive(s.apps[id].status) && !s.apps[id].status.Accepted?)
            && (forall id | id in s.apps && id !in restore :: s'.apps[id] == s.apps[id])
            && forall id | id in s.apps && id in restore ::
                 s'.apps[id] == PutBack(s.apps[id], s.cascades[offer][id], restore[id])
  {
  }

  lemma RestoringKeeps(s: State, offer: Id, restore: map<Id, Id>)
    requires Consistent(s) && Restorable(s, offer, restore)
    ensures Consistent(Restored(s, offer, restore)) && Shrinks(s, Restored(s, offer, restore))
  {
    RestoredOffers(s, offer, restore);
    RestoredApps(s, offer, restore);
    RestorationIsConsistent(s, Restored(s, offer, restore), offer, restore);
  }

  lemma RestorationIsConsistent(s: State, s': State, offer: Id, restore: map<Id, Id>)
    requires Consistent(s) && s'.apps.Keys == s.apps.Keys && Held(s') == Held(s)
    requires forall id | id in restore :: && offer in s.cascades && id in s.cascades[offer] && id in s.apps
                                          && !IsLive(s.apps[id].status) && !s.apps[id].status.Accepted?
    requires forall o | o in s.offers :: o in s'.offers && s'.offers[o] == s.offers[o]
    requires forall o | o in s'.offers && o !in s.offers :: s'.offers[o].application in restore
    requires forall id | id in restore && s.cascades[offer][id].Offered? ::
               restore[id] in s'.offers && s'.offers[restore[id]] == OfferRow(id, None, false, {})
    requires forall id | id in s.apps && id !in restore :: s'.apps[id] == s.apps[id]
    requires forall id | id in s.apps && id in restore ::
               s'.apps[id] == PutBack(s.apps[id], s.cascades[offer][id], restore[id])
    ensures Consistent(s') && Shrinks(s, s')
  {
    forall id | id in s'.apps && (s'.apps[id].status.Offered? || s'.apps[id].status.Accepted?)
      ensures OfferFits(s', id)
    {
      if id !in restore { assert OfferFits(s, id); }
    }
  }

  lemma ShrinksTwice(s: State, s1: State, s2: State)
    requires Shrinks(s, s1) && Shrinks(s1, s2) && s2.apps.Keys == s1.apps.Keys
    ensures Shrinks(s, s2)
  {
  }

  /** A termination ended this application's offer and put the chosen ones back; no other application changed. */
  predicate Landed(s: State, s': State, app: Id, restore: map<Id, Id>) {
    && s'.memberships == s.memberships && s'.apps.Keys == s.apps.Keys
    && app !in restore && (forall id | id in restore :: id in s.apps)
    && forall id | id in s.apps ::
         && s'.apps[id].cycle == s.apps[id].cycle
         && s'.apps[id].status == (if id == app then OfferTerminated
                                   else if id in restore then Before(s, app, id) else s.apps[id].status)
  }

  lemma TerminationLands(s: State, app: Id, restore: map<Id, Id>)
    requires Consistent(s) && app in s.apps && (s.apps[app].status.Offered? || s.apps[app].status.Accepted?)
    requires OfferFits(s, app) && Restorable(s, s.apps[app].offer.value, restore)
    ensures Landed(s, Terminated(s, app, restore), app, restore)
  {
    EndingKeepsCandidates(s, app, restore);
    RestoredApps(OfferEnded(s, app, OfferTerminated), s.apps[app].offer.value, restore);
  }

  lemma TerminationKeeps(s: State, app: Id, restore: map<Id, Id>)
    requires Consistent(s) && app in s.apps && (s.apps[app].status.Offered? || s.apps[app].status.Accepted?)
    requires OfferFits(s, app) && Restorable(s, s.apps[app].offer.value, restore)
    ensures Consistent(Terminated(s, app, restore)) && Shrinks(s, Terminated(s, app, restore))
  {
    EndingKeeps(s, app, OfferTerminated);
    EndingKeepsCandidates(s, app, restore);
    var ended := OfferEnded(s, app, OfferTerminated);
    RestoringKeeps(ended, s.apps[app].offer.value, restore);
    ShrinksTwice(s, ended, Terminated(s, app, restore));
  }

  lemma TerminatingKeeps(s: State, caps: Caps, e: Event)
    requires Consistent(s) && e.Terminate? && Enabled(s, caps, e)
    ensures Consistent(Next(s, caps, e)) && Shrinks(s, Next(s, caps, e))
    ensures Landed(s, Next(s, caps, e), e.app, e.restore)
  {
    MovesStartWhere(s, e.app, TerminateOffer, OfferTerminated, Staff, AutoDecline);
    assert OfferFits(s, e.app);
    TerminationKeeps(s, e.app, e.restore);
    TerminationLands(s, e.app, e.restore);
  }

  lemma AcceptEventKeeps(s: State, caps: Caps, e: Event)
    requires Consistent(s) && Within(s, caps) && e.AcceptOffer? && Enabled(s, caps, e)
    ensures Consistent(Next(s, caps, e)) && Within(Next(s, caps, e), caps)
  {
    var a := s.apps[e.app];
    var offer := a.offer.value;
    var s1 := Cascaded(s, a, offer);
    var credits := Credits(e.overrides, AcceptanceResult(s, caps, e).applied);
    MovesStartWhere(s, e.app, Accept, Accepted, e.actor, e.expiry);
    CascadingKeeps(s, a, offer);
    ShrinkingKeepsBounds(s, s1, caps);
    UncreditedMeetsGates(s, caps, e);
    CascadingKeepsFacts(s, a, offer, caps, a.role, a.cycle, a.kind);
    assert OfferFits(s1, e.app);
    AcceptingKeeps(s1, e.app, credits);
    AcceptingStaysWithin(s1, caps, e.app, credits);
  }

  /** Every event that is not an acceptance only takes accepted offers away. */
  lemma OtherEventKeeps(s: State, caps: Caps, e: Event)
    requires Consistent(s) && !e.AcceptOffer? && Enabled(s, caps, e)
    ensures Consistent(Next(s, caps, e)) && Shrinks(s, Next(s, caps, e))
  {
    match e
    case ApplyTo(_, _, _, _, _, _) => ApplyingKeeps(s, e);
    case Extend(app, name, offer) =>
      MovesStartWhere(s, app, name, Offered, Staff, AutoDecline);
      ExtendingKeeps(s, app, offer);
    case DeclineOffer(app, actor, expiry) =>
      MovesStartWhere(s, app, Decline, Declined, actor, expiry);
      DecliningKeeps(s, app);
    case Pipeline(app, name, target, actor) =>
      MovesStartWhere(s, app, name, target, actor, AutoDecline);
      if s.apps[app].status.Offered? { EndingKeeps(s, app, target); } else { StatusMoveKeeps(s, app, target); }
    case Terminate(_, _, _) => TerminatingKeeps(s, caps, e);
    case Member(_, _, _, _) => ExitingKeeps(s, e);
    case Reinstate(app, _) =>
      MovesStartWhere(s, app, TransitionName.Reinstate, InProgress, Staff, AutoDecline);
      StatusMoveKeeps(s, app, InProgress);
  }

  lemma EventKeeps(s: State, caps: Caps, e: Event)
    requires Consistent(s) && Within(s, caps)
    ensures Consistent(Next(s, caps, e)) && Within(Next(s, caps, e), caps)
  {
    if Enabled(s, caps, e) {
      if e.AcceptOffer? {
        AcceptEventKeeps(s, caps, e);
      } else {
        OtherEventKeeps(s, caps, e);
        ShrinkingKeepsBounds(s, Next(s, caps, e), caps);
      }
    }
  }

  // ---------------------------------------------------------------- every run

  /** s is where this run of events leads from nothing; events whose guards fail change nothing. */
  predicate Leads(caps: Caps, run: seq<Event>, states: seq<State>) {
    && |states| == |run| + 1
    && states[0] == EMPTY
    && forall i | 0 <= i < |run| :: Consistent(states[i]) ==> states[i + 1] == Next(states[i], caps, run[i])
  }

  lemma {:induction false} RunKeeps(caps: Caps, run: seq<Event>, states: seq<State>, i: nat)
    requires Leads(caps, run, states) && i <= |run|
    ensures Consistent(states[i]) && Within(states[i], caps)
  {
    if i == 0 {
      assert Held(EMPTY) == {};
      forall cycle | cycle in caps ensures CapKept(EMPTY, caps, cycle) { assert UncreditedIn(EMPTY, cycle) == {}; }
      assert UncreditedPlacements(EMPTY) == {};
      forall cycle ensures |UncreditedInternships(EMPTY, cycle)| <= 1 {
        assert UncreditedInternships(EMPTY, cycle) == {};
      }
    } else {
      RunKeeps(caps, run, states, i - 1);
      EventKeeps(states[i - 1], caps, run[i - 1]);
    }
  }

  /**
   In every state of every run, whatever overrides are used: a cycle's acceptances not credited
   with a cap override stay within its cap, at most one accepted placement, and in each internship
   cycle at most one accepted internship, is not credited with an outcome override, and an
   application is accepted exactly if its offer is held.
   */
  lemma AcceptanceIsSafe(caps: Caps, run: seq<Event>, states: seq<State>, i: nat)
    requires Leads(caps, run, states) && i <= |run|
    ensures forall cycle | cycle in caps ::
              |UncreditedIn(states[i], cycle)| <= if caps[cycle] < 0 then 0 else caps[cycle]
    ensures |UncreditedPlacements(states[i])| <= 1
    ensures forall cycle :: |UncreditedInternships(states[i], cycle)| <= 1
    ensures forall id | id in states[i].apps ::
              states[i].apps[id].status.Accepted?
              <==> exists o :: o in Held(states[i]) && states[i].offers[o].application == id
  {
    RunKeeps(caps, run, states, i);
    var s := states[i];
    forall cycle | cycle in caps ensures |UncreditedIn(s, cycle)| <= if caps[cycle] < 0 then 0 else caps[cycle] {
      assert CapKept(s, caps, cycle);
    }
    forall id | id in s.apps
      ensures s.apps[id].status.Accepted? <==> exists o :: o in Held(s) && s.offers[o].application == id
    {
      if s.apps[id].status.Accepted? {
        assert OfferFits(s, id);
        assert s.apps[id].offer.value in Held(s);
      }
    }
  }

  // ---------------------------------------------------------------- memberships

  const IN_FLIGHT: set<ApplicationStatus> := {InProgress, PendingOffer}

  /** The statuses the checker's query asks an active membership for. */
  const LIVE: set<ApplicationStatus> := IN_FLIGHT + {Offered}

  /** Every application in one of these statuses belongs to an active membership. */
  predicate Backed(s: State, watched: set<ApplicationStatus>) {
    forall id | id in s.apps && s.apps[id].status in watched :: MembershipIn(s, s.apps[id].cycle).Active?
  }

  predicate OfferStandsIn(s: State, cycle: Id) {
    exists id :: id in s.apps && s.apps[id].cycle == cycle && s.apps[id].status.Offered?
  }

  predicate LacksMembership(s: State, app: Id) {
    app in s.apps && !MembershipIn(s, s.apps[app].cycle).Active?
  }

  /** The termination puts somebody whose membership is over back into one of these statuses. */
  predicate RestoresOutsider(s: State, e: Event, watched: set<ApplicationStatus>)
    requires e.Terminate?
  {
    exists id :: id in e.restore && LacksMembership(s, id) && Before(s, e.app, id) in watched
  }

  /** What the cascade of this application's offer says the other one was. */
  function Before(s: State, app: Id, id: Id): ApplicationStatus {
    if app in s.apps && s.apps[app].offer.Some? && s.apps[app].offer.value in s.cascades
       && id in s.cascades[s.apps[app].offer.value] then s.cascades[s.apps[app].offer.value][id]
    else Declined
  }

  /**
   The moves that leave an application in one of these statuses without a membership: leaving or being
   removed while an offer of the cycle stands, an offer re-extended to someone whose membership is over,
   and a termination that restores such a person's application.
   */
  predicate Breaks(s: State, e: Event, watched: set<ApplicationStatus>) {
    match e
    case Member(cycle, step, _, _) => Offered in watched && MembershipRow(step).cascades && OfferStandsIn(s, cycle)
    case Extend(app, _, _) => Offered in watched && LacksMembership(s, app)
    case Terminate(_, _, _) => RestoresOutsider(s, e, watched)
    case _ => false
  }

  /** The event cannot happen now, or is not one of those moves. */
  predicate Harmless(s: State, caps: Caps, e: Event, watched: set<ApplicationStatus>) {
    Enabled(s, caps, e) ==> !Breaks(s, e, watched)
  }

  predicate IsWatch(watched: set<ApplicationStatus>) {
    watched == IN_FLIGHT || watched == LIVE
  }

  lemma MemberBreaksIff(s: State, e: Event, watched: set<ApplicationStatus>)
    requires e.Member? && Backed(s, watched) && IsWatch(watched)
    requires var origin := if e.cycle in s.memberships then Some(s.memberships[e.cycle]) else None;
             DecideMembership(e.step, origin, e.actor, e.hasReason).Allowed?
    ensures Backed(MemberMoved(s, e), watched) <==> !Breaks(s, e, watched)
  {
    var s' := MemberMoved(s, e);
    if MembershipIn(s, e.cycle).Active? { LeavingActiveCascades(e.step, e.actor, e.hasReason); }
    if Breaks(s, e, watched) {
      var id :| id in s.apps && s.apps[id].cycle == e.cycle && s.apps[id].status.Offered?;
      assert s'.apps[id] == s.apps[id] && !MembershipIn(s', e.cycle).Active?;
    } else {
      forall id | id in s'.apps && s'.apps[id].status in watched ensures MembershipIn(s', s'.apps[id].cycle).Active? {
        assert s'.apps[id] == s.apps[id];
      }
    }
  }

  /** One application moves to this status, in its cycle. */
  lemma ArrivalBreaksIff(s: State, s': State, app: Id, watched: set<ApplicationStatus>)
    requires Backed(s, watched) && app in s.apps && s'.memberships == s.memberships
    requires app in s'.apps && s'.apps == s.apps[app := s'.apps[app]] && s'.apps[app].cycle == s.apps[app].cycle
    ensures Backed(s', watched) <==> !(s'.apps[app].status in watched && LacksMembership(s, app))
  {
    forall id | id in s'.apps && id != app ensures id in s.apps && s'.apps[id] == s.apps[id] {}
  }

  /** No membership changed and nobody new is in one of these statuses. */
  predicate Fewer(s: State, s': State, watched: set<ApplicationStatus>) {
    && s'.memberships == s.memberships
    && forall id | id in s'.apps && s'.apps[id].status in watched ::
         id in s.apps && s.apps[id].status in watched && s'.apps[id].cycle == s.apps[id].cycle
  }

  lemma AcceptingLeavesFewer(s: State, app: Id, credits: set<RuleDomain>, watched: set<ApplicationStatus>)
    requires Consistent(s) && app in s.apps && s.apps[app].status.Offered? && OfferFits(s, app) && IsWatch(watched)
    ensures var s1 := Cascaded(s, s.apps[app], s.apps[app].offer.value);
            && app in s1.apps && s1.apps[app] == s.apps[app]
            && s.apps[app].offer.value in s1.offers
            && Fewer(s, Answered(s1, app, AcceptedOffer, credits), watched)
  {
  }

  lemma AnswersLeaveFewer(s: State, caps: Caps, e: Event, watched: set<ApplicationStatus>)
    requires Consistent(s) && Enabled(s, caps, e) && IsWatch(watched)
    requires e.AcceptOffer? || e.DeclineOffer? || e.Pipeline?
    ensures Fewer(s, Next(s, caps, e), watched)
  {
    match e
    case AcceptOffer(app, actor, expiry, _, _, overrides) =>
      MovesStartWhere(s, app, Accept, Accepted, actor, expiry);
      assert OfferFits(s, app);
      AcceptingLeavesFewer(s, app, Credits(overrides, AcceptanceResult(s, caps, e).applied), watched);
    case Pipeline(app, name, target, actor) => MovesStartWhere(s, app, name, target, actor, AutoDecline);
    case DeclineOffer(_, _, _) =>
  }

  lemma LandingBreaksIff(s: State, s': State, e: Event, watched: set<ApplicationStatus>)
    requires e.Terminate? && Landed(s, s', e.app, e.restore) && Backed(s, watched) && IsWatch(watched)
    ensures Backed(s', watched) <==> !RestoresOutsider(s, e, watched)
  {
    if RestoresOutsider(s, e, watched) {
      var id :| id in e.restore && LacksMembership(s, id) && Before(s, e.app, id) in watched;
      assert s'.apps[id].status in watched;
    } else {
      forall id | id in s'.apps && s'.apps[id].status in watched ensures MembershipIn(s', s'.apps[id].cycle).Active? {
        if id in e.restore { assert Before(s, e.app, id) in watched; }
      }
    }
  }

  lemma ApplyingStaysBacked(s: State, caps: Caps, e: Event, watched: set<ApplicationStatus>)
    requires Backed(s, watched) && e.ApplyTo? && Enabled(s, caps, e)
    ensures Backed(Applied(s, e), watched)
  {
    GatesPassIff(FactsOn(s, caps, e), e.overrides);
  }

  lemma OfferBreaksIff(s: State, caps: Caps, e: Event, watched: set<ApplicationStatus>)
    requires Consistent(s) && e.Extend? && Enabled(s, caps, e) && Backed(s, watched) && IsWatch(watched)
    ensures Backed(Next(s, caps, e), watched) <==> !Breaks(s, e, watched)
  {
    ArrivalBreaksIff(s, Next(s, caps, e), e.app, watched);
  }

  lemma ReinstatingStaysBacked(s: State, caps: Caps, e: Event, watched: set<ApplicationStatus>)
    requires Consistent(s) && e.Reinstate? && Enabled(s, caps, e) && Backed(s, watched)
    ensures Backed(Next(s, caps, e), watched)
  {
    ArrivalBreaksIff(s, Next(s, caps, e), e.app, watched);
  }

  /** From a state where these statuses are backed, a step leads to one where they are not exactly by such a move. */
  lemma StepBreaksIff(s: State, caps: Caps, e: Event, watched: set<ApplicationStatus>)
    requires Consistent(s) && Backed(s, watched) && Enabled(s, caps, e) && IsWatch(watched)
    ensures Backed(Next(s, caps, e), watched) <==> !Breaks(s, e, watched)
  {
    match e
    case ApplyTo(_, _, _, _, _, _) => ApplyingStaysBacked(s, caps, e, watched);
    case Member(_, _, _, _) => MemberBreaksIff(s, e, watched);
    case Extend(_, _, _) => OfferBreaksIff(s, caps, e, watched);
    case Reinstate(_, _) => ReinstatingStaysBacked(s, caps, e, watched);
    case Terminate(_, _, _) =>
      TerminatingKeeps(s, caps, e);
      LandingBreaksIff(s, Next(s, caps, e), e, watched);
    case _ => AnswersLeaveFewer(s, caps, e, watched);
  }

  /** Up to here every state has these statuses backed. */
  predicate BackedUpTo(states: seq<State>, i: nat, watched: set<ApplicationStatus>)
    requires i < |states|
  {
    forall j | 0 <= j <= i :: Backed(states[j], watched)
  }

  predicate HarmlessUpTo(caps: Caps, run: seq<Event>, states: seq<State>, i: nat, watched: set<ApplicationStatus>)
    requires i <= |run| <= |states|
  {
    forall j | 0 <= j < i :: Harmless(states[j], caps, run[j], watched)
  }

  lemma RunStepBreaksIff(caps: Caps, run: seq<Event>, states: seq<State>, i: nat, watched: set<ApplicationStatus>)
    requires Leads(caps, run, states) && i < |run| && IsWatch(watched) && Backed(states[i], watched)
    ensures Backed(states[i + 1], watched) <==> Harmless(states[i], caps, run[i], watched)
  {
    RunKeeps(caps, run, states, i);
    if Enabled(states[i], caps, run[i]) { StepBreaksIff(states[i], caps, run[i], watched); }
  }

  lemma {:induction false} StaysBacked(caps: Caps, run: seq<Event>, states: seq<State>, i: nat,
                                       watched: set<ApplicationStatus>)
    requires Leads(caps, run, states) && i <= |run| && IsWatch(watched)
    requires HarmlessUpTo(caps, run, states, i, watched)
    ensures Backed(states[i], watched)
  {
    if i > 0 {
      StaysBacked(caps, run, states, i - 1, watched);
      RunStepBreaksIff(caps, run, states, i - 1, watched);
    }
  }

  lemma RunBreaksIff(caps: Caps, run: seq<Event>, states: seq<State>, i: nat, watched: set<ApplicationStatus>)
    requires Leads(caps, run, states) && i <= |run| && IsWatch(watched)
    ensures BackedUpTo(states, i, watched) <==> HarmlessUpTo(caps, run, states, i, watched)
  {
    if HarmlessUpTo(caps, run, states, i, watched) {
      forall j | 0 <= j <= i ensures Backed(states[j], watched) { StaysBacked(caps, run, states, j, watched); }
    }
    if BackedUpTo(states, i, watched) {
      forall j | 0 <= j < i ensures Harmless(states[j], caps, run[j], watched) {
        assert Backed(states[j], watched) && Backed(states[j + 1], watched);
        RunStepBreaksIff(caps, run, states, j, watched);
      }
    }
  }

  /**
   The checker's query over whole runs: it finds nothing up to some point exactly if, up to there, nobody
   left a cycle with an offer standing in it and nobody without an active membership was re-extended an
   offer or restored after a termination.
   */
  lemma LiveHasMembershipIff(caps: Caps, run: seq<Event>, states: seq<State>, i: nat)
    requires Leads(caps, run, states) && i <= |run|
    ensures BackedUpTo(states, i, LIVE) <==> HarmlessUpTo(caps, run, states, i, LIVE)
  {
    RunBreaksIff(caps, run, states, i, LIVE);
  }

  /**
   An application in progress or awaiting an offer has always had an active membership behind it exactly if
   no termination restored one to those statuses for somebody whose membership was over.
   */
  lemma InFlightHasMembership(caps: Caps, run: seq<Event>, states: seq<State>, i: nat)
    requires Leads(caps, run, states) && i <= |run|
    ensures BackedUpTo(states, i, IN_FLIGHT)
       <==> forall j | 0 <= j < i && run[j].Terminate? && Enabled(states[j], caps, run[j]) ::
              !RestoresOutsider(states[j], run[j], IN_FLIGHT)
  {
    RunBreaksIff(caps, run, states, i, IN_FLIGHT);
    forall j | 0 <= j < i
      ensures Harmless(states[j], caps, run[j], IN_FLIGHT) <==>
                (run[j].Terminate? && Enabled(states[j], caps, run[j]) ==>
                   !RestoresOutsider(states[j], run[j], IN_FLIGHT))
    {}
  }

  // ---------------------------------------------------------------- a run that strands an offer and an application

  /** A published job's gates with nothing against applying. */
  const OPEN_JOB := GateContext(Active, true, false, false, None, 0, false, false, false,
                               Constraints(Placement, PlacementCycle, false, false, None, 0))

  const JOINING := Member(1, JoinActive, Student, false)
  const APPLYING := ApplyTo(7, Placement, 1, PlacementCycle, OPEN_JOB, [])
  const APPLYING_AGAIN := ApplyTo(8, Placement, 1, PlacementCycle, OPEN_JOB, [])
  const OFFERING := Extend(7, ExtendOffer, 9)
  const LEAVING := Member(1, Leave, Student, false)
  const ACCEPTING := AcceptOffer(7, Student, AutoDecline, 0, None, [])
  const TERMINATING := Terminate(7, map[8 := 10], {})

  const WAITING := App(7, InProgress, Placement, 1, PlacementCycle, None, None)
  const OTHER := App(8, InProgress, Placement, 1, PlacementCycle, None, None)
  const HOLDING := WAITING.(status := Offered, offer := Some(9))
  const OPEN_OFFER := OfferRow(7, None, false, {})
  const TAKEN_OFFER := OfferRow(7, Some(AcceptedOffer), false, {})
  const MEMBER: map<Id, MembershipStatus> := map[1 := Active]
  const MEMORY: map<Id, map<Id, LiveStatus>> := map[9 := map[8 := InProgress]]

  const JOINED := State(map[], map[], MEMBER, map[])
  const APPLIED := State(map[7 := WAITING], map[], MEMBER, map[])
  const APPLIED_TWICE := State(map[7 := WAITING, 8 := OTHER], map[], MEMBER, map[])
  const OFFERED := State(map[7 := HOLDING, 8 := OTHER], map[9 := OPEN_OFFER], MEMBER, map[])
  const OFFERED_ONLY :=
    State(map[7 := HOLDING, 8 := OTHER.(status := AutoWithdrawn)], map[9 := OPEN_OFFER], map[1 := LeftCycle], map[])
  const CASCADED :=
    State(map[7 := HOLDING, 8 := OTHER.(status := AutoWithdrawn)], map[9 := OPEN_OFFER], MEMBER, MEMORY)
  const PLACED :=
    State(map[7 := HOLDING.(status := Accepted), 8 := OTHER.(status := AutoWithdrawn)], map[9 := TAKEN_OFFER],
          MEMBER, MEMORY)
  const LEFT := PLACED.(memberships := map[1 := LeftCycle])
  const ENDED :=
    State(map[7 := HOLDING.(status := OfferTerminated), 8 := OTHER.(status := AutoWithdrawn)],
          map[9 := TAKEN_OFFER.(terminated := true)], map[1 := LeftCycle], MEMORY)
  const STRANDED := ENDED.(apps := map[7 := HOLDING.(status := OfferTerminated), 8 := OTHER])

  /** The event leads from one consistent state to the other, no caps being set. */
  predicate Steps(s: State, e: Event, s': State) {
    Consistent(s) && Next(s, map[], e) == s'
  }

  lemma Joins()
    ensures Steps(EMPTY, JOINING, JOINED)
  {
    assert Held(EMPTY) == {};
  }

  lemma Applies()
    ensures Steps(JOINED, APPLYING, APPLIED)
  {
    assert Held(JOINED) == {};
    GatesPassIff(FactsOn(JOINED, map[], APPLYING), []);
  }

  lemma AppliesAgain()
    ensures Steps(APPLIED, APPLYING_AGAIN, APPLIED_TWICE)
  {
    assert Held(APPLIED) == {};
    GatesPassIff(FactsOn(APPLIED, map[], APPLYING_AGAIN), []);
  }

  lemma IsOffered()
    ensures Steps(APPLIED_TWICE, OFFERING, OFFERED)
  {
    assert Held(APPLIED_TWICE) == {};
  }

  lemma OfferedIsConsistent()
    ensures Consistent(OFFERED) && Held(OFFERED) == {}
  {
    assert OfferFits(OFFERED, 7);
  }

  lemma LeavesOffered()
    ensures Steps(OFFERED, LEAVING, OFFERED_ONLY)
  {
    OfferedIsConsistent();
    assert Exited(OFFERED.(memberships := map[1 := LeftCycle]), 1) == OFFERED_ONLY;
  }

  lemma MayAccept()
    ensures AcceptanceResult(OFFERED, map[], ACCEPTING) == GateResult([], [])
    ensures Enabled(OFFERED, map[], ACCEPTING)
  {
    OfferedIsConsistent();
    assert HeldPlacements(OFFERED) == {};
  }

  lemma CascadeWithdraws()
    ensures Cascaded(OFFERED, HOLDING, 9) == CASCADED
  {
    assert Moves(HOLDING, OTHER) && !Moves(HOLDING, HOLDING);
    assert MovedBy(OFFERED, HOLDING) == map[8 := InProgress];
  }

  lemma AnswerPlaces()
    ensures Answered(CASCADED, 7, AcceptedOffer, {}) == PLACED
  {
  }

  lemma Accepts()
    ensures Steps(OFFERED, ACCEPTING, PLACED)
  {
    OfferedIsConsistent();
    MayAccept();
    CascadeWithdraws();
    assert Credits([], []) == {};
    AnswerPlaces();
  }

  lemma PlacedIsConsistent(memberships: map<Id, MembershipStatus>)
    ensures Consistent(PLACED.(memberships := memberships))
  {
    var s := PLACED.(memberships := memberships);
    assert Held(s) == {9};
    assert OfferFits(s, 7);
  }

  lemma LeavesPlaced()
    ensures Steps(PLACED, LEAVING, LEFT)
  {
    PlacedIsConsistent(MEMBER);
    assert Exited(LEFT, 1) == LEFT;
  }

  lemma TerminationEnds()
    ensures OfferEnded(LEFT, 7, OfferTerminated) == ENDED
  {
  }

  lemma RestorationStrands()
    requires Restorable(ENDED, 9, map[8 := 10])
    ensures Restored(ENDED, 9, map[8 := 10]) == STRANDED
  {
    var s' := Restored(ENDED, 9, map[8 := 10]);
    assert s'.apps == STRANDED.apps;
    assert s'.offers == STRANDED.offers;
  }

  lemma MayTerminate()
    ensures Enabled(LEFT, map[], TERMINATING)
  {
  }

  lemma IsRestored()
    ensures Steps(LEFT, TERMINATING, STRANDED)
  {
    PlacedIsConsistent(map[1 := LeftCycle]);
    MayTerminate();
    EndingKeepsCandidates(LEFT, 7, map[8 := 10]);
    TerminationEnds();
    RestorationStrands();
  }

  lemma LeadsOn(run: seq<Event>, states: seq<State>, e: Event, s: State)
    requires Leads(map[], run, states) && Steps(states[|run|], e, s)
    ensures Leads(map[], run + [e], states + [s])
  {
  }

  const UP_TO_OFFER := [] + [JOINING] + [APPLYING] + [APPLYING_AGAIN] + [OFFERING]
  const OFFER_STATES := [EMPTY] + [JOINED] + [APPLIED] + [APPLIED_TWICE] + [OFFERED]

  lemma ReachesOffer()
    ensures Leads(map[], UP_TO_OFFER, OFFER_STATES)
  {
    Joins();
    LeadsOn([], [EMPTY], JOINING, JOINED);
    Applies();
    LeadsOn([] + [JOINING], [EMPTY] + [JOINED], APPLYING, APPLIED);
    AppliesAgain();
    LeadsOn([] + [JOINING] + [APPLYING], [EMPTY] + [JOINED] + [APPLIED], APPLYING_AGAIN, APPLIED_TWICE);
    IsOffered();
    LeadsOn([] + [JOINING] + [APPLYING] + [APPLYING_AGAIN], [EMPTY] + [JOINED] + [APPLIED] + [APPLIED_TWICE],
            OFFERING, OFFERED);
  }

  /** An exit leaves an offer standing: this run ends with an `offered` application whose membership is over. */
  lemma OfferedOutlivesMembership()
    ensures Leads(map[], UP_TO_OFFER + [LEAVING], OFFER_STATES + [OFFERED_ONLY])
    ensures OFFERED_ONLY.apps[7].status == Offered && !MembershipIn(OFFERED_ONLY, 1).Active?
  {
    ReachesOffer();
    LeavesOffered();
    LeadsOn(UP_TO_OFFER, OFFER_STATES, LEAVING, OFFERED_ONLY);
  }

  /** A restoration does not look at memberships: this run ends with one in progress whose membership is over. */
  lemma RestorationOutlivesMembership()
    ensures Leads(map[], UP_TO_OFFER + [ACCEPTING] + [LEAVING] + [TERMINATING],
                  OFFER_STATES + [PLACED] + [LEFT] + [STRANDED])
    ensures STRANDED.apps[8].status == InProgress && !MembershipIn(STRANDED, 1).Active?
  {
    ReachesOffer();
    Accepts();
    LeadsOn(UP_TO_OFFER, OFFER_STATES, ACCEPTING, PLACED);
    LeavesPlaced();
    LeadsOn(UP_TO_OFFER + [ACCEPTING], OFFER_STATES + [PLACED], LEAVING, LEFT);
    IsRestored();
    LeadsOn(UP_TO_OFFER + [ACCEPTING] + [LEAVING], OFFER_STATES + [PLACED] + [LEFT], TERMINATING, STRANDED);
  }
}
