/** Reconstructing what an acceptance moved (backend/app/domain/transitions.py:401-460). */
module Restore {
  import opened Common
  import opened Domain
  import opened Cascade
  import P = Plans

  /** `cause` is the payload's acceptance_offer_id, if it has one. */
  datatype HistoryItem = HistoryItem(sequence: int, application: Id, eventType: P.EventType,
                                     fromStatus: Option<ApplicationStatus>, toStatus: Option<ApplicationStatus>,
                                     fromRound: Option<Id>, cause: Option<Id>)

  datatype RestoreCandidate = RestoreCandidate(application: Id, currentStatus: ApplicationStatus,
                                               restoreStatus: ApplicationStatus, restoreRound: Option<Id>,
                                               requiresFreshOffer: bool)

  predicate IsCausal(e: HistoryItem, offer: Id) {
    e.cause == Some(offer) && (e.eventType.AutoDeclined? || e.eventType.AutoWithdrawn?)
  }

  function Noted(latest: map<Id, HistoryItem>, e: HistoryItem, offer: Id): map<Id, HistoryItem> {
    if IsCausal(e, offer) && (e.application !in latest || e.sequence > latest[e.application].sequence)
    then latest[e.application := e]
    else latest
  }

  /** The latest event of this acceptance, by application. */
  function Latest(history: seq<HistoryItem>, offer: Id): map<Id, HistoryItem> {
    if history == [] then map[] else Noted(Latest(history[..|history| - 1], offer), history[|history| - 1], offer)
  }

  function CandidateOf(e: HistoryItem, current: map<Id, ApplicationStatus>): seq<RestoreCandidate> {
    if e.application !in current || e.toStatus != Some(current[e.application]) || e.fromStatus.None? then []
    else if e.eventType.AutoDeclined? then
      [RestoreCandidate(e.application, current[e.application], Offered, e.fromRound, true)]
    else [RestoreCandidate(e.application, current[e.application], e.fromStatus.value, e.fromRound, false)]
  }

  // ---------------------------------------------------------------- iterating a table in id order

  lemma {:induction false} LeastExists(ids: set<Id>) returns (m: Id)
    requires ids != {}
    ensures m in ids && forall x | x in ids :: m <= x
  {
    m :| m in ids;
    var rest := ids - {m};
    assert forall x | x in ids :: x == m || x in rest;
    if rest != {} {
      var least := LeastExists(rest);
      if least < m { m := least; }
    }
  }

  function Least(ids: set<Id>): (m: Id)
    requires ids != {}
    ensures m in ids && forall x | x in ids :: m <= x
  {
    var _ := LeastIsThere(ids);
    var m :| m in ids && forall x | x in ids :: m <= x;
    m
  }

  function LeastIsThere(ids: set<Id>): bool
    requires ids != {}
    ensures exists m :: m in ids && forall x | x in ids :: m <= x
  {
    assert exists m :: m in ids && forall x | x in ids :: m <= x by {
      var m := LeastExists(ids);
    }
    true
  }

  /** `sorted(latest.items())` by id. */
  function InOrder(ids: set<Id>): seq<Id> {
    if ids == {} then [] else [Least(ids)] + InOrder(ids - {Least(ids)})
  }

  lemma {:induction false} InOrderIs(ids: set<Id>)
    ensures forall x :: x in InOrder(ids) <==> x in ids
    ensures forall i, j | 0 <= i < j < |InOrder(ids)| :: InOrder(ids)[i] < InOrder(ids)[j]
  {
    if ids != {} {
      var m := Least(ids);
      InOrderIs(ids - {m});
      forall j | 0 <= j < |InOrder(ids - {m})| ensures m < InOrder(ids - {m})[j] {
        assert InOrder(ids - {m})[j] in ids - {m};
      }
    }
  }

  function CandidatesFor(ids: seq<Id>, latest: map<Id, HistoryItem>,
                         current: map<Id, ApplicationStatus>): seq<RestoreCandidate>
    requires forall id | id in ids :: id in latest
  {
    if ids == [] then []
    else CandidatesFor(ids[..|ids| - 1], latest, current) + CandidateOf(latest[ids[|ids| - 1]], current)
  }

  function RestoreCandidates(offer: Id, history: seq<HistoryItem>,
                             current: map<Id, ApplicationStatus>): seq<RestoreCandidate> {
    var latest := Latest(history, offer);
    InOrderIs(latest.Keys);
    CandidatesFor(InOrder(latest.Keys), latest, current)
  }

  /** The loop that keeps the latest event of each application. */
  method NoteLatest(offer: Id, history: seq<HistoryItem>) returns (latest: map<Id, HistoryItem>)
    ensures latest == Latest(history, offer)
  {
    latest := map[];
    for i := 0 to |history|
      invariant latest == Latest(history[..i], offer)
    {
      var e := history[i];
      assert history[..i + 1][..i] == history[..i];
      if e.cause != Some(offer) { continue; }
      if !e.eventType.AutoDeclined? && !e.eventType.AutoWithdrawn? { continue; }
      if e.application !in latest || e.sequence > latest[e.application].sequence {
        latest := latest[e.application := e];
      }
    }
    assert history[..|history|] == history;
  }

  method ComputeRestoreCandidates(offer: Id, history: seq<HistoryItem>, current: map<Id, ApplicationStatus>)
    returns (candidates: seq<RestoreCandidate>)
    ensures candidates == RestoreCandidates(offer, history, current)
  {
    var latest := NoteLatest(offer, history);
    InOrderIs(latest.Keys);
    var ids := InOrder(latest.Keys);
    candidates := [];
    for i := 0 to |ids|
      invariant candidates == CandidatesFor(ids[..i], latest, current)
    {
      assert ids[..i + 1][..i] == ids[..i];
      assert ids[i] in ids;
      var e := latest[ids[i]];
      if e.application !in current || e.toStatus != Some(current[e.application]) || e.fromStatus.None? { continue; }
      var now := current[e.application];
      if e.eventType.AutoDeclined? {
        candidates := candidates + [RestoreCandidate(e.application, now, Offered, e.fromRound, true)];
      } else {
        candidates := candidates + [RestoreCandidate(e.application, now, e.fromStatus.value, e.fromRound, false)];
      }
    }
    assert ids[..|ids|] == ids;
  }

  // ---------------------------------------------------------------- what is reconstructed

  /** An application's entry is a causal event of its own ... */
  lemma {:induction false} LatestIsCausal(history: seq<HistoryItem>, offer: Id, id: Id)
    requires id in Latest(history, offer)
    ensures var e := Latest(history, offer)[id]; e in history && IsCausal(e, offer) && e.application == id
  {
    var before, last := history[..|history| - 1], history[|history| - 1];
    assert history == before + [last];
    if id in Latest(before, offer) { LatestIsCausal(before, offer, id); }
  }

  /** ... and none of its causal events has a greater sequence number. */
  lemma {:induction false} LatestIsLatest(history: seq<HistoryItem>, offer: Id, e: HistoryItem)
    requires e in history && IsCausal(e, offer)
    ensures e.application in Latest(history, offer) && e.sequence <= Latest(history, offer)[e.application].sequence
  {
    var before, last := history[..|history| - 1], history[|history| - 1];
    assert history == before + [last];
    if e in before { LatestIsLatest(before, offer, e); }
  }

  lemma {:induction false} CandidatesAre(ids: seq<Id>, latest: map<Id, HistoryItem>,
                                         current: map<Id, ApplicationStatus>)
    requires forall id | id in ids :: id in latest && latest[id].application == id
    ensures forall c :: c in CandidatesFor(ids, latest, current) <==>
              c.application in ids && c in CandidateOf(latest[c.application], current)
  {
    if ids != [] {
      var before, last := ids[..|ids| - 1], ids[|ids| - 1];
      assert ids == before + [last];
      CandidatesAre(before, latest, current);
      forall c ensures c in CandidatesFor(ids, latest, current) <==>
                       c.application in ids && c in CandidateOf(latest[c.application], current)
      {
        assert c in CandidateOf(latest[last], current) ==> c.application == last;
      }
    }
  }

  /**
   In terms of the history alone: one candidate for each application still where its latest move of this acceptance put
   it.
   */
  lemma RestorationIs(offer: Id, history: seq<HistoryItem>, current: map<Id, ApplicationStatus>)
    ensures var latest := Latest(history, offer);
            forall c :: c in RestoreCandidates(offer, history, current) <==>
              c.application in latest && c in CandidateOf(latest[c.application], current)
  {
    var latest := Latest(history, offer);
    forall id | id in latest ensures latest[id].application == id { LatestIsCausal(history, offer, id); }
    InOrderIs(latest.Keys);
    CandidatesAre(InOrder(latest.Keys), latest, current);
  }

  /** Ascending ids, so no application is listed twice. */
  ghost predicate InIdOrder(candidates: seq<RestoreCandidate>) {
    forall i, j | 0 <= i < j < |candidates| :: candidates[i].application < candidates[j].application
  }

  lemma InIdOrderOn(earlier: seq<RestoreCandidate>, mine: seq<RestoreCandidate>, x: Id)
    requires InIdOrder(earlier) && |mine| <= 1 && (mine != [] ==> mine[0].application == x)
    requires forall c | c in earlier :: c.application < x
    ensures InIdOrder(earlier + mine)
  {
  }

  lemma {:induction false} CandidatesAscend(ids: seq<Id>, latest: map<Id, HistoryItem>,
                                            current: map<Id, ApplicationStatus>)
    requires forall id | id in ids :: id in latest && latest[id].application == id
    requires forall i, j | 0 <= i < j < |ids| :: ids[i] < ids[j]
    ensures InIdOrder(CandidatesFor(ids, latest, current))
  {
    if ids != [] {
      var before, last := ids[..|ids| - 1], ids[|ids| - 1];
      CandidatesAscend(before, latest, current);
      CandidatesAre(before, latest, current);
      InIdOrderOn(CandidatesFor(before, latest, current), CandidateOf(latest[last], current), last);
    }
  }

  /** The candidates come in the order of their applications' ids, one for each; `RestorationIs` says which. */
  lemma RestorationOrder(offer: Id, history: seq<HistoryItem>, current: map<Id, ApplicationStatus>)
    ensures InIdOrder(RestoreCandidates(offer, history, current))
  {
    var latest := Latest(history, offer);
    forall id | id in latest ensures latest[id].application == id { LatestIsCausal(history, offer, id); }
    InOrderIs(latest.Keys);
    CandidatesAscend(InOrder(latest.Keys), latest, current);
  }

  // ---------------------------------------------------------------- restoring a cascade

  /** The event rows the cascade's actions are recorded as, from this sequence number on. */
  function Recorded(actions: seq<CascadeAction>, first: int): seq<HistoryItem> {
    seq(|actions|, i requires 0 <= i < |actions| =>
      HistoryItem(first + i, actions[i].application, actions[i].eventType, Some(actions[i].fromStatus),
                  Some(actions[i].toStatus), actions[i].fromRound, Some(actions[i].cause.acceptanceOffer)))
  }

  /** No event outside the cascade names this acceptance. */
  ghost predicate Unrelated(events: seq<HistoryItem>, offer: Id) {
    forall e | e in events :: e.cause != Some(offer)
  }

  /** The restoration of an application the acceptance moved. */
  function Undoing(before: App): RestoreCandidate {
    RestoreCandidate(before.id, MovedStatus(before.status), before.status, before.round, before.status.Offered?)
  }

  /** The one event that records this application's move. */
  ghost predicate MoveEvent(e: HistoryItem, before: App, offer: Id) {
    && e.application == before.id
    && e.eventType == (if before.status.Offered? then P.AutoDeclined else P.AutoWithdrawn)
    && e.fromStatus == Some(before.status) && e.toStatus == Some(MovedStatus(before.status))
    && e.fromRound == before.round && e.cause == Some(offer)
  }

  lemma RecordedMoves(apps: Apps, accepted: App, others: seq<App>, offer: Id, first: int)
    requires Cascade.Keyed(apps) && Snapshot(apps, others)
    ensures var events := Recorded(AcceptanceCascade(accepted, others, offer), first);
            && (forall e | e in events ::
                  e.application in apps && Moves(accepted, apps[e.application])
                  && MoveEvent(e, apps[e.application], offer))
            && forall id | id in apps && Moves(accepted, apps[id]) ::
                 exists e :: e in events && MoveEvent(e, apps[id], offer)
  {
    var actions := AcceptanceCascade(accepted, others, offer);
    var events := Recorded(actions, first);
    CascadeContents(apps, accepted, others, offer);
    forall e | e in events
      ensures e.application in apps && Moves(accepted, apps[e.application]) && MoveEvent(e, apps[e.application], offer)
    {
      var i :| 0 <= i < |events| && events[i] == e;
      assert actions[i] in actions;
    }
    forall id | id in apps && Moves(accepted, apps[id])
      ensures exists e :: e in events && MoveEvent(e, apps[id], offer)
    {
      assert Moving(accepted, apps[id], offer) in actions;
      var i :| 0 <= i < |actions| && actions[i] == Moving(accepted, apps[id], offer);
      assert MoveEvent(events[i], apps[id], offer);
    }
  }

  lemma LatestOfCascade(apps: Apps, accepted: App, others: seq<App>, offer: Id, earlier: seq<HistoryItem>, first: int,
                        later: seq<HistoryItem>)
    requires Cascade.Keyed(apps) && Snapshot(apps, others) && Unrelated(earlier, offer) && Unrelated(later, offer)
    ensures var latest := Latest(earlier + Recorded(AcceptanceCascade(accepted, others, offer), first) + later, offer);
            && (forall id :: id in latest <==> id in apps && Moves(accepted, apps[id]))
            && forall id | id in latest :: MoveEvent(latest[id], apps[id], offer)
  {
    var events := Recorded(AcceptanceCascade(accepted, others, offer), first);
    var history := earlier + events + later;
    RecordedMoves(apps, accepted, others, offer, first);
    var latest := Latest(history, offer);
    forall id | id in apps && Moves(accepted, apps[id]) ensures id in latest {
      var e :| e in events && MoveEvent(e, apps[id], offer);
      InOneOf(earlier, events, later, e);
      LatestIsLatest(history, offer, e);
    }
    forall id | id in latest ensures id in apps && Moves(accepted, apps[id]) && MoveEvent(latest[id], apps[id], offer) {
      LatestIsCausal(history, offer, id);
      InOneOf(earlier, events, later, latest[id]);
    }
  }

  lemma InOneOf(a: seq<HistoryItem>, b: seq<HistoryItem>, c: seq<HistoryItem>, e: HistoryItem)
    ensures e in a + b + c <==> e in a || e in b || e in c
  {
  }

  /**
   Whatever has happened since, the candidates for an acceptance are exactly the applications it
   moved that are still where it left them, each with the status and round it had before; a fresh
   offer is needed exactly if it had one.
   */
  lemma RestoreUndoesCascade(apps: Apps, accepted: App, others: seq<App>, offer: Id, earlier: seq<HistoryItem>,
                             first: int, later: seq<HistoryItem>, current: map<Id, ApplicationStatus>)
    requires Cascade.Keyed(apps) && Snapshot(apps, others) && Unrelated(earlier, offer) && Unrelated(later, offer)
    ensures var history := earlier + Recorded(AcceptanceCascade(accepted, others, offer), first) + later;
            forall c :: c in RestoreCandidates(offer, history, current) <==>
              && c.application in apps && Moves(accepted, apps[c.application])
              && c.application in current && current[c.application] == MovedStatus(apps[c.application].status)
              && c == Undoing(apps[c.application])
  {
    var history := earlier + Recorded(AcceptanceCascade(accepted, others, offer), first) + later;
    var latest := Latest(history, offer);
    RestorationIs(offer, history, current);
    LatestOfCascade(apps, accepted, others, offer, earlier, first, later);
    forall c ensures c in RestoreCandidates(offer, history, current) <==>
              && c.application in apps && Moves(accepted, apps[c.application])
              && c.application in current && current[c.application] == MovedStatus(apps[c.application].status)
              && c == Undoing(apps[c.application])
    {
      if c.application in latest { CandidateIsUndoing(latest[c.application], apps[c.application], offer, current, c); }
    }
  }

  lemma CandidateIsUndoing(e: HistoryItem, before: App, offer: Id, current: map<Id, ApplicationStatus>,
                           c: RestoreCandidate)
    requires MoveEvent(e, before, offer)
    ensures c in CandidateOf(e, current) <==>
              before.id in current && current[before.id] == MovedStatus(before.status) && c == Undoing(before)
  {
  }

  /** Right after the cascade every moved application is a candidate, and nothing else is. */
  lemma RestoreRightAfter(apps: Apps, accepted: App, others: seq<App>, offer: Id, earlier: seq<HistoryItem>, first: int)
    requires Cascade.Keyed(apps) && Snapshot(apps, others) && Unrelated(earlier, offer)
    ensures var actions := AcceptanceCascade(accepted, others, offer);
            var after := Perform(apps, actions);
            var current := map id | id in after :: after[id].status;
            forall c :: c in RestoreCandidates(offer, earlier + Recorded(actions, first) + [], current) <==>
              c.application in apps && Moves(accepted, apps[c.application]) && c == Undoing(apps[c.application])
  {
    var after := Perform(apps, AcceptanceCascade(accepted, others, offer));
    CascadeSettles(apps, accepted, others, offer);
    RestoreUndoesCascade(apps, accepted, others, offer, earlier, first, [], map id | id in after :: after[id].status);
  }
}
