/**
 The offer-expiry task protocol: the decision (backend/app/domain/transitions.py:463-529) and the
 tasks that carry it (backend/app/modules/offers/expiry.py, backend/app/modules/jobs/commands.py).
 */
module Expiry {
  import opened Common
  import opened Domain
  import T = Transitions

  datatype Offer = Offer(kind: CycleKind, latest: bool, status: ApplicationStatus, response: Option<Response>,
                         terminated: bool, deadline: Option<int>)

  datatype ExpiryAction = Noop | Reschedule(at: int) | DeclineNow | AcceptNow | DeclineInstead(failures: seq<string>)

  /** The acceptance policy and the gate failures found when an expiry task fires. */
  datatype Standing = Standing(behavior: OfferExpiry, failures: seq<string>)

  function DecideExpiry(o: Offer, scheduled: int, now: int, standing: Standing): ExpiryAction {
    if o.kind.OpenCycle? || !o.latest || !o.status.Offered? || o.response.Some? || o.terminated || o.deadline.None? then
      Noop
    else if o.deadline.value != scheduled || now < o.deadline.value then Reschedule(o.deadline.value)
    else if standing.behavior.AutoDecline? then DeclineNow
    else if standing.failures == [] then AcceptNow
    else DeclineInstead(standing.failures)
  }

  /** Still awaiting an answer that expiry may give. */
  predicate Awaiting(o: Offer) {
    !o.kind.OpenCycle? && o.latest && o.status.Offered? && o.response.None? && !o.terminated && o.deadline.Some?
  }

  datatype Answerer = ByPerson | ByCascade | ByTask

  datatype Answer = Answer(response: Response, at: int, answerer: Answerer)

  /** The clock, whether the cycle is archived, the offer, its pending tasks and the answers recorded so far. */
  datatype World = World(now: int, archived: bool, offer: Offer, tasks: multiset<int>, answers: seq<Answer>)

  /**
   What can happen to an offer. Respond covers the student and the staff; Overtaken is the cascade of
   an acceptance elsewhere, Superseded a replaced placement, and Restored the fresh offer that the end of
   that acceptance may bring; these three reach into archived cycles.
   */
  datatype Event =
    | Tick(now: int)
    | Archive
    | MoveDeadline(deadline: Option<int>)
    | Respond(response: Response)
    | Overtaken
    | Terminate
    | Superseded
    | Restored
    | Reject
    | ReExtend
    | FireTask(scheduled: int, standing: Standing)
    | FireStale(scheduled: int, standing: Standing)

  predicate IsOpen(o: Offer) {
    o.status.Offered? && o.latest && o.response.None? && !o.terminated
  }

  function Answered(w: World, response: Response, answerer: Answerer): World {
    w.(offer := w.offer.(response := Some(response), status := if response.AcceptedOffer? then Accepted else Declined),
       answers := w.answers + [Answer(response, w.now, answerer)])
  }

  /** A firing in an archived cycle does nothing and queues nothing. */
  function Fired(w: World, scheduled: int, standing: Standing): World {
    if w.archived then w
    else
      match DecideExpiry(w.offer, scheduled, w.now, standing)
      case Noop => w
      case Reschedule(at) => w.(tasks := w.tasks + multiset{at})
      case DeclineNow => Answered(w, DeclinedOffer, ByTask)
      case AcceptNow => Answered(w, AcceptedOffer, ByTask)
      case DeclineInstead(_) => Answered(w, DeclinedOffer, ByTask)
  }

  function Ended(w: World): World {
    w.(offer := w.offer.(terminated := true, status := OfferTerminated))
  }

  /** The application gets a fresh offer, which takes this one's place. */
  function Renewed(w: World): World {
    w.(offer := w.offer.(latest := false, status := Offered))
  }

  /** The application is still where an acceptance elsewhere put it. */
  predicate IsOvertaken(w: World) {
    w.offer.latest && w.offer.status.Declined? && exists a :: a in w.answers && a.answerer.ByCascade?
  }

  /** The commands of the offer's own cycle, which an archived cycle refuses. */
  function Commanded(w: World, e: Event): World {
    match e
    case MoveDeadline(d) =>
      if w.offer.response.None? && !w.offer.terminated
      then w.(offer := w.offer.(deadline := d), tasks := w.tasks + if d.Some? then multiset{d.value} else multiset{})
      else w
    case Respond(r) => if IsOpen(w.offer) then Answered(w, r, ByPerson) else w
    case Terminate => if w.offer.latest && (w.offer.status.Offered? || w.offer.status.Accepted?) then Ended(w) else w
    case Reject => if IsOpen(w.offer) then w.(offer := w.offer.(terminated := true, status := Rejected)) else w
    case ReExtend =>
      if !w.offer.status.Offered? && !w.offer.status.Accepted?
      then Renewed(w)
      else w
    case Archive => w.(archived := true)
    case _ => w
  }

  /**
   One step; an event that cannot happen now leaves the world alone. A pending task fires once its
   time has come and is then spent; stale firings - duplicates, or tasks of earlier deadlines - may
   come at any time and spend nothing.
   */
  function Next(w: World, e: Event): World {
    match e
    case Tick(now) => if now >= w.now then w.(now := now) else w
    case Overtaken => if IsOpen(w.offer) then Answered(w, DeclinedOffer, ByCascade) else w
    case Superseded => if w.offer.latest && w.offer.status.Accepted? then Ended(w) else w
    case Restored => if IsOvertaken(w) then Renewed(w) else w
    case FireTask(s, standing) =>
      if s in w.tasks && s <= w.now then Fired(w.(tasks := w.tasks - multiset{s}), s, standing) else w
    case FireStale(s, standing) => Fired(w, s, standing)
    case _ => if w.archived then w else Commanded(w, e)
  }

  function After(w: World, run: seq<Event>): World {
    if run == [] then w else Next(After(w, run[..|run| - 1]), run[|run| - 1])
  }

  /** A freshly extended offer with its deadline's task. */
  predicate Extended(w: World) {
    && IsOpen(w.offer)
    && w.answers == []
    && (w.offer.deadline.Some? && !w.offer.kind.OpenCycle? ==> w.offer.deadline.value in w.tasks)
  }

  // ---------------------------------------------------------------- what every run keeps

  /** At most one answer, the one recorded, and none automatic before the deadline in force. */
  predicate Recorded(w: World) {
    && |w.answers| == (if w.offer.response.Some? then 1 else 0)
    && (forall a | a in w.answers && a.answerer.ByTask? :: w.offer.deadline.Some? && w.offer.deadline.value <= a.at)
    && (forall a | a in w.answers :: a.at <= w.now && w.offer.response == Some(a.response))
    && (forall a | a in w.answers && a.answerer.ByCascade? :: a.response.DeclinedOffer?)
  }

  /** An offer that expiry may still answer has the task of the deadline in force. */
  predicate Attended(w: World) {
    Awaiting(w.offer) && !w.archived ==> w.offer.deadline.value in w.tasks
  }

  lemma FiringRecords(w: World, s: int, standing: Standing)
    requires Recorded(w)
    ensures Recorded(Fired(w, s, standing))
  {
  }

  /** A firing that spends another task keeps the one in force; one that spends it settles the offer. */
  lemma FiringAttends(w: World, tasks: multiset<int>, s: int, standing: Standing)
    requires Attended(w.(tasks := tasks))
    requires w.tasks == tasks || (w.tasks == tasks - multiset{s} && s <= w.now)
    ensures Attended(Fired(w, s, standing))
  {
    assert forall d | d != s && d in tasks :: d in w.tasks;
  }

  lemma RecordedStep(w: World, e: Event)
    requires Recorded(w)
    ensures Recorded(Next(w, e))
  {
    match e
    case FireTask(s, standing) =>
      if s in w.tasks && s <= w.now { FiringRecords(w.(tasks := w.tasks - multiset{s}), s, standing); }
    case FireStale(s, standing) => FiringRecords(w, s, standing);
    case _ =>
  }

  lemma AttendedStep(w: World, e: Event)
    requires Attended(w)
    ensures Attended(Next(w, e))
  {
    match e
    case FireTask(s, standing) =>
      if s in w.tasks && s <= w.now { FiringAttends(w.(tasks := w.tasks - multiset{s}), w.tasks, s, standing); }
    case FireStale(s, standing) => FiringAttends(w, w.tasks, s, standing);
    case _ =>
  }

  /**
   Over every run from an extended offer, whatever moves, answers, terminations, archiving and firings
   it mixes: at most one answer is ever recorded, an automatic one never before the deadline then in
   force, and an offer that still awaits one has the task of that deadline pending unless its cycle is
   archived.
   */
  lemma {:induction false} ExpiryIsSafe(w: World, run: seq<Event>)
    requires Extended(w)
    ensures var w' := After(w, run);
            && |w'.answers| <= 1
            && (forall a | a in w'.answers && a.answerer.ByTask? ::
                  w'.offer.deadline.Some? && w'.offer.deadline.value <= a.at)
            && (Awaiting(w'.offer) && w'.offer.deadline.value !in w'.tasks ==> w'.archived)
    ensures Recorded(After(w, run)) && Attended(After(w, run))
    decreases |run|
  {
    if run == [] {
      if Awaiting(w.offer) { assert w.offer.deadline.value in w.tasks; }
    } else {
      ExpiryIsSafe(w, run[..|run| - 1]);
      RecordedStep(After(w, run[..|run| - 1]), run[|run| - 1]);
      AttendedStep(After(w, run[..|run| - 1]), run[|run| - 1]);
    }
  }

  /** This firing is the one the offer has been waiting for. */
  predicate IsDue(w: World, s: int) {
    !w.archived && Awaiting(w.offer) && w.offer.deadline == Some(s) && s <= w.now
  }

  /** The answer expiry gives: accepted under auto-accept if no gate fails, declined otherwise. */
  function ExpiryAnswer(standing: Standing): Response {
    if standing.behavior.AutoAccept? && standing.failures == [] then AcceptedOffer else DeclinedOffer
  }

  /**
   A firing answers for the student exactly when the cycle is not archived, the offer awaits an answer
   and what fires is due for the deadline in force.
   */
  lemma FiringAnswersIff(w: World, s: int, standing: Standing)
    ensures |Fired(w, s, standing).answers| > |w.answers| <==>
              !w.archived && Awaiting(w.offer) && w.offer.deadline == Some(s) && s <= w.now
    ensures |Fired(w, s, standing).answers| > |w.answers| ==>
              (Fired(w, s, standing).offer.status.Accepted?
               <==> standing.behavior.AutoAccept? && standing.failures == [])
  {
  }

  /**
   All a firing does: due, it records its answer, now and as its own, and nothing else; early, or for a
   deadline no longer in force, it queues the task of the one that is; otherwise it does nothing.
   */
  lemma FiringIs(w: World, s: int, standing: Standing)
    ensures var after := Fired(w, s, standing);
            var answer := ExpiryAnswer(standing);
            if IsDue(w, s) then
              && after.answers == w.answers + [Answer(answer, w.now, ByTask)]
              && after.offer == w.offer.(response := Some(answer),
                                         status := if answer.AcceptedOffer? then Accepted else Declined)
              && after == w.(offer := after.offer, answers := after.answers)
            else if !w.archived && Awaiting(w.offer) then
              && after == w.(tasks := after.tasks)
              && after.tasks == w.tasks + multiset{w.offer.deadline.value}
            else after == w
  {
  }

  /** A pending task fires once due and is spent by it; before that, or if it is not pending, nothing happens. */
  lemma TaskFiresOnce(w: World, s: int, standing: Standing)
    ensures s in w.tasks && s <= w.now ==>
              Next(w, FireTask(s, standing)) == Fired(w.(tasks := w.tasks - multiset{s}), s, standing)
    ensures s !in w.tasks || w.now < s ==> Next(w, FireTask(s, standing)) == w
  {
  }

  // ---------------------------------------------------------------- statuses

  /** While an offer is its application's latest, the two agree on what became of it. */
  predicate Agrees(o: Offer) {
    o.latest ==>
      match o.status
      case Offered => o.response.None? && !o.terminated
      case Accepted => o.response == Some(AcceptedOffer) && !o.terminated
      case Declined => o.response == Some(DeclinedOffer) && !o.terminated
      case OfferTerminated => o.terminated
      case Rejected => o.response.None? && o.terminated
      case _ => false
  }

  /** Who makes each event happen. */
  function ActorOf(e: Event, kind: CycleKind): T.TransitionActor {
    match e
    case Respond(_) => if kind.OpenCycle? then T.Staff else T.Student
    case Overtaken => T.System
    case FireTask(_, _) => T.System
    case FireStale(_, _) => T.System
    case _ => T.Staff
  }

  function ContextOf(e: Event, kind: CycleKind): T.TransitionContext {
    T.TransitionContext(kind, if e.FireTask? || e.FireStale? then e.standing.behavior else AutoDecline)
  }

  /** An acceptance elsewhere declines, and its end restores, only outside open cycles. */
  predicate ReachesOffer(e: Event, o: Offer) {
    e.Overtaken? ==> !o.kind.OpenCycle?
  }

  /** Every step keeps the agreement, and changes a status only by a move the transition table allows its actor. */
  lemma StepIsSanctioned(w: World, e: Event)
    requires Agrees(w.offer) && ReachesOffer(e, w.offer)
    ensures Agrees(Next(w, e).offer)
    ensures var before, after := w.offer.status, Next(w, e).offer.status;
            before != after ==>
              T.IsSanctioned(Some(before), after, ActorOf(e, w.offer.kind), ContextOf(e, w.offer.kind), true)
  {
    match e
    case FireTask(s, standing) =>
      FiringIsSanctioned(w.(tasks := w.tasks - multiset{s}), s, standing, ContextOf(e, w.offer.kind));
    case FireStale(s, standing) => FiringIsSanctioned(w, s, standing, ContextOf(e, w.offer.kind));
    case _ =>
  }

  lemma FiringIsSanctioned(w: World, s: int, standing: Standing, context: T.TransitionContext)
    requires Agrees(w.offer) && context == T.TransitionContext(w.offer.kind, standing.behavior)
    ensures Agrees(Fired(w, s, standing).offer)
    ensures var before, after := w.offer.status, Fired(w, s, standing).offer.status;
            before != after ==> T.IsSanctioned(Some(before), after, T.System, context, true)
  {
  }

  /** So in every run from an extended offer. */
  lemma {:induction false} StatusesAgree(w: World, run: seq<Event>)
    requires Extended(w)
    ensures Agrees(After(w, run).offer)
    decreases |run|
  {
    if run != [] {
      StatusesAgree(w, run[..|run| - 1]);
      AgreesOn(After(w, run[..|run| - 1]), run[|run| - 1]);
    }
  }

  lemma AgreesOn(w: World, e: Event)
    requires Agrees(w.offer)
    ensures Agrees(Next(w, e).offer)
  {
  }

  /** And every such move of the latest offer is open to its actor, unless its cycle is archived. */
  lemma MovesAreOpen(w: World, e: Event)
    requires Agrees(w.offer) && w.offer.latest && !w.archived
    ensures e.Respond? && w.offer.status.Offered? ==> Next(w, e).offer.response == Some(e.response)
    ensures e.Terminate? && (w.offer.status.Offered? || w.offer.status.Accepted?) ==> Next(w, e).offer.terminated
    ensures e.Reject? && w.offer.status.Offered? ==> Next(w, e).offer.status.Rejected?
    ensures e.ReExtend? && !w.offer.status.Offered? && !w.offer.status.Accepted? ==> !Next(w, e).offer.latest
    ensures e.MoveDeadline? && w.offer.status.Offered? ==> Next(w, e).offer.deadline == e.deadline
    ensures e.Archive? ==> Next(w, e).archived
  {
  }

  /** Three moves come from elsewhere, archived or not. */
  lemma MovesFromElsewhere(w: World)
    requires Agrees(w.offer) && w.offer.latest
    ensures Next(w, Overtaken).offer.response
         == if w.offer.status.Offered? then Some(DeclinedOffer) else w.offer.response
    ensures Next(w, Superseded).offer.terminated <==> w.offer.terminated || w.offer.status.Accepted?
    ensures Next(w, Restored).offer.latest <==>
              !(w.offer.status.Declined? && exists a :: a in w.answers && a.answerer.ByCascade?)
  {
  }

  // ---------------------------------------------------------------- archived cycles

  /** No acceptance elsewhere overtakes the offer, none that ends renews it, and no other placement supersedes it. */
  predicate OwnCycleOnly(run: seq<Event>) {
    forall e | e in run :: !e.Overtaken? && !e.Restored? && !e.Superseded?
  }

  /**
   Once its cycle is archived, nothing but an acceptance elsewhere, its end or a replaced placement changes
   an offer: no firing and no command answers, ends or moves it, and no answer is automatic.
   */
  lemma {:induction false} ArchivedOfferStands(w: World, run: seq<Event>)
    requires w.archived
    ensures After(w, run).archived
    ensures OwnCycleOnly(run) ==> After(w, run).offer == w.offer && After(w, run).answers == w.answers
    ensures forall a | a in After(w, run).answers && a.answerer.ByTask? :: a in w.answers
    decreases |run|
  {
    if run != [] {
      var before := run[..|run| - 1];
      assert OwnCycleOnly(run) ==> OwnCycleOnly(before) && run[|run| - 1] in run;
      ArchivedOfferStands(w, before);
    }
  }

  const ANSWERABLE := Offer(PlacementCycle, true, Offered, None, false, Some(5))

  /**
   The law that an awaiting offer always has a task fails in an archived cycle: archive it, let the
   offer's own task fire, and the offer awaits an answer that nothing will ever ask for.
   */
  lemma ArchivedOfferLosesItsTask(standing: Standing)
    ensures var w := World(0, false, ANSWERABLE, multiset{5}, []);
            var w' := After(w, [Archive, Tick(5), FireTask(5, standing)]);
            Extended(w) && Awaiting(w'.offer) && w'.tasks == multiset{}
  {
    var w := World(0, false, ANSWERABLE, multiset{5}, []);
    var run := [Archive, Tick(5), FireTask(5, standing)];
    assert run[..2] == [Archive, Tick(5)] && run[..2][..1] == [Archive] && run[..2][..1][..0] == [];
    assert After(w, run[..2][..1]) == Next(w, Archive);
    assert After(w, run[..2]) == Next(Next(w, Archive), Tick(5));
  }

  // ---------------------------------------------------------------- settling

  /**
   Once the deadline's own task is pending, the task of the deadline in force stays pending, however that
   moves, until the offer no longer awaits an answer or its cycle is archived.
   */
  lemma {:induction false} TaskStaysPending(w: World, run: seq<Event>)
    requires Attended(w)
    ensures Attended(After(w, run))
    decreases |run|
  {
    if run != [] {
      TaskStaysPending(w, run[..|run| - 1]);
      AttendedStep(After(w, run[..|run| - 1]), run[|run| - 1]);
    }
  }

  /** Past answering: whatever its deadline becomes, expiry will never answer for it. */
  predicate Settled(o: Offer) {
    o.kind.OpenCycle? || !o.latest || o.response.Some? || o.terminated || !o.status.Offered?
  }

  lemma SettledStep(w: World, e: Event)
    requires Settled(w.offer)
    ensures Settled(Next(w, e).offer)
  {
  }

  /** An offer past answering stays so. */
  lemma {:induction false} SettledStays(w: World, run: seq<Event>)
    requires Settled(w.offer)
    ensures Settled(After(w, run).offer)
    decreases |run|
  {
    if run != [] {
      SettledStays(w, run[..|run| - 1]);
      SettledStep(After(w, run[..|run| - 1]), run[|run| - 1]);
    }
  }

  /** A due firing outside an archived cycle settles the offer or leaves the deadline's own task pending. */
  lemma FirstFiring(w: World, s: int, standing: Standing)
    requires Awaiting(w.offer) && s in w.tasks && s <= w.now
    ensures var first := Next(w, FireTask(s, standing));
            && first.archived == w.archived
            && (Settled(first.offer) || first.offer == w.offer)
            && (!w.archived && !Settled(first.offer) ==> w.offer.deadline.value in first.tasks)
  {
  }

  /** The deadline's own task, fired when due, settles the offer exactly if the cycle is not archived. */
  lemma LastFiring(w: World, d: int, standing: Standing)
    requires Awaiting(w.offer) && w.offer.deadline == Some(d) && d in w.tasks && d <= w.now
    ensures Settled(Next(w, FireTask(d, standing)).offer) <==> !w.archived
    ensures w.archived ==> Next(w, FireTask(d, standing)).offer == w.offer && Next(w, FireTask(d, standing)).archived
  {
  }

  /** For good, whatever follows; in an archived cycle not even then, short of an acceptance elsewhere. */
  lemma LastFiringForGood(w: World, d: int, standing: Standing, rest: seq<Event>)
    requires Awaiting(w.offer) && w.offer.deadline == Some(d) && d in w.tasks && d <= w.now
    ensures !w.archived ==> Settled(After(Next(w, FireTask(d, standing)), rest).offer)
    ensures w.archived && OwnCycleOnly(rest) ==> !Settled(After(Next(w, FireTask(d, standing)), rest).offer)
  {
    LastFiring(w, d, standing);
    var last := Next(w, FireTask(d, standing));
    if w.archived { ArchivedOfferStands(last, rest); } else { SettledStays(last, rest); }
  }

  lemma {:induction false} ArchivedStays(w: World, run: seq<Event>)
    requires w.archived
    ensures After(w, run).archived
  {
    ArchivedOfferStands(w, run);
  }

  /**
   One due firing is enough after any run from an extended offer: outside an archived cycle the task of the
   deadline in force is pending and, fired when due, settles the offer for good; in one it never does.
   */
  lemma OneFiringSettles(w: World, run: seq<Event>, last: Standing, rest: seq<Event>)
    requires Extended(w) && Awaiting(After(w, run).offer)
    ensures var w' := After(w, run);
            var d := w'.offer.deadline.value;
            && (!w'.archived ==> d in w'.tasks)
            && (d in w'.tasks && d <= w'.now ==>
                  var end := After(Next(w', FireTask(d, last)), rest);
                  && (!w'.archived ==> Settled(end.offer))
                  && (w'.archived && OwnCycleOnly(rest) ==> !Settled(end.offer)))
  {
    ExpiryIsSafe(w, run);
    var w' := After(w, run);
    var d := w'.offer.deadline.value;
    if d in w'.tasks && d <= w'.now { LastFiringForGood(w', d, last, rest); }
  }

  /**
   From any offer with some task pending, two due firings settle it exactly if its cycle is not archived
   when they fire: outside an archived cycle the first - of whatever task is pending - settles it or
   leaves the deadline's own task, and that one, fired when due after anything else has happened,
   settles it for good; in one, neither changes the offer.
   */
  lemma TwoFiringsSettle(w: World, s: int, standing: Standing, run: seq<Event>, last: Standing, rest: seq<Event>)
    requires Awaiting(w.offer) && s in w.tasks && s <= w.now
    ensures var w' := After(Next(w, FireTask(s, standing)), run);
            Awaiting(w'.offer) ==>
              var d := w'.offer.deadline.value;
              && (w.archived ==> w'.archived)
              && (!w'.archived ==> d in w'.tasks)
              && (d in w'.tasks && d <= w'.now ==>
                    var end := After(Next(w', FireTask(d, last)), rest);
                    && (!w'.archived ==> Settled(end.offer))
                    && (w'.archived && OwnCycleOnly(rest) ==> !Settled(end.offer)))
  {
    var first := Next(w, FireTask(s, standing));
    FirstFiring(w, s, standing);
    if Settled(first.offer) {
      SettledStays(first, run);
    } else {
      TaskStaysPending(first, run);
      if w.archived { ArchivedStays(first, run); }
      var w' := After(first, run);
      if Awaiting(w'.offer) && w'.offer.deadline.value in w'.tasks && w'.offer.deadline.value <= w'.now {
        LastFiringForGood(w', w'.offer.deadline.value, last, rest);
      }
    }
  }
}
