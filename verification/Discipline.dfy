/**
 Strike conversion and revoke recomputation (backend/app/domain/discipline.py), and the
 rows the discipline commands write from their results.
 */
module Discipline {
  import opened Common
  import opened Sorting

  datatype Strike = Strike(id: Id, reason: string, createdAt: int, isActive: bool, consumedBy: Option<Id>)

  datatype Penalty = Penalty(id: Id, fromStrikes: bool, isActive: bool)

  datatype ConversionGroup = ConversionGroup(strikeIds: seq<Id>, reasons: string)

  datatype Dissolution = Dissolution(penaltyId: Id, unconsume: seq<Id>)

  datatype Recomputation = Recomputation(dissolutions: seq<Dissolution>, conversions: seq<ConversionGroup>)

  /** ValueError is the exception of a non-positive threshold or an unknown strike. */
  datatype Outcome<+T> = Ok(value: T) | ValueError

  predicate IsFree(s: Strike) {
    s.isActive && s.consumedBy.None?
  }

  function AgeKey(s: Strike): Key {
    (s.createdAt, s.id)
  }

  function IdKey(s: Strike): Key {
    (s.id, 0)
  }

  function FreeOf(strikes: seq<Strike>): seq<Strike> {
    if strikes == [] then []
    else (if IsFree(strikes[0]) then [strikes[0]] else []) + FreeOf(strikes[1..])
  }

  /** The active, unconsumed strikes, oldest first. */
  function Available(strikes: seq<Strike>): seq<Strike> {
    Sorted(AgeKey, FreeOf(strikes))
  }

  function IdsOf(strikes: seq<Strike>): (ids: seq<Id>)
    ensures |ids| == |strikes|
    ensures forall i | 0 <= i < |ids| :: ids[i] == strikes[i].id
  {
    seq(|strikes|, i requires 0 <= i < |strikes| => strikes[i].id)
  }

  /** Reasons joined with "; ". */
  function ReasonsOf(strikes: seq<Strike>): string {
    if strikes == [] then ""
    else if |strikes| == 1 then strikes[0].reason
    else strikes[0].reason + "; " + ReasonsOf(strikes[1..])
  }

  function GroupOf(strikes: seq<Strike>): ConversionGroup {
    ConversionGroup(IdsOf(strikes), ReasonsOf(strikes))
  }

  /** Consecutive slices of exactly `threshold` strikes; what is left over stays ungrouped. */
  function Slices(available: seq<Strike>, threshold: nat): seq<ConversionGroup>
    requires threshold >= 1
  {
    if |available| < threshold then []
    else [GroupOf(available[..threshold])] + Slices(available[threshold..], threshold)
  }

  function MaybeConvert(strikes: seq<Strike>, threshold: Option<int>): Outcome<seq<ConversionGroup>> {
    match threshold
    case None => Ok([])
    case Some(t) => if t <= 0 then ValueError else Ok(Slices(Available(strikes), t))
  }

  // ---------------------------------------------------------------- what a conversion is

  function AllIds(groups: seq<ConversionGroup>): seq<Id> {
    if groups == [] then [] else groups[0].strikeIds + AllIds(groups[1..])
  }

  lemma {:induction false} FreeOfContents(strikes: seq<Strike>)
    ensures forall s :: s in FreeOf(strikes) <==> s in strikes && IsFree(s)
    ensures DistinctIds(strikes) ==> DistinctIds(FreeOf(strikes))
  {
    if strikes != [] {
      FreeOfContents(strikes[1..]);
      assert strikes == [strikes[0]] + strikes[1..];
      if DistinctIds(strikes) {
        var rest := FreeOf(strikes[1..]);
        forall j | 0 <= j < |rest| ensures rest[j].id != strikes[0].id {
          assert rest[j] in strikes[1..];
        }
      }
    }
  }

  ghost predicate DistinctIds(strikes: seq<Strike>) {
    forall i, j | 0 <= i < j < |strikes| :: strikes[i].id != strikes[j].id
  }

  lemma {:induction false} FreeOfMultiset(a: seq<Strike>, s: Strike)
    ensures multiset(FreeOf(a))[s] == if IsFree(s) then multiset(a)[s] else 0
  {
    if a != [] {
      FreeOfMultiset(a[1..], s);
      assert a == [a[0]] + a[1..];
    }
  }

  lemma DivStep(a: nat, t: nat)
    requires 1 <= t <= a
    ensures a / t == (a - t) / t + 1
  {
    var q := (a - t) / t;
    assert a - t == q * t + (a - t) % t;
    assert a == (q + 1) * t + (a - t) % t;
    QuotientIs(a, t, q + 1, (a - t) % t);
  }

  lemma TimesKeepsOrder(x: int, y: int, t: nat)
    ensures x <= y ==> x * t <= y * t
  {
  }

  lemma QuotientIs(a: nat, t: nat, q: nat, r: nat)
    requires t >= 1 && a == q * t + r && r < t
    ensures a / t == q
  {
    TimesKeepsOrder(a / t + 1, q, t);
    TimesKeepsOrder(q + 1, a / t, t);
  }

  lemma {:induction false} SliceSizes(available: seq<Strike>, threshold: nat)
    requires threshold >= 1
    ensures |Slices(available, threshold)| == |available| / threshold
    ensures forall g | g in Slices(available, threshold) :: |g.strikeIds| == threshold
  {
    if |available| >= threshold {
      SliceSizes(available[threshold..], threshold);
      DivStep(|available|, threshold);
    } else {
      QuotientIs(|available|, threshold, 0, |available|);
    }
  }

  /** The slices, in order, spell out the oldest strikes and leave fewer than a threshold over. */
  lemma {:induction false} SlicesSpellPrefix(available: seq<Strike>, threshold: nat)
    requires threshold >= 1
    ensures AllIds(Slices(available, threshold)) <= IdsOf(available)
    ensures |available| - |AllIds(Slices(available, threshold))| < threshold
  {
    if |available| >= threshold {
      var first, rest := available[..threshold], available[threshold..];
      SlicesSpellPrefix(rest, threshold);
      assert available == first + rest;
      assert IdsOf(available) == IdsOf(first) + IdsOf(rest);
    }
  }

  /**
   A conversion depends on which strikes exist, not on the order they were read in; its
   groups have exactly the threshold size, share no strike, and take the oldest first.
   */
  lemma ConversionContract(a: seq<Strike>, b: seq<Strike>, threshold: nat)
    requires threshold >= 1 && DistinctIds(a) && multiset(a) == multiset(b)
    ensures var groups := Slices(Available(a), threshold);
            && MaybeConvert(a, Some(threshold)) == MaybeConvert(b, Some(threshold)) == Ok(groups)
            && |groups| == |FreeOf(a)| / threshold
            && (forall g | g in groups :: |g.strikeIds| == threshold)
            && Distinct(AllIds(groups))
            && AllIds(groups) <= IdsOf(Available(a))
            && Ascending(AgeKey, Available(a))
  {
    SameAvailable(a, b);
    SliceSizes(Available(a), threshold);
    SlicesSpellPrefix(Available(a), threshold);
    AvailableContents(a);
    SortedAscends(AgeKey, FreeOf(a));
    assert Distinct(IdsOf(Available(a)));
  }

  lemma SameAvailable(a: seq<Strike>, b: seq<Strike>)
    requires DistinctIds(a) && multiset(a) == multiset(b)
    ensures Available(a) == Available(b)
  {
    forall s ensures multiset(FreeOf(a))[s] == multiset(FreeOf(b))[s] {
      FreeOfMultiset(a, s);
      FreeOfMultiset(b, s);
    }
    assert multiset(FreeOf(a)) == multiset(FreeOf(b));
    FreeOfContents(a);
    SortedIgnoresOrder(AgeKey, FreeOf(a), FreeOf(b));
  }

  lemma AvailableContents(strikes: seq<Strike>)
    requires DistinctIds(strikes)
    ensures |Available(strikes)| == |FreeOf(strikes)|
    ensures DistinctIds(Available(strikes))
    ensures forall s :: s in Available(strikes) <==> s in strikes && IsFree(s)
  {
    FreeOfContents(strikes);
    SortedContents(AgeKey, FreeOf(strikes));
    KeysDifferSameContents(IdKey, FreeOf(strikes), Available(strikes));
    forall i, j | 0 <= i < j < |Available(strikes)| ensures Available(strikes)[i].id != Available(strikes)[j].id {
      assert IdKey(Available(strikes)[i]) != IdKey(Available(strikes)[j]);
    }
  }

  /** The reasons of strikes taken together are those of each part, joined. */
  lemma {:induction false} ReasonsJoin(a: seq<Strike>, b: seq<Strike>)
    requires a != [] && b != []
    ensures ReasonsOf(a + b) == ReasonsOf(a) + "; " + ReasonsOf(b)
  {
    assert (a + b)[1..] == a[1..] + b;
    if |a| == 1 {
      assert a[1..] + b == b;
    } else {
      ReasonsJoin(a[1..], b);
      JoinAgain(a[0].reason, ReasonsOf(a[1..]), ReasonsOf(b));
    }
  }

  lemma JoinAgain(a: string, b: string, c: string)
    ensures a + "; " + (b + "; " + c) == a + "; " + b + "; " + c
  {
  }

  /** A group's reasons: of one strike its own, of several each in turn with "; " between. */
  lemma GroupSaysWhy(strike: Strike, a: seq<Strike>, b: seq<Strike>)
    requires a != [] && b != []
    ensures GroupOf([strike]).reasons == strike.reason
    ensures GroupOf(a + b).reasons == GroupOf(a).reasons + "; " + GroupOf(b).reasons
    ensures GroupOf(a + b).strikeIds == GroupOf(a).strikeIds + GroupOf(b).strikeIds
  {
    ReasonsJoin(a, b);
    assert IdsOf(a + b) == IdsOf(a) + IdsOf(b);
  }

  // ---------------------------------------------------------------- revoking a strike

  function Find(strikes: seq<Strike>, id: Id): Option<Strike> {
    if strikes == [] then None else if strikes[0].id == id then Some(strikes[0]) else Find(strikes[1..], id)
  }

  function FindPenalty(penalties: seq<Penalty>, id: Id): Option<Penalty> {
    if penalties == [] then None
    else
      // A later row with the same id replaces an earlier one, as in a dictionary display.
      match FindPenalty(penalties[1..], id)
      case Some(p) => Some(p)
      case None => if penalties[0].id == id then Some(penalties[0]) else None
  }

  function SupportCount(strikes: seq<Strike>, revoked: Id, penalty: Id): nat {
    if strikes == [] then 0
    else
      (if strikes[0].id != revoked && strikes[0].isActive && strikes[0].consumedBy == Some(penalty) then 1 else 0)
      + SupportCount(strikes[1..], revoked, penalty)
  }

  /** The automatic penalty the revoked strike was holding up, if it no longer stands. */
  function Dissolved(strikes: seq<Strike>, penalties: seq<Penalty>, revoked: Strike,
                     threshold: Option<int>): Option<Id> {
    match revoked.consumedBy
    case None => None
    case Some(linked) =>
      match FindPenalty(penalties, linked)
      case None => None
      case Some(p) =>
        var support := SupportCount(strikes, revoked.id, linked);
        if p.isActive && p.fromStrikes && (support == 0 || (threshold.Some? && support < threshold.value))
        then Some(linked) else None
  }

  function Recomputed(s: Strike, dissolved: Option<Id>, revoked: Id): Strike {
    s.(isActive := s.isActive && s.id != revoked,
       consumedBy := if s.consumedBy.Some? && s.consumedBy == dissolved then None else s.consumedBy)
  }

  function RecomputedAll(strikes: seq<Strike>, dissolved: Option<Id>, revoked: Id): (r: seq<Strike>)
    ensures |r| == |strikes|
    ensures forall i | 0 <= i < |r| :: r[i] == Recomputed(strikes[i], dissolved, revoked)
  {
    seq(|strikes|, i requires 0 <= i < |strikes| => Recomputed(strikes[i], dissolved, revoked))
  }

  function ConsumedBy(strikes: seq<Strike>, penalty: Id): seq<Strike> {
    if strikes == [] then []
    else (if strikes[0].consumedBy == Some(penalty) then [strikes[0]] else []) + ConsumedBy(strikes[1..], penalty)
  }

  function DissolutionsOf(strikes: seq<Strike>, dissolved: Option<Id>): seq<Dissolution> {
    match dissolved
    case None => []
    case Some(p) => [Dissolution(p, IdsOf(ConsumedBy(Sorted(AgeKey, strikes), p)))]
  }

  function RevokeResult(strikes: seq<Strike>, penalties: seq<Penalty>, revoked: Id,
                        threshold: Option<int>): Outcome<Recomputation> {
    if threshold.Some? && threshold.value <= 0 then ValueError
    else
      match Find(strikes, revoked)
      case None => ValueError
      case Some(target) =>
        var dissolved := Dissolved(strikes, penalties, target, threshold);
        match MaybeConvert(RecomputedAll(strikes, dissolved, revoked), threshold)
        case ValueError => ValueError
        case Ok(groups) => Ok(Recomputation(DissolutionsOf(strikes, dissolved), groups))
  }

  /** A conversion fails exactly on a threshold that is not positive, a recomputation also on an unknown strike. */
  lemma FailsIff(strikes: seq<Strike>, penalties: seq<Penalty>, revoked: Id, threshold: Option<int>)
    ensures MaybeConvert(strikes, threshold).ValueError? <==> threshold.Some? && threshold.value < 1
    ensures RevokeResult(strikes, penalties, revoked, threshold).ValueError? <==>
              (threshold.Some? && threshold.value < 1) || forall s | s in strikes :: s.id != revoked
  {
    FindsIff(strikes, revoked);
  }

  lemma {:induction false} FindsIff(strikes: seq<Strike>, id: Id)
    ensures Find(strikes, id).None? <==> forall s | s in strikes :: s.id != id
  {
    if strikes != [] {
      FindsIff(strikes[1..], id);
      assert strikes == [strikes[0]] + strikes[1..];
    }
  }

  /** Without a threshold nothing is converted. */
  lemma NoThresholdConvertsNothing(strikes: seq<Strike>)
    ensures MaybeConvert(strikes, None) == Ok([])
  {
  }

  /** `recompute_after_revoke`, with the loop that rebuilds the strikes. */
  method RecomputeAfterRevoke(strikes: seq<Strike>, penalties: seq<Penalty>, revoked: Id, threshold: Option<int>)
    returns (result: Outcome<Recomputation>)
    ensures result == RevokeResult(strikes, penalties, revoked, threshold)
  {
    if threshold.Some? && threshold.value <= 0 { return ValueError; }
    var found := Find(strikes, revoked);
    if found.None? { return ValueError; }
    var dissolved := Dissolved(strikes, penalties, found.value, threshold);
    var recomputed: seq<Strike> := [];
    for i := 0 to |strikes|
      invariant recomputed == RecomputedAll(strikes, dissolved, revoked)[..i]
    {
      var consumed := strikes[i].consumedBy;
      if consumed.Some? && consumed == dissolved { consumed := None; }
      recomputed := recomputed + [Strike(strikes[i].id, strikes[i].reason, strikes[i].createdAt,
                                         strikes[i].isActive && strikes[i].id != revoked, consumed)];
    }
    assert recomputed == RecomputedAll(strikes, dissolved, revoked);
    var conversions := MaybeConvert(recomputed, threshold);
    if conversions.ValueError? { return ValueError; }
    return Ok(Recomputation(DissolutionsOf(strikes, dissolved), conversions.value));
  }
}
