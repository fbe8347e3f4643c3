/**
 The strike and penalty tables under the discipline commands: awards, revocations and
 direct penalties, each writing what backend/app/domain/discipline.py decided.
 */
module DisciplineLedger {
  import opened Common
  import opened Sorting
  import opened Discipline

  /** One enrolment's rows, keyed by id. */
  datatype Ledger = Ledger(strikes: map<Id, Strike>, penalties: map<Id, Penalty>)

  const EMPTY := Ledger(map[], map[])

  function Active(l: Ledger): set<Id> {
    set id | id in l.strikes && l.strikes[id].isActive
  }

  function Free(l: Ledger): set<Id> {
    set id | id in l.strikes && IsFree(l.strikes[id])
  }

  function Supporters(l: Ledger, penalty: Id): set<Id> {
    set id | id in l.strikes && l.strikes[id].consumedBy == Some(penalty)
  }

  predicate IsAutomatic(l: Ledger, penalty: Id) {
    penalty in l.penalties && l.penalties[penalty].isActive && l.penalties[penalty].fromStrikes
  }

  /** The automatic penalties in force. */
  function Automatic(l: Ledger): set<Id> {
    set p | p in l.penalties && IsAutomatic(l, p)
  }

  /** Active strikes still consumed by a penalty an administrator has revoked. */
  function Frozen(l: Ledger): set<Id> {
    set id | id in l.strikes && l.strikes[id].isActive && l.strikes[id].consumedBy.Some?
             && !IsAutomatic(l, l.strikes[id].consumedBy.value)
  }

  /** A loader's reading of the strikes: every row once, in any order. */
  ghost predicate IsReading(l: Ledger, rows: seq<Strike>) {
    DistinctIds(rows) && forall s :: s in rows <==> s.id in l.strikes && l.strikes[s.id] == s
  }

  ghost predicate IsPenaltyReading(l: Ledger, rows: seq<Penalty>) {
    && (forall i, j | 0 <= i < j < |rows| :: rows[i].id != rows[j].id)
    && forall p :: p in rows <==> p.id in l.penalties && l.penalties[p.id] == p
  }

  // ---------------------------------------------------------------- what the commands write

  function Inserted(strikes: map<Id, Strike>, rows: seq<Strike>): map<Id, Strike>
    decreases |rows|
  {
    if rows == [] then strikes else Inserted(strikes[rows[0].id := rows[0]], rows[1..])
  }

  function Marked(strikes: map<Id, Strike>, ids: seq<Id>, mark: Option<Id>): map<Id, Strike> {
    map id | id in strikes :: if id in ids then strikes[id].(consumedBy := mark) else strikes[id]
  }

  function ConvertOne(l: Ledger, ids: seq<Id>, penalty: Id): Ledger {
    Ledger(Marked(l.strikes, ids, Some(penalty)), l.penalties[penalty := Penalty(penalty, true, true)])
  }

  function Convert(l: Ledger, groups: seq<ConversionGroup>, unused: seq<Id>): Ledger
    requires |groups| <= |unused|
    decreases |groups|
  {
    if groups == [] then l
    else Convert(ConvertOne(l, groups[0].strikeIds, unused[0]), groups[1..], unused[1..])
  }

  function Lifted(penalties: map<Id, Penalty>, penalty: Id): map<Id, Penalty> {
    if penalty in penalties then penalties[penalty := penalties[penalty].(isActive := false)] else penalties
  }

  function Dissolve(l: Ledger, dissolutions: seq<Dissolution>): Ledger
    decreases |dissolutions|
  {
    if dissolutions == [] then l
    else Dissolve(Ledger(Marked(l.strikes, dissolutions[0].unconsume, None),
                         Lifted(l.penalties, dissolutions[0].penaltyId)),
                  dissolutions[1..])
  }

  /** Inserts the strikes, then converts every complete threshold; a bad threshold aborts the command. */
  function Awarded(l: Ledger, minted: seq<Strike>, rows: seq<Strike>, threshold: Option<int>, unused: seq<Id>): Ledger {
    match MaybeConvert(rows + minted, threshold)
    case ValueError => l
    case Ok(groups) =>
      if |groups| > |unused| then l else Convert(Ledger(Inserted(l.strikes, minted), l.penalties), groups, unused)
  }

  /** Rejected for an unknown or already revoked strike; otherwise deactivates it and recomputes. */
  function Revoked(l: Ledger, strike: Id, rows: seq<Strike>, penalties: seq<Penalty>, threshold: Option<int>,
                   unused: seq<Id>): Ledger {
    match Find(rows, strike)
    case None => l
    case Some(target) =>
      if !target.isActive || strike !in l.strikes then l
      else
        match RevokeResult(rows, penalties, strike, threshold)
        case ValueError => l
        case Ok(r) =>
          if |r.conversions| > |unused| then l
          else
            var off := Ledger(l.strikes[strike := l.strikes[strike].(isActive := false)], l.penalties);
            Convert(Dissolve(off, r.dissolutions), r.conversions, unused)
  }

  /** The tables as the commands update them, one statement at a time. */
  class Standing {
    var strikes: map<Id, Strike>
    var penalties: map<Id, Penalty>

    constructor ()
      ensures View() == EMPTY
    {
      strikes, penalties := map[], map[];
    }

    ghost function View(): Ledger
      reads this
    {
      Ledger(strikes, penalties)
    }

    method SetConsumed(ids: seq<Id>, mark: Option<Id>)
      modifies `strikes
      ensures strikes == Marked(old(strikes), ids, mark)
    {
      for k := 0 to |ids|
        invariant strikes == Marked(old(strikes), ids[..k], mark)
      {
        if ids[k] in strikes {
          strikes := strikes[ids[k] := strikes[ids[k]].(consumedBy := mark)];
        }
        assert ids[..k + 1] == ids[..k] + [ids[k]];
      }
      assert ids[..|ids|] == ids;
    }

    method WriteConversions(groups: seq<ConversionGroup>, unused: seq<Id>)
      requires |groups| <= |unused|
      modifies this
      ensures View() == Convert(old(View()), groups, unused)
    {
      for k := 0 to |groups|
        invariant Convert(View(), groups[k..], unused[k..]) == Convert(old(View()), groups, unused)
      {
        penalties := penalties[unused[k] := Penalty(unused[k], true, true)];
        SetConsumed(groups[k].strikeIds, Some(unused[k]));
        assert groups[k..][1..] == groups[k + 1..] && unused[k..][1..] == unused[k + 1..];
      }
    }

    method AwardStrikes(minted: seq<Strike>, rows: seq<Strike>, threshold: Option<int>, unused: seq<Id>)
      modifies this
      ensures View() == Awarded(old(View()), minted, rows, threshold, unused)
    {
      var conversions := MaybeConvert(rows + minted, threshold);
      if conversions.ValueError? || |conversions.value| > |unused| { return; }
      for k := 0 to |minted|
        invariant Inserted(strikes, minted[k..]) == Inserted(old(strikes), minted)
        invariant penalties == old(penalties)
      {
        strikes := strikes[minted[k].id := minted[k]];
        assert minted[k..][1..] == minted[k + 1..];
      }
      WriteConversions(conversions.value, unused);
    }

    method RevokeStrike(strike: Id, rows: seq<Strike>, penaltyRows: seq<Penalty>, threshold: Option<int>,
                        unused: seq<Id>)
      modifies this
      ensures View() == Revoked(old(View()), strike, rows, penaltyRows, threshold, unused)
    {
      var target := Find(rows, strike);
      if target.None? || !target.value.isActive || strike !in strikes { return; }
      var result := RecomputeAfterRevoke(rows, penaltyRows, strike, threshold);
      if result.ValueError? || |result.value.conversions| > |unused| { return; }
      strikes := strikes[strike := strikes[strike].(isActive := false)];
      ghost var off := View();
      var gone := result.value.dissolutions;
      for k := 0 to |gone|
        invariant Dissolve(View(), gone[k..]) == Dissolve(off, gone)
      {
        penalties := Lifted(penalties, gone[k].penaltyId);
        SetConsumed(gone[k].unconsume, None);
        assert gone[k..][1..] == gone[k + 1..];
      }
      WriteConversions(result.value.conversions, unused);
    }
  }

  // ---------------------------------------------------------------- what every command keeps

  ghost predicate Keyed(l: Ledger) {
    && (forall id | id in l.strikes :: l.strikes[id].id == id)
    && (forall p | p in l.penalties :: l.penalties[p].id == p)
    && forall id | id in l.strikes && l.strikes[id].consumedBy.Some? ::
         l.strikes[id].consumedBy.value in l.penalties && l.penalties[l.strikes[id].consumedBy.value].fromStrikes
  }

  /** Every automatic penalty in force rests on exactly `threshold` strikes, all of them active. */
  ghost predicate Supported(l: Ledger, threshold: nat) {
    && Keyed(l)
    && forall p | p in l.penalties && IsAutomatic(l, p) ::
        Supporters(l, p) <= Active(l) && |Supporters(l, p)| == threshold
  }

  /** ... and no threshold's worth of strikes is left unconverted. */
  ghost predicate Settled(l: Ledger, threshold: nat) {
    Supported(l, threshold) && |Free(l)| < threshold
  }

  ghost predicate FreshIds(l: Ledger, unused: seq<Id>) {
    Distinct(unused) && forall p | p in unused :: p !in l.penalties
  }

  lemma {:induction false} DistinctCount(ids: seq<Id>)
    requires Distinct(ids)
    ensures |Elements(ids)| == |ids|
  {
    if ids != [] {
      DistinctCount(ids[1..]);
      assert ids == [ids[0]] + ids[1..];
      assert Elements(ids) == {ids[0]} + Elements(ids[1..]);
    }
  }

  lemma ConvertOneKeeps(l: Ledger, ids: seq<Id>, p: Id, threshold: nat)
    requires Supported(l, threshold) && p !in l.penalties
    requires Distinct(ids) && Elements(ids) <= Free(l) && |ids| == threshold
    ensures Supported(ConvertOne(l, ids, p), threshold)
    ensures Free(ConvertOne(l, ids, p)) == Free(l) - Elements(ids)
  {
    var l' := ConvertOne(l, ids, p);
    assert Active(l') == Active(l);
    forall q | q in l'.penalties && IsAutomatic(l', q)
      ensures Supporters(l', q) <= Active(l') && |Supporters(l', q)| == threshold
    {
      if q == p {
        assert Supporters(l', p) == Elements(ids);
        DistinctCount(ids);
      } else {
        assert IsAutomatic(l, q);
        forall id ensures id in Supporters(l', q) <==> id in Supporters(l, q) {
          if id in ids { assert id in Elements(ids); }
        }
        assert Supporters(l', q) == Supporters(l, q);
      }
    }
  }

  lemma {:induction false} ConvertKeeps(l: Ledger, groups: seq<ConversionGroup>, unused: seq<Id>, threshold: nat)
    requires Supported(l, threshold) && |groups| <= |unused| && FreshIds(l, unused)
    requires forall g | g in groups :: |g.strikeIds| == threshold
    requires Distinct(AllIds(groups)) && Elements(AllIds(groups)) <= Free(l)
    ensures Supported(Convert(l, groups, unused), threshold)
    ensures Free(Convert(l, groups, unused)) == Free(l) - Elements(AllIds(groups))
    decreases |groups|
  {
    if groups != [] {
      var ids, later := groups[0].strikeIds, AllIds(groups[1..]);
      assert AllIds(groups) == ids + later;
      DistinctParts(ids, later);
      ConvertOneKeeps(l, ids, unused[0], threshold);
      var l' := ConvertOne(l, ids, unused[0]);
      assert FreshIds(l', unused[1..]);
      ConvertKeeps(l', groups[1..], unused[1..], threshold);
    }
  }

  lemma DistinctParts(a: seq<Id>, b: seq<Id>)
    requires Distinct(a + b)
    ensures Distinct(a) && Distinct(b) && Elements(a) !! Elements(b)
    ensures Elements(a + b) == Elements(a) + Elements(b)
  {
    forall i, j | 0 <= i < j < |a| ensures a[i] != a[j] { assert (a + b)[i] == a[i] && (a + b)[j] == a[j]; }
    forall i, j | 0 <= i < j < |b| ensures b[i] != b[j] {
      assert (a + b)[|a| + i] == b[i] && (a + b)[|a| + j] == b[j];
    }
    forall i, j | 0 <= i < |a| && 0 <= j < |b| ensures a[i] != b[j] {
      assert (a + b)[i] == a[i] && (a + b)[|a| + j] == b[j];
    }
  }

  /** A reading's available strikes are the ledger's free ones, each once. */
  lemma ReadingShowsFree(l: Ledger, rows: seq<Strike>)
    requires Keyed(l) && IsReading(l, rows)
    ensures Distinct(IdsOf(Available(rows)))
    ensures Elements(IdsOf(Available(rows))) == Free(l)
    ensures |Free(l)| == |Available(rows)|
  {
    AvailableContents(rows);
    var ids := IdsOf(Available(rows));
    forall id | id in Free(l) ensures id in ids {
      assert l.strikes[id] in Available(rows);
      var i :| 0 <= i < |Available(rows)| && Available(rows)[i] == l.strikes[id];
      assert ids[i] == id;
    }
    forall id | id in ids ensures id in Free(l) {
      var i :| 0 <= i < |ids| && ids[i] == id;
      assert Available(rows)[i] in rows;
    }
    DistinctCount(ids);
  }

  /** Converting what a reading shows settles a supported ledger. */
  lemma ConversionSettles(l: Ledger, rows: seq<Strike>, unused: seq<Id>, threshold: nat)
    requires threshold >= 1 && Supported(l, threshold) && IsReading(l, rows)
    requires FreshIds(l, unused) && |Slices(Available(rows), threshold)| <= |unused|
    ensures Settled(Convert(l, Slices(Available(rows), threshold), unused), threshold)
  {
    var groups := Slices(Available(rows), threshold);
    var ids := AllIds(groups);
    ReadingShowsFree(l, rows);
    SliceSizes(Available(rows), threshold);
    SlicesSpellPrefix(Available(rows), threshold);
    assert ids == IdsOf(Available(rows))[..|ids|];
    assert Distinct(ids);
    assert Elements(ids) <= Elements(IdsOf(Available(rows)));
    ConvertKeeps(l, groups, unused, threshold);
    DistinctCount(ids);
    assert |Free(l) - Elements(ids)| == |Free(l)| - |Elements(ids)|;
  }

  // ---------------------------------------------------------------- awarding

  /** Freshly awarded strikes: new ids, active, held by no penalty. */
  ghost predicate Minted(l: Ledger, minted: seq<Strike>) {
    DistinctIds(minted) && forall s | s in minted :: s.id !in l.strikes && IsFree(s)
  }

  lemma {:induction false} InsertedRows(strikes: map<Id, Strike>, rows: seq<Strike>)
    requires DistinctIds(rows) && forall s | s in rows :: s.id !in strikes
    ensures forall s: Strike :: s.id in Inserted(strikes, rows) && Inserted(strikes, rows)[s.id] == s
                   <==> s in rows || (s.id in strikes && strikes[s.id] == s)
    ensures forall id :: id in Inserted(strikes, rows) <==> id in strikes || exists s :: s in rows && s.id == id
    ensures forall id | id in strikes :: id in Inserted(strikes, rows) && Inserted(strikes, rows)[id] == strikes[id]
    decreases |rows|
  {
    if rows != [] {
      assert rows == [rows[0]] + rows[1..];
      InsertedRows(strikes[rows[0].id := rows[0]], rows[1..]);
    }
  }

  lemma AwardKeepsSupport(l: Ledger, minted: seq<Strike>, rows: seq<Strike>, threshold: nat)
    requires Supported(l, threshold) && Minted(l, minted) && IsReading(l, rows)
    ensures var l' := Ledger(Inserted(l.strikes, minted), l.penalties);
            Supported(l', threshold) && IsReading(l', rows + minted)
  {
    InsertedRows(l.strikes, minted);
    var l' := Ledger(Inserted(l.strikes, minted), l.penalties);
    forall id | id in l'.strikes && id !in l.strikes ensures l'.strikes[id] in minted {
      var s :| s in minted && s.id == id;
      assert l'.strikes[s.id] == s;
    }
    forall p | p in l'.penalties && IsAutomatic(l', p)
      ensures Supporters(l', p) <= Active(l') && |Supporters(l', p)| == threshold
    {
      assert IsAutomatic(l, p);
      assert Supporters(l', p) == Supporters(l, p);
    }
  }

  lemma AwardSettles(l: Ledger, minted: seq<Strike>, rows: seq<Strike>, threshold: nat, unused: seq<Id>)
    requires threshold >= 1 && Settled(l, threshold) && Minted(l, minted) && IsReading(l, rows)
    requires FreshIds(l, unused) && |rows| + |minted| <= |unused|
    ensures Settled(Awarded(l, minted, rows, Some(threshold), unused), threshold)
  {
    var l' := Ledger(Inserted(l.strikes, minted), l.penalties);
    AwardKeepsSupport(l, minted, rows, threshold);
    EnoughIds(rows + minted, threshold);
    ConversionSettles(l', rows + minted, unused, threshold);
  }

  lemma DivShrinks(a: nat, t: nat)
    requires t >= 1
    ensures a / t <= a
  {
    TimesKeepsOrder(1, t, a / t);
    assert a == t * (a / t) + a % t;
  }

  lemma EnoughIds(rows: seq<Strike>, threshold: nat)
    requires threshold >= 1
    ensures |Slices(Available(rows), threshold)| <= |rows|
  {
    SliceSizes(Available(rows), threshold);
    DivShrinks(|Available(rows)|, threshold);
    SortedContents(AgeKey, FreeOf(rows));
    FreeOfShorter(rows);
  }

  lemma {:induction false} FreeOfShorter(rows: seq<Strike>)
    ensures |FreeOf(rows)| <= |rows|
  {
    if rows != [] { FreeOfShorter(rows[1..]); }
  }

  // ---------------------------------------------------------------- revoking

  function SupportIds(rows: seq<Strike>, revoked: Id, penalty: Id): set<Id> {
    set s | s in rows && s.id != revoked && s.isActive && s.consumedBy == Some(penalty) :: s.id
  }

  lemma SupportIdsStep(rows: seq<Strike>, revoked: Id, penalty: Id)
    requires DistinctIds(rows) && rows != []
    ensures rows[0].id !in SupportIds(rows[1..], revoked, penalty)
    ensures SupportIds(rows, revoked, penalty) ==
            (if rows[0].id != revoked && rows[0].isActive && rows[0].consumedBy == Some(penalty) then {rows[0].id}
             else {})
            + SupportIds(rows[1..], revoked, penalty)
  {
    assert rows == [rows[0]] + rows[1..];
  }

  lemma {:induction false} SupportCounted(rows: seq<Strike>, revoked: Id, penalty: Id)
    requires DistinctIds(rows)
    ensures SupportCount(rows, revoked, penalty) == |SupportIds(rows, revoked, penalty)|
  {
    if rows != [] {
      SupportCounted(rows[1..], revoked, penalty);
      SupportIdsStep(rows, revoked, penalty);
    }
  }

  lemma {:induction false} FoundIs(rows: seq<Strike>, id: Id)
    ensures Find(rows, id).Some? ==> Find(rows, id).value in rows && Find(rows, id).value.id == id
    ensures Find(rows, id).None? ==> forall s | s in rows :: s.id != id
  {
    if rows != [] && rows[0].id != id { FoundIs(rows[1..], id); }
  }

  lemma {:induction false} FoundPenaltyIs(rows: seq<Penalty>, id: Id)
    ensures FindPenalty(rows, id).Some? ==> FindPenalty(rows, id).value in rows && FindPenalty(rows, id).value.id == id
    ensures FindPenalty(rows, id).None? ==> forall p | p in rows :: p.id != id
  {
    if rows != [] { FoundPenaltyIs(rows[1..], id); }
  }

  /** The automatic penalty a revoked strike supports always falls, because it loses one of exactly `threshold`. */
  lemma RevokedPenaltyFalls(l: Ledger, strike: Id, rows: seq<Strike>, penalties: seq<Penalty>, threshold: nat)
    requires threshold >= 1 && Supported(l, threshold) && IsReading(l, rows) && IsPenaltyReading(l, penalties)
    requires strike in l.strikes
    ensures var held := l.strikes[strike].consumedBy;
            Dissolved(rows, penalties, l.strikes[strike], Some(threshold))
            == if held.Some? && IsAutomatic(l, held.value) then held else None
  {
    var target := l.strikes[strike];
    if target.consumedBy.Some? {
      var p := target.consumedBy.value;
      FoundPenaltyIs(penalties, p);
      assert l.penalties[p] in penalties;
      if IsAutomatic(l, p) {
        SupportCounted(rows, strike, p);
        assert SupportIds(rows, strike, p) <= Supporters(l, p) - {strike};
        SubsetSize(SupportIds(rows, strike, p), Supporters(l, p) - {strike});
      }
    }
  }

  lemma {:induction false} ConsumedByContents(rows: seq<Strike>, penalty: Id)
    ensures forall s :: s in ConsumedBy(rows, penalty) <==> s in rows && s.consumedBy == Some(penalty)
  {
    if rows != [] {
      ConsumedByContents(rows[1..], penalty);
      assert rows == [rows[0]] + rows[1..];
    }
  }

  lemma ReleasedAreSupporters(l: Ledger, rows: seq<Strike>, penalty: Id)
    requires Keyed(l) && IsReading(l, rows)
    ensures forall id :: id in IdsOf(ConsumedBy(Sorted(AgeKey, rows), penalty)) <==> id in Supporters(l, penalty)
  {
    SortedContents(AgeKey, rows);
    var held := ConsumedBy(Sorted(AgeKey, rows), penalty);
    ConsumedByContents(Sorted(AgeKey, rows), penalty);
    forall id | id in Supporters(l, penalty) ensures id in IdsOf(held) {
      assert l.strikes[id] in held;
      var i :| 0 <= i < |held| && held[i] == l.strikes[id];
      assert IdsOf(held)[i] == id;
    }
    forall id | id in IdsOf(held) ensures id in Supporters(l, penalty) {
      var i :| 0 <= i < |IdsOf(held)| && IdsOf(held)[i] == id;
      assert held[i] in held;
    }
  }

  /** The ledger between deactivating a strike with its penalty and regrouping what that released. */
  ghost function AfterRevoke(l: Ledger, strike: Id, dissolved: Option<Id>): Ledger {
    Ledger(map id | id in l.strikes :: Recomputed(l.strikes[id], dissolved, strike),
           if dissolved.Some? then Lifted(l.penalties, dissolved.value) else l.penalties)
  }

  lemma DissolveIs(l: Ledger, strike: Id, rows: seq<Strike>, dissolved: Option<Id>)
    requires Keyed(l) && IsReading(l, rows) && strike in l.strikes && l.strikes[strike].isActive
    ensures Dissolve(Ledger(l.strikes[strike := l.strikes[strike].(isActive := false)], l.penalties),
                     DissolutionsOf(rows, dissolved))
         == AfterRevoke(l, strike, dissolved)
  {
    var off := Ledger(l.strikes[strike := l.strikes[strike].(isActive := false)], l.penalties);
    var gone := DissolutionsOf(rows, dissolved);
    if dissolved.Some? {
      ReleasedAreSupporters(l, rows, dissolved.value);
      assert gone[1..] == [];
      assert Dissolve(off, gone)
          == Ledger(Marked(off.strikes, gone[0].unconsume, None), Lifted(off.penalties, dissolved.value));
      assert Marked(off.strikes, gone[0].unconsume, None) == AfterRevoke(l, strike, dissolved).strikes;
    } else {
      assert off.strikes == AfterRevoke(l, strike, dissolved).strikes;
    }
  }

  lemma RecomputedIsReading(l: Ledger, strike: Id, rows: seq<Strike>, dissolved: Option<Id>)
    requires Keyed(l) && IsReading(l, rows)
    ensures IsReading(AfterRevoke(l, strike, dissolved), RecomputedAll(rows, dissolved, strike))
  {
    var rows', l' := RecomputedAll(rows, dissolved, strike), AfterRevoke(l, strike, dissolved);
    forall s ensures s in rows' <==> s.id in l'.strikes && l'.strikes[s.id] == s {
      if s in rows' {
        var i :| 0 <= i < |rows'| && rows'[i] == s;
        assert rows[i] in rows;
      }
      if s.id in l'.strikes && l'.strikes[s.id] == s {
        assert l.strikes[s.id] in rows;
        var i :| 0 <= i < |rows| && rows[i] == l.strikes[s.id];
        assert rows'[i] == s;
      }
    }
  }

  lemma RevokeKeepsSupport(l: Ledger, strike: Id, threshold: nat)
    requires threshold >= 1 && Supported(l, threshold) && strike in l.strikes
    ensures var held := l.strikes[strike].consumedBy;
            var dissolved := if held.Some? && IsAutomatic(l, held.value) then held else None;
            Supported(AfterRevoke(l, strike, dissolved), threshold)
  {
    var held := l.strikes[strike].consumedBy;
    var dissolved := if held.Some? && IsAutomatic(l, held.value) then held else None;
    var l' := AfterRevoke(l, strike, dissolved);
    forall p | p in l'.penalties && IsAutomatic(l', p)
      ensures Supporters(l', p) <= Active(l') && |Supporters(l', p)| == threshold
    {
      assert IsAutomatic(l, p) && dissolved != Some(p);
      assert Supporters(l', p) == Supporters(l, p);
      assert strike !in Supporters(l, p);
    }
  }

  /** An accepted revocation: the strike and the penalty it held up fall, and what that frees is regrouped. */
  lemma RevokedIs(l: Ledger, strike: Id, rows: seq<Strike>, penalties: seq<Penalty>, threshold: nat, unused: seq<Id>)
    returns (dissolved: Option<Id>)
    requires threshold >= 1 && Supported(l, threshold) && IsReading(l, rows) && IsPenaltyReading(l, penalties)
    requires |rows| <= |unused|
    ensures strike !in l.strikes || !l.strikes[strike].isActive ==>
              Revoked(l, strike, rows, penalties, Some(threshold), unused) == l
    ensures strike in l.strikes && l.strikes[strike].isActive ==>
              && Keyed(l)
              && var held := l.strikes[strike].consumedBy;
              && dissolved == (if held.Some? && IsAutomatic(l, held.value) then held else None)
              && var groups := Slices(Available(RecomputedAll(rows, dissolved, strike)), threshold);
              && |groups| <= |unused|
              && Revoked(l, strike, rows, penalties, Some(threshold), unused)
                 == Convert(AfterRevoke(l, strike, dissolved), groups, unused)
  {
    FoundIs(rows, strike);
    dissolved := None;
    if strike in l.strikes && l.strikes[strike].isActive {
      assert l.strikes[strike] in rows;
      dissolved := Dissolved(rows, penalties, l.strikes[strike], Some(threshold));
      RevokedPenaltyFalls(l, strike, rows, penalties, threshold);
      DissolveIs(l, strike, rows, dissolved);
      EnoughIds(RecomputedAll(rows, dissolved, strike), threshold);
    }
  }

  lemma RevokeSettles(l: Ledger, strike: Id, rows: seq<Strike>, penalties: seq<Penalty>, threshold: nat,
                      unused: seq<Id>)
    requires threshold >= 1 && Settled(l, threshold) && IsReading(l, rows) && IsPenaltyReading(l, penalties)
    requires FreshIds(l, unused) && |rows| <= |unused|
    ensures Settled(Revoked(l, strike, rows, penalties, Some(threshold), unused), threshold)
  {
    var dissolved := RevokedIs(l, strike, rows, penalties, threshold, unused);
    if strike in l.strikes && l.strikes[strike].isActive {
      RecomputedIsReading(l, strike, rows, dissolved);
      RevokeKeepsSupport(l, strike, threshold);
      ConversionSettles(AfterRevoke(l, strike, dissolved), RecomputedAll(rows, dissolved, strike), unused, threshold);
    }
  }

  // ---------------------------------------------------------------- every run

  datatype Command =
    | AwardStrikes(minted: seq<Strike>, rows: seq<Strike>, unused: seq<Id>)
    | RevokeStrike(strike: Id, rows: seq<Strike>, penalties: seq<Penalty>, unused: seq<Id>)
    | AwardPenalty(penalty: Id)
    | RevokePenalty(penalty: Id)

  /** The loader read the tables as they are, and every generated id is new. */
  ghost predicate Possible(l: Ledger, c: Command) {
    match c
    case AwardStrikes(minted, rows, unused) =>
      Minted(l, minted) && IsReading(l, rows) && FreshIds(l, unused) && |rows| + |minted| <= |unused|
    case RevokeStrike(_, rows, penalties, unused) =>
      IsReading(l, rows) && IsPenaltyReading(l, penalties) && FreshIds(l, unused) && |rows| <= |unused|
    case AwardPenalty(p) => p !in l.penalties
    case RevokePenalty(_) => true
  }

  function Execute(l: Ledger, c: Command, threshold: nat): Ledger {
    match c
    case AwardStrikes(minted, rows, unused) => Awarded(l, minted, rows, Some(threshold), unused)
    case RevokeStrike(strike, rows, penalties, unused) => Revoked(l, strike, rows, penalties, Some(threshold), unused)
    case AwardPenalty(p) => Ledger(l.strikes, l.penalties[p := Penalty(p, false, true)])
    case RevokePenalty(p) => Ledger(l.strikes, Lifted(l.penalties, p))
  }

  /**
   The penalty commands touch one penalty and no strike: one given by hand is in force and not from strikes,
   one revoked is no longer in force.
   */
  lemma PenaltyCommandsAre(l: Ledger, penalty: Id, threshold: nat)
    ensures var given := Execute(l, AwardPenalty(penalty), threshold);
            && given.strikes == l.strikes && given.penalties == l.penalties[penalty := Penalty(penalty, false, true)]
    ensures var lifted := Execute(l, RevokePenalty(penalty), threshold);
            && lifted.strikes == l.strikes && lifted.penalties.Keys == l.penalties.Keys
            && (penalty in l.penalties ==>
                  lifted.penalties[penalty]
                    == Penalty(l.penalties[penalty].id, l.penalties[penalty].fromStrikes, false))
            && forall other | other in l.penalties && other != penalty :: lifted.penalties[other] == l.penalties[other]
  {
  }

  /** The run, from empty tables, through these ledgers. */
  ghost predicate Leads(run: seq<Command>, threshold: nat, ledgers: seq<Ledger>) {
    && |ledgers| == |run| + 1
    && ledgers[0] == EMPTY
    && forall i | 0 <= i < |run| ::
         Possible(ledgers[i], run[i]) && ledgers[i + 1] == Execute(ledgers[i], run[i], threshold)
  }

  lemma PenaltyCommandsSettle(l: Ledger, c: Command, threshold: nat)
    requires Settled(l, threshold) && Possible(l, c) && (c.AwardPenalty? || c.RevokePenalty?)
    ensures Settled(Execute(l, c, threshold), threshold)
  {
    var l' := Execute(l, c, threshold);
    assert Free(l') == Free(l);
    assert Active(l') == Active(l);
    forall p | p in l'.penalties && IsAutomatic(l', p)
      ensures Supporters(l', p) <= Active(l') && |Supporters(l', p)| == threshold
    {
      assert IsAutomatic(l, p);
      assert Supporters(l', p) == Supporters(l, p);
    }
  }

  lemma StepSettles(l: Ledger, c: Command, threshold: nat)
    requires threshold >= 1 && Settled(l, threshold) && Possible(l, c)
    ensures Settled(Execute(l, c, threshold), threshold)
  {
    match c
    case AwardStrikes(minted, rows, unused) => AwardSettles(l, minted, rows, threshold, unused);
    case RevokeStrike(strike, rows, penalties, unused) => RevokeSettles(l, strike, rows, penalties, threshold, unused);
    case _ => PenaltyCommandsSettle(l, c, threshold);
  }

  /** Every ledger a run goes through is settled. */
  lemma {:induction false} RunsStaySettled(run: seq<Command>, threshold: nat, ledgers: seq<Ledger>, i: nat)
    requires threshold >= 1 && Leads(run, threshold, ledgers) && i <= |run|
    ensures Settled(ledgers[i], threshold)
  {
    if i == 0 {
      assert Free(EMPTY) == {};
    } else {
      RunsStaySettled(run, threshold, ledgers, i - 1);
      StepSettles(ledgers[i - 1], run[i - 1], threshold);
    }
  }

  // ---------------------------------------------------------------- the arithmetic of the ledger

  ghost function HeldBy(l: Ledger, ps: set<Id>): set<Id> {
    set id | id in l.strikes && l.strikes[id].consumedBy.Some? && l.strikes[id].consumedBy.value in ps
  }

  lemma {:induction false} HeldCount(l: Ledger, ps: set<Id>, threshold: nat)
    requires Supported(l, threshold) && ps <= Automatic(l)
    ensures |HeldBy(l, ps)| == threshold * |ps|
  {
    if ps == {} {
      assert HeldBy(l, ps) == {};
    } else {
      var p :| p in ps;
      HeldCount(l, ps - {p}, threshold);
      assert HeldBy(l, ps) == HeldBy(l, ps - {p}) + Supporters(l, p);
      assert |ps| == |ps - {p}| + 1;
      assert threshold * (|ps - {p}| + 1) == threshold * |ps - {p}| + threshold;
    }
  }

  lemma ActiveSplits(l: Ledger, threshold: nat)
    requires Supported(l, threshold)
    ensures var held := HeldBy(l, Automatic(l));
            Active(l) == held + Free(l) + Frozen(l) && held !! Free(l) && held !! Frozen(l) && Free(l) !! Frozen(l)
  {
    var held := HeldBy(l, Automatic(l));
    forall id | id in held ensures id in Active(l) {
      assert id in Supporters(l, l.strikes[id].consumedBy.value);
    }
  }

  /** Active strikes = threshold for each automatic penalty in force, plus the free and the frozen ones. */
  lemma LedgerBalance(l: Ledger, threshold: nat)
    requires Supported(l, threshold)
    ensures |Active(l)| == threshold * |Automatic(l)| + |Free(l)| + |Frozen(l)|
  {
    HeldCount(l, Automatic(l), threshold);
    ActiveSplits(l, threshold);
  }

  /** One automatic penalty stands for every complete threshold of active strikes. */
  ghost predicate AtFloor(l: Ledger, threshold: nat)
    requires threshold >= 1
  {
    |Automatic(l)| == |Active(l)| / threshold
  }

  /**
   ... if and only if the strikes left over - free, or frozen under a revoked penalty - are fewer than a threshold.
   */
  lemma AtFloorIff(l: Ledger, threshold: nat)
    requires threshold >= 1 && Supported(l, threshold)
    ensures AtFloor(l, threshold) <==> |Free(l)| + |Frozen(l)| < threshold
  {
    LedgerBalance(l, threshold);
    var rest := |Free(l)| + |Frozen(l)|;
    if rest < threshold {
      QuotientIs(|Active(l)|, threshold, |Automatic(l)|, rest);
    } else {
      QuotientAbove(|Active(l)|, threshold, |Automatic(l)|, rest);
    }
  }

  lemma QuotientAbove(a: nat, t: nat, q: nat, r: nat)
    requires t >= 1 && a == q * t + r && r >= t
    ensures a / t > q
  {
    assert (q + 1) * t <= a;
    TimesKeepsOrder(a / t + 1, q + 1, t);
  }

  /** No strike is consumed by a penalty out of force. */
  ghost predicate NothingFrozen(l: Ledger) {
    forall id | id in l.strikes && l.strikes[id].consumedBy.Some? :: IsAutomatic(l, l.strikes[id].consumedBy.value)
  }

  lemma {:induction false} ConvertFreezesNothing(l: Ledger, groups: seq<ConversionGroup>, unused: seq<Id>)
    requires NothingFrozen(l) && |groups| <= |unused| && FreshIds(l, unused)
    ensures NothingFrozen(Convert(l, groups, unused))
    decreases |groups|
  {
    if groups != [] {
      ConvertFreezesNothing(ConvertOne(l, groups[0].strikeIds, unused[0]), groups[1..], unused[1..]);
    }
  }

  lemma AwardFreezesNothing(l: Ledger, minted: seq<Strike>, rows: seq<Strike>, threshold: nat, unused: seq<Id>)
    requires threshold >= 1 && NothingFrozen(l) && Minted(l, minted) && FreshIds(l, unused)
    ensures NothingFrozen(Awarded(l, minted, rows, Some(threshold), unused))
  {
    InsertedRows(l.strikes, minted);
    var l' := Ledger(Inserted(l.strikes, minted), l.penalties);
    forall id | id in l'.strikes && id !in l.strikes ensures l'.strikes[id] in minted {
      var s :| s in minted && s.id == id;
      assert l'.strikes[s.id] == s;
    }
    assert NothingFrozen(l');
    var groups := Slices(Available(rows + minted), threshold);
    if |groups| <= |unused| { ConvertFreezesNothing(l', groups, unused); }
  }

  lemma RevokeFreezesNothing(l: Ledger, strike: Id, rows: seq<Strike>, penalties: seq<Penalty>, threshold: nat,
                             unused: seq<Id>)
    requires threshold >= 1 && Settled(l, threshold) && NothingFrozen(l)
    requires IsReading(l, rows) && IsPenaltyReading(l, penalties) && FreshIds(l, unused) && |rows| <= |unused|
    ensures NothingFrozen(Revoked(l, strike, rows, penalties, Some(threshold), unused))
  {
    var dissolved := RevokedIs(l, strike, rows, penalties, threshold, unused);
    if strike in l.strikes && l.strikes[strike].isActive {
      assert NothingFrozen(AfterRevoke(l, strike, dissolved));
      var groups := Slices(Available(RecomputedAll(rows, dissolved, strike)), threshold);
      ConvertFreezesNothing(AfterRevoke(l, strike, dissolved), groups, unused);
    }
  }

  /** The one command that can break the floor: revoking a penalty that strikes hold up. */
  predicate RevokesAutomatic(l: Ledger, c: Command) {
    c.RevokePenalty? && IsAutomatic(l, c.penalty)
  }

  lemma StepFreezesNothing(l: Ledger, c: Command, threshold: nat)
    requires threshold >= 1 && Settled(l, threshold) && NothingFrozen(l) && Possible(l, c) && !RevokesAutomatic(l, c)
    ensures NothingFrozen(Execute(l, c, threshold))
  {
    match c
    case AwardStrikes(minted, rows, unused) => AwardFreezesNothing(l, minted, rows, threshold, unused);
    case RevokeStrike(strike, rows, penalties, unused) =>
      RevokeFreezesNothing(l, strike, rows, penalties, threshold, unused);
    case AwardPenalty(_) =>
    case RevokePenalty(_) =>
  }

  lemma NothingFrozenIsAtFloor(l: Ledger, threshold: nat)
    requires threshold >= 1 && Settled(l, threshold) && NothingFrozen(l)
    ensures AtFloor(l, threshold)
  {
    assert Frozen(l) == {};
    AtFloorIff(l, threshold);
  }

  /** Revoking a penalty by hand keeps the floor exactly if it is not an automatic one in force. */
  lemma RevokingBreaksFloorIff(l: Ledger, penalty: Id, threshold: nat)
    requires threshold >= 1 && AtFloor(l, threshold)
    ensures AtFloor(Execute(l, RevokePenalty(penalty), threshold), threshold) <==> !IsAutomatic(l, penalty)
  {
    var l' := Execute(l, RevokePenalty(penalty), threshold);
    assert Active(l') == Active(l);
    assert Automatic(l') == Automatic(l) - {penalty};
    assert IsAutomatic(l, penalty) ==> penalty in Automatic(l);
  }

  lemma {:induction false} UntilThenNothingIsFrozen(run: seq<Command>, threshold: nat, ledgers: seq<Ledger>, i: nat)
    requires threshold >= 1 && Leads(run, threshold, ledgers) && i <= |run|
    requires forall j | 0 <= j < i :: !RevokesAutomatic(ledgers[j], run[j])
    ensures NothingFrozen(ledgers[i])
  {
    if i > 0 {
      UntilThenNothingIsFrozen(run, threshold, ledgers, i - 1);
      RunsStaySettled(run, threshold, ledgers, i - 1);
      StepFreezesNothing(ledgers[i - 1], run[i - 1], threshold);
    }
  }

  /**
   Over any run, one automatic penalty has stood for every complete threshold of active strikes all along
   if and only if no automatic penalty in force was revoked by hand.
   */
  lemma {:induction false} PenaltiesAreFloor(run: seq<Command>, threshold: nat, ledgers: seq<Ledger>, i: nat)
    requires threshold >= 1 && Leads(run, threshold, ledgers) && i <= |run|
    ensures (forall j | 0 <= j <= i :: AtFloor(ledgers[j], threshold))
       <==> (forall j | 0 <= j < i :: !RevokesAutomatic(ledgers[j], run[j]))
  {
    if forall j | 0 <= j < i :: !RevokesAutomatic(ledgers[j], run[j]) {
      forall j | 0 <= j <= i ensures AtFloor(ledgers[j], threshold) {
        RunsStaySettled(run, threshold, ledgers, j);
        UntilThenNothingIsFrozen(run, threshold, ledgers, j);
        NothingFrozenIsAtFloor(ledgers[j], threshold);
      }
    } else {
      var j :| 0 <= j < i && RevokesAutomatic(ledgers[j], run[j]);
      if AtFloor(ledgers[j], threshold) { RevokingBreaksFloorIff(ledgers[j], run[j].penalty, threshold); }
      assert !AtFloor(ledgers[j], threshold) || !AtFloor(ledgers[j + 1], threshold);
    }
  }

  /**
   Until an automatic penalty is revoked by hand, automatic penalties number floor(active strikes / threshold),
   each on exactly a threshold of active strikes, and fewer than a threshold are unconsumed.
   */
  lemma StrikeLedgerArithmetic(run: seq<Command>, threshold: nat, ledgers: seq<Ledger>, i: nat)
    requires threshold >= 1 && Leads(run, threshold, ledgers) && i <= |run|
    requires forall j | 0 <= j < i :: !RevokesAutomatic(ledgers[j], run[j])
    ensures var l := ledgers[i];
            && |Automatic(l)| == |Active(l)| / threshold
            && (forall p | p in Automatic(l) :: |Supporters(l, p)| == threshold && Supporters(l, p) <= Active(l))
            && |Free(l)| < threshold
  {
    RunsStaySettled(run, threshold, ledgers, i);
    UntilThenNothingIsFrozen(run, threshold, ledgers, i);
    NothingFrozenIsAtFloor(ledgers[i], threshold);
  }

  // ---------------------------------------------------------------- a run below the floor

  const LATE := Strike(1, "late", 0, true, None)

  /** With a threshold of one: a strike is awarded, and the penalty it brings is revoked by hand. */
  const AWARD_THEN_LIFT: seq<Command> := [AwardStrikes([LATE], [], [10]), RevokePenalty(10)]

  const PENALISED := Ledger(map[1 := LATE.(consumedBy := Some(10))], map[10 := Penalty(10, true, true)])
  const PARDONED := Ledger(map[1 := LATE.(consumedBy := Some(10))], map[10 := Penalty(10, true, false)])

  lemma OneStrikeConverts()
    ensures MaybeConvert([LATE], Some(1)) == Ok([GroupOf([LATE])])
  {
    assert Sorted(AgeKey, FreeOf([LATE])) == [LATE];
    assert Slices([LATE], 1) == [GroupOf([LATE])] by {
      assert [LATE][..1] == [LATE] && [LATE][1..] == [];
    }
  }

  lemma AwardPenalises()
    ensures Execute(EMPTY, AWARD_THEN_LIFT[0], 1) == PENALISED
  {
    OneStrikeConverts();
    assert [] + [LATE] == [LATE];
    assert Inserted(map[], [LATE]) == map[1 := LATE];
    assert Convert(Ledger(map[1 := LATE], map[]), [GroupOf([LATE])], [10]) == PENALISED;
  }

  lemma PardonCounts()
    ensures AtFloor(PENALISED, 1) && !AtFloor(PARDONED, 1)
  {
    assert Active(PENALISED) == {1} && Automatic(PENALISED) == {10};
    assert Active(PARDONED) == {1} && Automatic(PARDONED) == {};
  }

  /** The strike stays active and consumed with no penalty in force, one short of the floor. */
  lemma PardonLeavesBelowFloor()
    ensures Leads(AWARD_THEN_LIFT, 1, [EMPTY, PENALISED, PARDONED])
    ensures AtFloor(PENALISED, 1) && !AtFloor(PARDONED, 1)
  {
    AwardPenalises();
    PardonCounts();
  }
}
