/**
 Consistency findings: the nightly checker's bookkeeping and the verdict commands
 (backend/app/modules/admin/commands.py).
 */
module Findings {
  import opened Common

  datatype Status = Open | Resolved | Dismissed

  /** Derived row ids: of an invariant and subject, or of an offer expiry the worker fell back on. */
  datatype FindingId = Drift(rule: string, subject: nat) | Expiry(offer: Id, deadline: int)

  datatype Finding = Finding(status: Status, resolvedAt: Option<int>, detail: string)

  type Table = map<FindingId, Finding>

  datatype Violation = Violation(id: FindingId, detail: string)

  /** What the loader read of an existing row. */
  datatype Existing = Existing(id: FindingId, status: Status)

  datatype Op = InsertOpen(id: FindingId, detail: string) | Reopen(id: FindingId, detail: string)
    | Close(id: FindingId, at: int)

  datatype RunPlan = RunPlan(ops: seq<Op>, raised: nat, reopened: nat, healed: nat)

  function Ids(violations: seq<Violation>): set<FindingId> {
    if violations == [] then {} else Ids(violations[..|violations| - 1]) + {violations[|violations| - 1].id}
  }

  lemma {:induction false} IdsAre(violations: seq<Violation>)
    ensures forall i | 0 <= i < |violations| :: violations[i].id in Ids(violations)
    ensures forall id | id in Ids(violations) :: exists i :: 0 <= i < |violations| && violations[i].id == id
  {
    if violations != [] {
      var before := violations[..|violations| - 1];
      IdsAre(before);
      forall id | id in Ids(violations) ensures exists i :: 0 <= i < |violations| && violations[i].id == id {
        if id in Ids(before) {
          var i :| 0 <= i < |before| && before[i].id == id;
          assert violations[i].id == id;
        }
      }
      forall i | 0 <= i < |violations| ensures violations[i].id in Ids(violations) {
        if i < |before| { assert before[i].id in Ids(before); }
      }
    }
  }

  function StatusIn(existing: seq<Existing>, id: FindingId): Option<Status> {
    if existing == [] then None
    else if existing[0].id == id then Some(existing[0].status)
    else StatusIn(existing[1..], id)
  }

  // ---------------------------------------------------------------- deciding a run

  function OpFor(v: Violation, existing: seq<Existing>): seq<Op> {
    match StatusIn(existing, v.id)
    case None => [InsertOpen(v.id, v.detail)]
    case Some(Resolved) => [Reopen(v.id, v.detail)]
    case Some(_) => []
  }

  function ViolationOps(violations: seq<Violation>, existing: seq<Existing>): seq<Op> {
    if violations == [] then []
    else ViolationOps(violations[..|violations| - 1], existing) + OpFor(violations[|violations| - 1], existing)
  }

  function Healed(existing: seq<Existing>, violating: set<FindingId>): seq<FindingId> {
    if existing == [] then []
    else
      Healed(existing[..|existing| - 1], violating)
      + var e := existing[|existing| - 1]; if e.status.Dismissed? && e.id !in violating then [e.id] else []
  }

  function CloseOps(ids: seq<FindingId>, now: int): seq<Op> {
    seq(|ids|, i requires 0 <= i < |ids| => Close(ids[i], now))
  }

  function RunOps(violations: seq<Violation>, existing: seq<Existing>, now: int): seq<Op> {
    ViolationOps(violations, existing) + CloseOps(Healed(existing, Ids(violations)), now)
  }

  function Inserts(ops: seq<Op>): nat {
    if ops == [] then 0 else Inserts(ops[..|ops| - 1]) + if ops[|ops| - 1].InsertOpen? then 1 else 0
  }

  function Reopens(ops: seq<Op>): nat {
    if ops == [] then 0 else Reopens(ops[..|ops| - 1]) + if ops[|ops| - 1].Reopen? then 1 else 0
  }

  lemma CountsSnoc(ops: seq<Op>, op: Op)
    ensures Inserts(ops + [op]) == Inserts(ops) + (if op.InsertOpen? then 1 else 0)
    ensures Reopens(ops + [op]) == Reopens(ops) + (if op.Reopen? then 1 else 0)
  {
    assert (ops + [op])[..|ops|] == ops;
  }

  lemma ViolationOpsStep(violations: seq<Violation>, existing: seq<Existing>, i: nat)
    requires i < |violations|
    ensures ViolationOps(violations[..i + 1], existing)
        == ViolationOps(violations[..i], existing) + OpFor(violations[i], existing)
    ensures Ids(violations[..i + 1]) == Ids(violations[..i]) + {violations[i].id}
  {
    assert violations[..i + 1][..i] == violations[..i];
  }

  /** The loop over the violations: operations, counters, and the ids seen. */
  method CollectOps(violations: seq<Violation>, existing: seq<Existing>)
    returns (ops: seq<Op>, raised: nat, reopened: nat, violating: set<FindingId>)
    ensures ops == ViolationOps(violations, existing) && raised == Inserts(ops) && reopened == Reopens(ops)
    ensures violating == Ids(violations)
  {
    ops, raised, reopened, violating := [], 0, 0, {};
    for i := 0 to |violations|
      invariant ops == ViolationOps(violations[..i], existing)
      invariant raised == Inserts(ops) && reopened == Reopens(ops)
      invariant violating == Ids(violations[..i])
    {
      var v := violations[i];
      ViolationOpsStep(violations, existing, i);
      violating := violating + {v.id};
      var status := StatusIn(existing, v.id);
      if status.None? {
        CountsSnoc(ops, InsertOpen(v.id, v.detail));
        raised := raised + 1;
        ops := ops + [InsertOpen(v.id, v.detail)];
      } else if status.value.Resolved? {
        CountsSnoc(ops, Reopen(v.id, v.detail));
        reopened := reopened + 1;
        ops := ops + [Reopen(v.id, v.detail)];
      }
    }
    assert violations[..|violations|] == violations;
  }

  method CollectHealed(existing: seq<Existing>, violating: set<FindingId>) returns (healed: seq<FindingId>)
    ensures healed == Healed(existing, violating)
  {
    healed := [];
    for i := 0 to |existing|
      invariant healed == Healed(existing[..i], violating)
    {
      assert existing[..i + 1][..i] == existing[..i];
      if existing[i].status.Dismissed? && existing[i].id !in violating {
        healed := healed + [existing[i].id];
      }
    }
    assert existing[..|existing|] == existing;
  }

  /** `_decide_run_consistency_checker`, as far as findings go. */
  method DecideRun(violations: seq<Violation>, existing: seq<Existing>, now: int) returns (plan: RunPlan)
    ensures plan.ops == RunOps(violations, existing, now)
    ensures plan.raised == Inserts(ViolationOps(violations, existing))
    ensures plan.reopened == Reopens(ViolationOps(violations, existing))
    ensures plan.healed == |Healed(existing, Ids(violations))|
  {
    var ops, raised, reopened, violating := CollectOps(violations, existing);
    var healed := CollectHealed(existing, violating);
    plan := RunPlan(ops + CloseOps(healed, now), raised, reopened, |healed|);
  }

  // ---------------------------------------------------------------- applying it

  /** None: the insert met an existing key, so the transaction fails. */
  function ApplyOp(t: Table, op: Op): Option<Table> {
    match op
    case InsertOpen(id, detail) => if id in t then None else Some(t[id := Finding(Open, None, detail)])
    case Reopen(id, detail) => Some(if id in t then t[id := Finding(Open, None, detail)] else t)
    case Close(id, at) => Some(if id in t then t[id := t[id].(status := Resolved, resolvedAt := Some(at))] else t)
  }

  function ApplyOps(t: Table, ops: seq<Op>): Option<Table> {
    if ops == [] then Some(t)
    else
      match ApplyOps(t, ops[..|ops| - 1])
      case None => None
      case Some(t') => ApplyOp(t', ops[|ops| - 1])
  }

  /** The loader's reading: the rows of these violations and every dismissed row, once each, in any order. */
  ghost predicate Reads(t: Table, violations: seq<Violation>, existing: seq<Existing>) {
    && (forall i, j | 0 <= i < j < |existing| :: existing[i].id != existing[j].id)
    && (forall e | e in existing :: e.id in t && t[e.id].status == e.status)
    && forall id | id in t && (id in Ids(violations) || t[id].status.Dismissed?) ::
        Existing(id, t[id].status) in existing
  }

  predicate NoAbsentRepeats(t: Table, violations: seq<Violation>) {
    forall i, j | 0 <= i < j < |violations| && violations[i].id == violations[j].id :: violations[i].id in t
  }

  // ---------------------------------------------------------------- what a run amounts to

  /** The detail a violation id is (re)opened with: that of its last listing. */
  function LastDetail(violations: seq<Violation>, id: FindingId): string {
    if violations == [] then ""
    else
      var v := violations[|violations| - 1];
      if v.id == id then v.detail else LastDetail(violations[..|violations| - 1], id)
  }

  function Opened(t: Table, violations: seq<Violation>, id: FindingId): Finding
    requires id in t.Keys + Ids(violations)
  {
    if id in Ids(violations) && (id !in t || t[id].status.Resolved?) then
      Finding(Open, None, LastDetail(violations, id))
    else t[id]
  }

  function AfterOpening(t: Table, violations: seq<Violation>): Table {
    map id | id in t.Keys + Ids(violations) :: Opened(t, violations, id)
  }

  /** The whole effect, row by row: missing and resolved violations are open, dismissed non-violations resolved. */
  function AfterRun(t: Table, violations: seq<Violation>, now: int): Table {
    map id | id in t.Keys + Ids(violations) ::
      if id in t && id !in Ids(violations) && t[id].status.Dismissed? then
        t[id].(status := Resolved, resolvedAt := Some(now))
      else Opened(t, violations, id)
  }

  lemma {:induction false} StatusRead(existing: seq<Existing>, id: FindingId)
    requires forall i, j | 0 <= i < j < |existing| :: existing[i].id != existing[j].id
    ensures forall s :: StatusIn(existing, id) == Some(s) <==> Existing(id, s) in existing
    ensures StatusIn(existing, id).None? ==> forall e | e in existing :: e.id != id
  {
    if existing != [] {
      StatusRead(existing[1..], id);
      assert existing == [existing[0]] + existing[1..];
    }
  }

  /** The reading knows the table's status of every one of these violations. */
  ghost predicate Known(t: Table, violations: seq<Violation>, existing: seq<Existing>) {
    forall i | 0 <= i < |violations| ::
      var id := violations[i].id; StatusIn(existing, id) == if id in t then Some(t[id].status) else None
  }

  lemma ReadingKnows(t: Table, violations: seq<Violation>, existing: seq<Existing>)
    requires Reads(t, violations, existing)
    ensures Known(t, violations, existing)
  {
    IdsAre(violations);
    forall i | 0 <= i < |violations|
      ensures var id := violations[i].id; StatusIn(existing, id) == if id in t then Some(t[id].status) else None
    {
      var id := violations[i].id;
      StatusRead(existing, id);
      assert id in t ==> Existing(id, t[id].status) in existing;
      match StatusIn(existing, id)
      case None =>
      case Some(s) => assert Existing(id, s) in existing;
    }
  }

  lemma {:induction false} OpsAppend(t: Table, a: seq<Op>, b: seq<Op>)
    ensures ApplyOps(t, a + b) == match ApplyOps(t, a) case None => None case Some(t') => ApplyOps(t', b)
    decreases |b|
  {
    if b == [] {
      assert a + b == a;
    } else {
      assert (a + b)[..|a + b| - 1] == a + b[..|b| - 1];
      OpsAppend(t, a, b[..|b| - 1]);
    }
  }

  lemma RepeatsSnoc(t: Table, violations: seq<Violation>)
    requires violations != []
    ensures var before, v := violations[..|violations| - 1], violations[|violations| - 1];
            NoAbsentRepeats(t, violations) <==> NoAbsentRepeats(t, before) && (v.id in t || v.id !in Ids(before))
  {
    var before, v := violations[..|violations| - 1], violations[|violations| - 1];
    IdsAre(before);
    assert forall i | 0 <= i < |before| :: before[i] == violations[i];
    if NoAbsentRepeats(t, violations) && v.id in Ids(before) {
      var i :| 0 <= i < |before| && before[i].id == v.id;
      assert violations[i].id == violations[|violations| - 1].id;
    }
  }

  lemma OpeningStep(t: Table, before: seq<Violation>, v: Violation, existing: seq<Existing>)
    requires StatusIn(existing, v.id) == if v.id in t then Some(t[v.id].status) else None
    ensures ApplyOps(AfterOpening(t, before), OpFor(v, existing))
         == if v.id in t || v.id !in Ids(before) then Some(AfterOpening(t, before + [v])) else None
  {
    var mid, all := AfterOpening(t, before), before + [v];
    assert all[..|all| - 1] == before;
    var ops := OpFor(v, existing);
    if ops != [] {
      assert ops[..0] == [];
      assert ApplyOps(mid, ops) == ApplyOp(mid, ops[0]);
    }
    if v.id in t || v.id !in Ids(before) {
      var after := ApplyOps(mid, ops).value;
      forall id | id in t.Keys + Ids(all) ensures id in after && after[id] == Opened(t, all, id) {
        assert id != v.id ==> LastDetail(all, id) == LastDetail(before, id);
      }
      assert after.Keys == t.Keys + Ids(all);
      assert after == AfterOpening(t, all);
    }
  }

  /** What opening these violations comes to. */
  function Opening(t: Table, violations: seq<Violation>): Option<Table> {
    if NoAbsentRepeats(t, violations) then Some(AfterOpening(t, violations)) else None
  }

  lemma OpeningSnoc(t: Table, before: seq<Violation>, v: Violation, existing: seq<Existing>)
    requires StatusIn(existing, v.id) == if v.id in t then Some(t[v.id].status) else None
    requires ApplyOps(t, ViolationOps(before, existing)) == Opening(t, before)
    ensures ApplyOps(t, ViolationOps(before, existing) + OpFor(v, existing)) == Opening(t, before + [v])
  {
    OpsAppend(t, ViolationOps(before, existing), OpFor(v, existing));
    assert (before + [v])[..|before|] == before;
    RepeatsSnoc(t, before + [v]);
    OpeningStep(t, before, v, existing);
  }

  /** Opening succeeds exactly without a repeated new id, and then opens what was missing or resolved. */
  lemma {:induction false} OpeningIs(t: Table, violations: seq<Violation>, existing: seq<Existing>)
    requires Known(t, violations, existing)
    ensures ApplyOps(t, ViolationOps(violations, existing)) == Opening(t, violations)
    decreases |violations|
  {
    if violations == [] {
      assert AfterOpening(t, violations) == t;
    } else {
      var before, v := violations[..|violations| - 1], violations[|violations| - 1];
      assert forall i | 0 <= i < |before| :: before[i] == violations[i];
      assert violations == before + [v];
      OpeningIs(t, before, existing);
      OpeningSnoc(t, before, v, existing);
    }
  }

  lemma {:induction false} HealedAre(existing: seq<Existing>, violating: set<FindingId>)
    ensures forall id :: id in Healed(existing, violating) <==> id !in violating && Existing(id, Dismissed) in existing
  {
    if existing != [] {
      HealedAre(existing[..|existing| - 1], violating);
      assert existing == existing[..|existing| - 1] + [existing[|existing| - 1]];
    }
  }

  function Closed(t: Table, ids: seq<FindingId>, now: int): Table {
    map id | id in t :: if id in ids then t[id].(status := Resolved, resolvedAt := Some(now)) else t[id]
  }

  lemma {:induction false} ClosingIs(t: Table, ids: seq<FindingId>, now: int)
    ensures ApplyOps(t, CloseOps(ids, now)) == Some(Closed(t, ids, now))
    decreases |ids|
  {
    if ids == [] {
      assert Closed(t, ids, now) == t;
    } else {
      var before, last := ids[..|ids| - 1], ids[|ids| - 1];
      ClosingIs(t, before, now);
      assert CloseOps(ids, now)[..|ids| - 1] == CloseOps(before, now);
      assert ids == before + [last];
      assert ApplyOp(Closed(t, before, now), Close(last, now)).value == Closed(t, ids, now);
    }
  }

  lemma ClosingHealed(t: Table, violations: seq<Violation>, existing: seq<Existing>, now: int)
    requires Reads(t, violations, existing)
    ensures Closed(AfterOpening(t, violations), Healed(existing, Ids(violations)), now) == AfterRun(t, violations, now)
  {
    var healed := Healed(existing, Ids(violations));
    HealedAre(existing, Ids(violations));
    forall id | id in t.Keys + Ids(violations)
      ensures id in healed <==> id in t && id !in Ids(violations) && t[id].status.Dismissed?
    {
      if id in t && t[id].status.Dismissed? { assert Existing(id, Dismissed) in existing; }
    }
  }

  /**
   A run succeeds exactly when no id missing from the table is listed twice, and then its effect
   is that of the row-by-row table - though the loader read only part of the rows.
   */
  lemma RunIs(t: Table, violations: seq<Violation>, existing: seq<Existing>, now: int)
    requires Reads(t, violations, existing)
    ensures ApplyOps(t, RunOps(violations, existing, now))
         == if NoAbsentRepeats(t, violations) then Some(AfterRun(t, violations, now)) else None
  {
    var healed := Healed(existing, Ids(violations));
    ReadingKnows(t, violations, existing);
    OpeningIs(t, violations, existing);
    OpsAppend(t, ViolationOps(violations, existing), CloseOps(healed, now));
    ClosingIs(AfterOpening(t, violations), healed, now);
    ClosingHealed(t, violations, existing, now);
  }

  // ---------------------------------------------------------------- one run

  /** After a run every violation is open or dismissed, and every dismissed row is violating. */
  lemma AfterRunStatuses(t: Table, violations: seq<Violation>, now: int)
    ensures var t' := AfterRun(t, violations, now);
            && (forall id | id in Ids(violations) :: id in t' && (t'[id].status.Open? || t'[id].status.Dismissed?))
            && forall id | id in t' && t'[id].status.Dismissed? :: id in Ids(violations) && id in t && t[id] == t'[id]
  {
  }

  /** Running again on the same violations asks for no finding operation at all. */
  lemma RerunIsSilent(t: Table, violations: seq<Violation>, now: int, existing: seq<Existing>, later: int)
    requires Reads(AfterRun(t, violations, now), violations, existing)
    ensures RunOps(violations, existing, later) == []
  {
    var t' := AfterRun(t, violations, now);
    AfterRunStatuses(t, violations, now);
    ReadingKnows(t', violations, existing);
    IdsAre(violations);
    NothingToOpen(t', violations, existing);
    NothingToHeal(existing, Ids(violations));
  }

  lemma {:induction false} NothingToHeal(existing: seq<Existing>, violating: set<FindingId>)
    requires forall e | e in existing && e.status.Dismissed? :: e.id in violating
    ensures Healed(existing, violating) == []
  {
    if existing != [] { NothingToHeal(existing[..|existing| - 1], violating); }
  }

  lemma {:induction false} NothingToOpen(t: Table, violations: seq<Violation>, existing: seq<Existing>)
    requires Known(t, violations, existing)
    requires forall i | 0 <= i < |violations| :: violations[i].id in t && !t[violations[i].id].status.Resolved?
    ensures ViolationOps(violations, existing) == []
  {
    if violations != [] {
      var before := violations[..|violations| - 1];
      assert forall i | 0 <= i < |before| :: before[i] == violations[i];
      NothingToOpen(t, before, existing);
    }
  }

  /** The table grows by exactly the number of findings the run reports as opened. */
  lemma {:induction false} GrowsByInserts(t: Table, violations: seq<Violation>, existing: seq<Existing>)
    requires Known(t, violations, existing) && NoAbsentRepeats(t, violations)
    ensures |t.Keys + Ids(violations)| == |t.Keys| + Inserts(ViolationOps(violations, existing))
  {
    if violations == [] {
      assert t.Keys + {} == t.Keys;
    } else {
      var before, v := violations[..|violations| - 1], violations[|violations| - 1];
      assert forall i | 0 <= i < |before| :: before[i] == violations[i];
      RepeatsSnoc(t, violations);
      GrowsByInserts(t, before, existing);
      OpForShape(t, v, existing);
      GrowthStep(t.Keys, Ids(before), v, ViolationOps(before, existing), OpFor(v, existing));
    }
  }

  lemma OpForShape(t: Table, v: Violation, existing: seq<Existing>)
    requires StatusIn(existing, v.id) == if v.id in t then Some(t[v.id].status) else None
    ensures var step := OpFor(v, existing); |step| <= 1 && (v.id in t.Keys <==> step == [] || !step[0].InsertOpen?)
  {
  }

  lemma GrowthStep(keys: set<FindingId>, seen: set<FindingId>, v: Violation, ops: seq<Op>, step: seq<Op>)
    requires |keys + seen| == |keys| + Inserts(ops) && (v.id in keys || v.id !in seen)
    requires |step| <= 1 && (v.id in keys <==> step == [] || !step[0].InsertOpen?)
    ensures |keys + (seen + {v.id})| == |keys| + Inserts(ops + step)
  {
    if step == [] {
      assert ops + step == ops;
    } else {
      assert step == [step[0]];
      CountsSnoc(ops, step[0]);
    }
    assert keys + (seen + {v.id}) == if v.id in keys then keys + seen else keys + seen + {v.id};
  }

  /** No id is listed twice. */
  predicate EachOnce(violations: seq<Violation>) {
    forall i, j | 0 <= i < j < |violations| :: violations[i].id != violations[j].id
  }

  /** The resolved rows that are violating again. */
  function Relapsed(t: Table, violations: seq<Violation>): set<FindingId> {
    set id | id in t && t[id].status.Resolved? && id in Ids(violations)
  }

  /** The counter of reopened findings is the number of resolved rows that are violating again. */
  lemma {:induction false} ReopenedAre(t: Table, violations: seq<Violation>, existing: seq<Existing>)
    requires Known(t, violations, existing) && EachOnce(violations)
    ensures Reopens(ViolationOps(violations, existing)) == |Relapsed(t, violations)|
  {
    if violations == [] {
      assert Relapsed(t, violations) == {};
    } else {
      var before, v := violations[..|violations| - 1], violations[|violations| - 1];
      assert forall i | 0 <= i < |before| :: before[i] == violations[i];
      ReopenedAre(t, before, existing);
      IdsAre(before);
      assert v.id !in Ids(before);
      ReopenedStep(ViolationOps(before, existing), OpFor(v, existing));
      RelapsedStep(t, violations);
      ReopensIff(t, v, existing);
    }
  }

  lemma ReopensIff(t: Table, v: Violation, existing: seq<Existing>)
    requires StatusIn(existing, v.id) == if v.id in t then Some(t[v.id].status) else None
    ensures var step := OpFor(v, existing);
            |step| <= 1 && (step != [] && step[0].Reopen? <==> v.id in t && t[v.id].status.Resolved?)
  {
  }

  lemma RelapsedStep(t: Table, violations: seq<Violation>)
    requires violations != [] && violations[|violations| - 1].id !in Ids(violations[..|violations| - 1])
    ensures var before, v := violations[..|violations| - 1], violations[|violations| - 1];
            |Relapsed(t, violations)|
            == |Relapsed(t, before)| + if v.id in t && t[v.id].status.Resolved? then 1 else 0
  {
    var before, v := violations[..|violations| - 1], violations[|violations| - 1];
    if v.id in t && t[v.id].status.Resolved? {
      assert Relapsed(t, violations) == Relapsed(t, before) + {v.id};
    } else {
      assert Relapsed(t, violations) == Relapsed(t, before);
    }
  }

  lemma ReopenedStep(ops: seq<Op>, step: seq<Op>)
    requires |step| <= 1
    ensures Reopens(ops + step) == Reopens(ops) + if step != [] && step[0].Reopen? then 1 else 0
  {
    if step == [] {
      assert ops + step == ops;
    } else {
      assert step == [step[0]];
      CountsSnoc(ops, step[0]);
    }
  }

  /** The dismissed rows that are no longer violating. */
  function Cured(t: Table, violations: seq<Violation>): set<FindingId> {
    set id | id in t && t[id].status.Dismissed? && id !in Ids(violations)
  }

  lemma {:induction false} HealedOnce(existing: seq<Existing>, violating: set<FindingId>)
    requires forall i, j | 0 <= i < j < |existing| :: existing[i].id != existing[j].id
    ensures |Healed(existing, violating)| == |set id | id in Healed(existing, violating)|
  {
    if existing != [] {
      var before, last := existing[..|existing| - 1], existing[|existing| - 1];
      HealedOnce(before, violating);
      HealedAre(before, violating);
      var earlier := Healed(before, violating);
      if last.status.Dismissed? && last.id !in violating {
        assert (set id | id in Healed(existing, violating)) == (set id | id in earlier) + {last.id};
      } else {
        assert Healed(existing, violating) == earlier;
      }
    }
  }

  /** The counter of findings closed by themselves is the number of dismissed rows no longer violating. */
  lemma CuredAre(t: Table, violations: seq<Violation>, existing: seq<Existing>)
    requires Reads(t, violations, existing)
    ensures |Healed(existing, Ids(violations))| == |Cured(t, violations)|
  {
    HealedOnce(existing, Ids(violations));
    HealedAre(existing, Ids(violations));
    forall id ensures id in Healed(existing, Ids(violations)) <==> id in Cured(t, violations) {
      if id in Cured(t, violations) { assert Existing(id, t[id].status) in existing; }
    }
    assert (set id | id in Healed(existing, Ids(violations))) == Cured(t, violations);
  }

  // ---------------------------------------------------------------- every history

  datatype Command =
    | Check(violations: seq<Violation>, now: int)
    | ResolveFinding(id: FindingId, now: int)
    | DismissFinding(id: FindingId, now: int)
    | FallBack(offer: Id, deadline: int, detail: string)

  /** A verdict is recorded on an open finding only; None is the rejection. */
  function Verdict(t: Table, id: FindingId, status: Status, now: int): Option<Table> {
    if id !in t || !t[id].status.Open? then None
    else Some(t[id := t[id].(status := status, resolvedAt := Some(now))])
  }

  /** A command that is rejected or fails leaves the table as it was. */
  function Step(t: Table, c: Command): Table {
    match c
    case Check(violations, now) => if NoAbsentRepeats(t, violations) then AfterRun(t, violations, now) else t
    case ResolveFinding(id, now) => (match Verdict(t, id, Resolved, now) case None => t case Some(t') => t')
    case DismissFinding(id, now) => (match Verdict(t, id, Dismissed, now) case None => t case Some(t') => t')
    case FallBack(offer, deadline, detail) =>
      var id := Expiry(offer, deadline);
      if id in t then t else t[id := Finding(Open, None, detail)]
  }

  /** The row as it was, but for its verdict and when it was given. */
  predicate Judged(before: Finding, status: Status, now: int, after: Finding) {
    after == before.(status := status, resolvedAt := Some(now))
  }

  /**
   Both verdicts and the expiry worker touch one row: a verdict closes an open finding under its own name, keeping
   its detail, and is refused on any other; the worker's finding starts open and is recorded once.
   */
  lemma OneRowCommands(t: Table, id: FindingId, offer: Id, deadline: int, detail: string, now: int)
    ensures id in t && t[id].status.Open? ==>
              && (forall c | c == ResolveFinding(id, now) || c == DismissFinding(id, now) ::
                    Step(t, c) == t[id := Step(t, c)[id]])
              && Judged(t[id], Resolved, now, Step(t, ResolveFinding(id, now))[id])
              && Judged(t[id], Dismissed, now, Step(t, DismissFinding(id, now))[id])
    ensures id !in t || !t[id].status.Open? ==>
              Step(t, ResolveFinding(id, now)) == t && Step(t, DismissFinding(id, now)) == t
    ensures var mine := Expiry(offer, deadline);
            Step(t, FallBack(offer, deadline, detail))
              == if mine in t then t else t[mine := Finding(Open, None, detail)]
  {
  }

  function After(t: Table, run: seq<Command>): Table {
    if run == [] then t else Step(After(t, run[..|run| - 1]), run[|run| - 1])
  }

  /** The checker's queries name each of its own ids once. */
  predicate Checkable(run: seq<Command>) {
    forall i | 0 <= i < |run| && run[i].Check? ::
      && (forall j, k | 0 <= j < k < |run[i].violations| :: run[i].violations[j].id != run[i].violations[k].id)
      && forall j | 0 <= j < |run[i].violations| :: run[i].violations[j].id.Drift?
  }

  /** A finding, once recorded, keeps its row. */
  lemma {:induction false} RowsNeverVanish(t: Table, run: seq<Command>)
    ensures t.Keys <= After(t, run).Keys
  {
    if run != [] { RowsNeverVanish(t, run[..|run| - 1]); }
  }

  predicate DismissesNot(run: seq<Command>, id: FindingId) {
    forall i | 0 <= i < |run| :: !(run[i].DismissFinding? && run[i].id == id)
  }

  predicate ViolatedThroughout(run: seq<Command>, id: FindingId) {
    forall i | 0 <= i < |run| && run[i].Check? :: id in Ids(run[i].violations)
  }

  lemma StepOnDismissed(t: Table, c: Command, id: FindingId)
    requires id in t && !(c.DismissFinding? && c.id == id)
    requires c.Check? ==> NoAbsentRepeats(t, c.violations)
    ensures id in Step(t, c)
    ensures Step(t, c)[id].status.Dismissed? <==> t[id].status.Dismissed? && (c.Check? ==> id in Ids(c.violations))
  {
  }

  /** A dismissed finding is still dismissed exactly if every check since has found it violated. */
  lemma {:induction false} DismissedIffViolatedSince(t: Table, run: seq<Command>, id: FindingId)
    requires Checkable(run) && id in t && t[id].status.Dismissed? && DismissesNot(run, id)
    ensures id in After(t, run)
    ensures After(t, run)[id].status.Dismissed? <==> ViolatedThroughout(run, id)
    decreases |run|
  {
    if run != [] {
      var before, last := run[..|run| - 1], run[|run| - 1];
      assert forall i | 0 <= i < |before| :: before[i] == run[i];
      DismissedIffViolatedSince(t, before, id);
      StepOnDismissed(After(t, before), last, id);
    }
  }

  /** Every check leaves the table so: violations open or dismissed, dismissals violated, no row lost. */
  lemma EachCheckSettles(t: Table, run: seq<Command>)
    requires Checkable(run) && run != [] && run[|run| - 1].Check?
    ensures var t', ids := After(t, run), Ids(run[|run| - 1].violations);
            && (forall id | id in ids :: id in t' && (t'[id].status.Open? || t'[id].status.Dismissed?))
            && forall id | id in t' && t'[id].status.Dismissed? :: id in ids
  {
    var last := run[|run| - 1];
    AfterRunStatuses(After(t, run[..|run| - 1]), last.violations, last.now);
  }

  /**
   The healing rule reaches findings the checker never raised: a dismissed expiry fallback is closed by the next check.
   */
  lemma CheckClosesFallbacks(t: Table, run: seq<Command>, id: FindingId)
    requires Checkable(run) && run != [] && run[|run| - 1].Check? && id.Expiry?
    ensures id in After(t, run) ==> !After(t, run)[id].status.Dismissed?
  {
    var last := run[|run| - 1];
    IdsAre(last.violations);
    EachCheckSettles(t, run);
  }
}
