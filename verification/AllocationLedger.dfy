/** The allocation registry and its decision ledger (ceo_run.py, ceo_budget.py). */
module AllocationLedger {
  import opened Basics

  /** A JSON number, or anything else. */
  datatype Number = NotNumeric | Num(r: real)

  datatype Cap = CapMissing | Uncapped | Capped(n: Number)

  /** An allocation object; a status that is absent or no string is None. */
  datatype Allocation = Allocation(status: Option<string>, multiplier: Number, cap: Cap)

  const EMPTY := Allocation(None, NotNumeric, CapMissing)

  /** Each loop's allocation, if its entry has one. */
  type Registry = map<string, Option<Allocation>>

  datatype Payload = NotObject | Payload(loop: string, allocation: Option<Allocation>)

  datatype Reason =
    | NoObject | UnknownLoop | NoAllocation | BadStatus | BadMultiplier | MultiplierRange | NoCap | BadCap
    | PolicyObjects(text: string) | SnapshotUnavailable | DuplicateLoop

  datatype Row =
    | AllocationChange(loop: string, allocation: Allocation)
    | HardBreach(loop: string)
    | WeeklyEval(changed: seq<string>)

  const STATUSES: set<string> := {"normal", "paused", "reduce", "double_down"}

  // ---------------------------------------------------------------- validation

  function MultiplierReasons(n: Number): seq<Reason>
  {
    if n.NotNumeric? then [BadMultiplier] else if 0.1 <= n.r <= 10.0 then [] else [MultiplierRange]
  }

  function CapReasons(c: Cap): seq<Reason>
  {
    match c
    case CapMissing => [NoCap]
    case Uncapped => []
    case Capped(n) => if n.NotNumeric? || n.r < 0.0 then [BadCap] else []
  }

  function ValidateDecision(p: Payload, registry: Registry): seq<Reason>
  {
    if p.NotObject? then [NoObject]
    else if p.loop !in registry then [UnknownLoop]
    else if p.allocation.None? then [NoAllocation]
    else
      var a := p.allocation.value;
      (if a.status.Some? && a.status.value in STATUSES then [] else [BadStatus]) + MultiplierReasons(a.multiplier) +
       CapReasons(a.cap)
  }

  /** The allocations a decision may install. */
  predicate Admissible(a: Allocation)
  {
    && a.status.Some? && a.status.value in STATUSES
    && a.multiplier.Num? && 0.1 <= a.multiplier.r <= 10.0
    && (a.cap.Uncapped? || (a.cap.Capped? && a.cap.n.Num? && a.cap.n.r >= 0.0))
  }

  /** The reasons are empty exactly for an admissible allocation of a known loop. */
  lemma ValidExactly(p: Payload, registry: Registry)
    ensures ValidateDecision(p, registry) == [] <==>
      p.Payload? && p.loop in registry && p.allocation.Some? && Admissible(p.allocation.value)
  {
    if p.Payload? && p.loop in registry && p.allocation.Some? {
      var a := p.allocation.value;
      var s := if a.status.Some? && a.status.value in STATUSES then [] else [BadStatus];
      assert |ValidateDecision(p, registry)| == |s| + |MultiplierReasons(a.multiplier)| + |CapReasons(a.cap)|;
    }
  }

  /** The allocation policy for one snapshot: its objections to a loop and a status. */
  type Policy = (string, string) -> seq<string>

  function PolicyReasons(policy: Policy, loop: string, status: string): seq<Reason>
  {
    var texts := policy(loop, status);
    seq(|texts|, i requires 0 <= i < |texts| => PolicyObjects(texts[i]))
  }

  /** A single decision consults the policy only when it is configured and nothing else objects. */
  function DecisionReasons(p: Payload, registry: Registry, configured: bool, snapshot: Option<Policy>): seq<Reason>
  {
    var errs := ValidateDecision(p, registry);
    if errs != [] || !configured then errs
    else match snapshot
      case None => [SnapshotUnavailable]
      case Some(policy) =>
        ValidExactly(p, registry);
        PolicyReasons(policy, p.loop, p.allocation.value.status.value)
  }

  /** What a single decision must be, field by field. */
  lemma DecisionsByField(p: Payload, registry: Registry, configured: bool, snapshot: Option<Policy>)
    ensures DecisionReasons(p, registry, configured, snapshot) == [] <==>
      && p.Payload? && p.loop in registry && p.allocation.Some?
      && p.allocation.value.status in {Some("normal"), Some("paused"), Some("reduce"), Some("double_down")}
      && p.allocation.value.multiplier.Num? && 0.1 <= p.allocation.value.multiplier.r <= 10.0
      && (p.allocation.value.cap.Uncapped? ||
          (p.allocation.value.cap.Capped? && p.allocation.value.cap.n.Num? && p.allocation.value.cap.n.r >= 0.0))
      && (configured ==> snapshot.Some? && snapshot.value(p.loop, p.allocation.value.status.value) == [])
  {
    ValidExactly(p, registry);
    if ValidateDecision(p, registry) == [] && snapshot.Some? {
      assert |PolicyReasons(snapshot.value, p.loop, p.allocation.value.status.value)| ==
        |snapshot.value(p.loop, p.allocation.value.status.value)|;
    }
  }

  /** The reasons a single decision is given: the first missing thing alone, or every field that is wrong. */
  lemma ReasonsByField(loop: string, a: Allocation, registry: Registry)
    requires loop in registry
    ensures ValidateDecision(NotObject, registry) == [NoObject]
    ensures forall other :: other !in registry ==> ValidateDecision(Payload(other, Some(a)), registry) == [UnknownLoop]
    ensures ValidateDecision(Payload(loop, None), registry) == [NoAllocation]
    ensures var r := ValidateDecision(Payload(loop, Some(a)), registry);
      && (BadStatus in r <==> a.status !in {Some("normal"), Some("paused"), Some("reduce"), Some("double_down")})
      && (BadMultiplier in r <==> a.multiplier == NotNumeric)
      && (MultiplierRange in r <==> a.multiplier.Num? && !(0.1 <= a.multiplier.r <= 10.0))
      && (NoCap in r <==> a.cap == CapMissing)
      && (BadCap in r <==> a.cap.Capped? && (a.cap.n == NotNumeric || a.cap.n.r < 0.0))
  {
  }

  /** Validation of a whole evaluation before anything is applied. */
  function EvaluationReasons(
      decisions: seq<Payload>, registry: Registry, policy: Policy, seen: set<string>): seq<Reason>
  {
    if decisions == [] then []
    else
      var p := decisions[0];
      var errs := ValidateDecision(p, registry);
      if errs != [] then errs + EvaluationReasons(decisions[1..], registry, policy, seen)
      else
        ValidExactly(p, registry);
        (if p.loop in seen then [DuplicateLoop] else []) +
        PolicyReasons(policy, p.loop, p.allocation.value.status.value) +
        EvaluationReasons(decisions[1..], registry, policy, seen + {p.loop})
  }

  // ---------------------------------------------------------------- the registry and its log

  datatype Books = Books(registry: Registry, rows: seq<Row>)

  function Paused(entry: Option<Allocation>): bool { entry.Some? && entry.value.status == Some("paused") }

  function Pause(entry: Option<Allocation>): Option<Allocation>
  {
    Some((if entry.Some? then entry.value else EMPTY).(status := Some("paused")))
  }

  function Install(b: Books, p: Payload): Books
    requires p.Payload? && p.allocation.Some?
  {
    Books(b.registry[p.loop := p.allocation], b.rows + [AllocationChange(p.loop, p.allocation.value)])
  }

  function InstallAll(b: Books, decisions: seq<Payload>): Books
    requires forall i :: 0 <= i < |decisions| ==> decisions[i].Payload? && decisions[i].allocation.Some?
  {
    if decisions == [] then b else Install(InstallAll(b, decisions[..|decisions| - 1]), decisions[|decisions| - 1])
  }

  function LoopsOf(decisions: seq<Payload>): seq<string>
    requires forall i :: 0 <= i < |decisions| ==> decisions[i].Payload?
  {
    seq(|decisions|, i requires 0 <= i < |decisions| => decisions[i].loop)
  }

  lemma OneMoreInstalled(b: Books, decisions: seq<Payload>, k: nat)
    requires k < |decisions|
    requires forall i :: 0 <= i < |decisions| ==> decisions[i].Payload? && decisions[i].allocation.Some?
    ensures InstallAll(b, decisions[..k + 1]) == Install(InstallAll(b, decisions[..k]), decisions[k])
    ensures LoopsOf(decisions[..k + 1]) == LoopsOf(decisions[..k]) + [decisions[k].loop]
  {
    assert decisions[..k + 1][..k] == decisions[..k];
  }

  function Note(b: Books, changed: seq<string>): Books { Books(b.registry, b.rows + [WeeklyEval(changed)]) }

  datatype Evaluation = NotLoaded | BadRoot | DecisionsNotList | Evaluation(decisions: seq<Payload>)

  /** A decision that validation and the allocation policy both accept. */
  ghost predicate Acceptable(p: Payload, registry: Registry, policy: Policy)
  {
    && p.Payload? && p.loop in registry
    && p.allocation.Some? && Admissible(p.allocation.value)
    && policy(p.loop, p.allocation.value.status.value) == []
  }

  ghost predicate AllAcceptable(decisions: seq<Payload>, registry: Registry, policy: Policy)
  {
    forall i :: 0 <= i < |decisions| ==> Acceptable(decisions[i], registry, policy)
  }

  /** No loop is decided twice, and none of them was seen before. */
  ghost predicate NewLoops(decisions: seq<Payload>, seen: set<string>)
  {
    && (forall i :: 0 <= i < |decisions| && decisions[i].Payload? ==> decisions[i].loop !in seen)
    && (forall i, j :: 0 <= i < j < |decisions| && decisions[i].Payload? && decisions[j].Payload? ==>
          decisions[i].loop != decisions[j].loop)
  }

  lemma AcceptableStep(decisions: seq<Payload>, registry: Registry, policy: Policy)
    requires decisions != []
    ensures AllAcceptable(decisions, registry, policy) <==>
      Acceptable(decisions[0], registry, policy) && AllAcceptable(decisions[1..], registry, policy)
  {
    assert forall i :: 1 <= i < |decisions| ==> decisions[i] == decisions[1..][i - 1];
  }

  lemma NewLoopsStep(decisions: seq<Payload>, seen: set<string>)
    requires decisions != [] && decisions[0].Payload?
    ensures NewLoops(decisions, seen) <==>
      decisions[0].loop !in seen && NewLoops(decisions[1..], seen + {decisions[0].loop})
  {
    assert forall i :: 1 <= i < |decisions| ==> decisions[i] == decisions[1..][i - 1];
  }

  lemma DecisionAcceptable(p: Payload, registry: Registry, policy: Policy)
    ensures Acceptable(p, registry, policy) <==>
      && ValidateDecision(p, registry) == []
      && p.Payload? && p.allocation.Some? && p.allocation.value.status.Some?
      && PolicyReasons(policy, p.loop, p.allocation.value.status.value) == []
  {
    ValidExactly(p, registry);
    if ValidateDecision(p, registry) == [] {
      assert |PolicyReasons(policy, p.loop, p.allocation.value.status.value)| ==
        |policy(p.loop, p.allocation.value.status.value)|;
    }
  }

  /** No reasons means acceptable decisions for distinct loops. */
  lemma {:induction false} NoReasonsMeans(
      decisions: seq<Payload>, registry: Registry, policy: Policy, seen: set<string>)
    ensures EvaluationReasons(decisions, registry, policy, seen) == [] <==>
      AllAcceptable(decisions, registry, policy) && NewLoops(decisions, seen)
  {
    if decisions != [] {
      var p := decisions[0];
      ValidExactly(p, registry);
      DecisionAcceptable(p, registry, policy);
      AcceptableStep(decisions, registry, policy);
      if ValidateDecision(p, registry) == [] {
        NewLoopsStep(decisions, seen);
        NoReasonsMeans(decisions[1..], registry, policy, seen + {p.loop});
      }
    }
  }

  /** Earlier installs do not make a decision unacceptable. */
  lemma StillAccepted(p: Payload, before: Registry, now: Registry, configured: bool, policy: Policy)
    requires Acceptable(p, before, policy) && now.Keys == before.Keys
    ensures DecisionReasons(p, now, configured, Some(policy)) == []
  {
    ValidExactly(p, now);
    DecisionAcceptable(p, now, policy);
    assert p.loop in now;
  }

  /** How many of the first n registry writes succeed before one fails. */
  function Written(writeOk: nat -> bool, n: nat): (k: nat)
    ensures k <= n && (forall i: nat :: i < k ==> writeOk(i)) && (k < n ==> !writeOk(k))
  {
    if n == 0 then 0
    else var k := Written(writeOk, n - 1); if k == n - 1 && writeOk(k) then n else k
  }

  /** An accepted evaluation: decisions up to the first failed write, and the weekly row when none failed. */
  function EvaluationOutcome(b: Books, decisions: seq<Payload>, writeOk: nat -> bool): Books
    requires forall i :: 0 <= i < |decisions| ==> decisions[i].Payload? && decisions[i].allocation.Some?
  {
    var k := Written(writeOk, |decisions|);
    if k == |decisions| then Note(InstallAll(b, decisions), LoopsOf(decisions)) else InstallAll(b, decisions[..k])
  }

  datatype CostRow = CostRow(loop: string, usd: Number, month: Option<string>, week: Option<string>)

  /** A cost row counts when its amount and timestamp are numbers; the timestamp gives its periods. */
  predicate Counts(row: CostRow, loop: string) { row.loop == loop && row.usd.Num? && row.month.Some? && row.week.Some? }

  function Spent(rows: seq<CostRow>, loop: string, period: CostRow -> bool): real
  {
    if rows == [] then 0.0
    else Spent(rows[..|rows| - 1], loop, period) +
         (var row := rows[|rows| - 1]; if Counts(row, loop) && period(row) then row.usd.r else 0.0)
  }

  /** A row counts when it has an amount and a time; one more row adds its amount to the periods it falls in. */
  lemma SpentByRow(rows: seq<CostRow>, row: CostRow, loop: string, month: string, week: string)
    ensures Spent([], loop, InMonth(month)) == 0.0 == Spent([], loop, InWeek(week))
    ensures var counts := row.loop == loop && row.usd.Num? && row.month.Some? && row.week.Some?;
      && Spent(rows + [row], loop, InMonth(month)) ==
           Spent(rows, loop, InMonth(month)) + (if counts && row.month.value == month then row.usd.r else 0.0)
      && Spent(rows + [row], loop, InWeek(week)) ==
           Spent(rows, loop, InWeek(week)) + (if counts && row.week.value == week then row.usd.r else 0.0)
  {
    assert (rows + [row])[..|rows|] == rows;
  }

  function InMonth(month: string): CostRow -> bool { (row: CostRow) => row.month == Some(month) }

  function InWeek(week: string): CostRow -> bool { (row: CostRow) => row.week == Some(week) }

  method SumCosts(rows: seq<CostRow>, loop: string, month: string, week: string) returns (monthly: real, weekly: real)
    ensures monthly == Spent(rows, loop, InMonth(month)) && weekly == Spent(rows, loop, InWeek(week))
  {
    monthly, weekly := 0.0, 0.0;
    for i := 0 to |rows|
      invariant monthly == Spent(rows[..i], loop, InMonth(month)) && weekly == Spent(rows[..i], loop, InWeek(week))
    {
      assert rows[..i + 1][..i] == rows[..i];
      if Counts(rows[i], loop) {
        if rows[i].month == Some(month) { monthly := monthly + rows[i].usd.r; }
        if rows[i].week == Some(week) { weekly := weekly + rows[i].usd.r; }
      }
    }
    assert rows[..|rows|] == rows;
  }

  /** A loop's budget; a limit that is not a number is None. */
  datatype Limits = Limits(monthlySoft: Option<real>, monthlyHard: Option<real>, weeklySoft: Option<real>,
    weeklyHard: Option<real>)

  predicate Reached(limit: Option<real>, spent: real) { limit.Some? && spent >= limit.value }

  function CheckBudget(b: Books, loop: string, hard: bool, active: bool): Books
  {
    if hard && active && loop in b.registry && !Paused(b.registry[loop]) then
      Books(b.registry[loop := Pause(b.registry[loop])], b.rows + [HardBreach(loop)])
    else b
  }

  datatype Breach = NotConfigured | NoBreach | SoftBreach | HardObserved | HardPaused | HardAlreadyStopped | WriteFailed

  class CeoStore {
    var registry: Registry
    var rows: seq<Row>
    var lessons: seq<string>

    function Contents(): Books reads this { Books(registry, rows) }

    constructor (registry: Registry)
      ensures Contents() == Books(registry, []) && lessons == []
    {
      this.registry, this.rows, this.lessons := registry, [], [];
    }

    method ApplyDecision(p: Payload, configured: bool, snapshot: Option<Policy>, writeOk: bool) returns (ok: bool)
      modifies this`registry, this`rows
      ensures ok <==> DecisionReasons(p, old(registry), configured, snapshot) == [] && writeOk
      ensures ok ==>
        && p.Payload? && p.allocation.Some?
        && registry == old(registry)[p.loop := p.allocation]
        && rows == old(rows) + [AllocationChange(p.loop, p.allocation.value)]
      ensures !ok ==> Contents() == old(Contents())
    {
      ValidExactly(p, registry);
      if DecisionReasons(p, registry, configured, snapshot) != [] || !writeOk {
        return false;
      }
      registry := registry[p.loop := p.allocation];
      rows := rows + [AllocationChange(p.loop, p.allocation.value)];
      return true;
    }

    /** Decisions already validated are applied one by one until a registry write fails. */
    method ApplyValidated(decisions: seq<Payload>, configured: bool, policy: Policy, writeOk: nat -> bool)
      returns (applied: nat, changed: seq<string>)
      requires AllAcceptable(decisions, registry, policy)
      modifies this`registry, this`rows
      ensures applied <= |decisions| && (forall i: nat :: i < applied ==> writeOk(i))
      ensures applied < |decisions| ==> !writeOk(applied)
      ensures Contents() == InstallAll(old(Contents()), decisions[..applied])
      ensures changed == LoopsOf(decisions[..applied])
    {
      applied, changed := 0, [];
      ghost var start := Contents();
      while applied < |decisions|
        invariant applied <= |decisions| && (forall i: nat :: i < applied ==> writeOk(i))
        invariant Contents() == InstallAll(start, decisions[..applied])
        invariant registry.Keys == start.registry.Keys
        invariant changed == LoopsOf(decisions[..applied])
      {
        var p := decisions[applied];
        OneMoreInstalled(start, decisions, applied);
        StillAccepted(p, start.registry, registry, configured, policy);
        var ok := ApplyDecision(p, configured, Some(policy), writeOk(applied));
        if !ok {
          return;
        }
        changed := changed + [p.loop];
        applied := applied + 1;
      }
    }

    /** Every decision is validated before the first one is applied. */
    method ApplyEvaluation(
        e: Evaluation, configured: bool, snapshot: Option<Policy>, writeOk: nat -> bool)
      returns (ok: bool, applied: nat)
      modifies this`registry, this`rows
      ensures var accepted :=
          e.Evaluation? && snapshot.Some? && AllAcceptable(e.decisions, old(registry), snapshot.value) &&
            NewLoops(e.decisions, {});
        && (!accepted ==> !ok && Contents() == old(Contents()))
        && (accepted ==>
          && applied == Written(writeOk, |e.decisions|) && (ok <==> applied == |e.decisions|)
          && Contents() == EvaluationOutcome(old(Contents()), e.decisions, writeOk))
      // a whole evaluation ends with one row that names its loops in their order
      ensures ok ==>
        && e.Evaluation? && rows != [] && rows[|rows| - 1].WeeklyEval?
        && |rows[|rows| - 1].changed| == |e.decisions|
        && forall i :: 0 <= i < |e.decisions| ==>
             e.decisions[i].Payload? && rows[|rows| - 1].changed[i] == e.decisions[i].loop
    {
      applied := 0;
      if !e.Evaluation? || snapshot.None? {
        return false, 0;
      }
      NoReasonsMeans(e.decisions, registry, snapshot.value, {});
      if EvaluationReasons(e.decisions, registry, snapshot.value, {}) != [] {
        return false, 0;
      }
      var changed;
      applied, changed := ApplyValidated(e.decisions, configured, snapshot.value, writeOk);
      if applied < |e.decisions| {
        return false, applied;
      }
      assert e.decisions[..applied] == e.decisions;
      rows := rows + [WeeklyEval(changed)];
      return true, applied;
    }

    /** A registry write that fails leaves this method with an exception, before the row. */
    method CheckLoop(
        loop: string, limits: Option<Limits>, costs: seq<CostRow>, month: string, week: string, active: bool,
        saved: bool)
      returns (breach: Breach)
      modifies this
      ensures var monthly, weekly := Spent(costs, loop, InMonth(month)), Spent(costs, loop, InWeek(week));
        var hard := limits.Some? &&
          (Reached(limits.value.monthlyHard, monthly) || Reached(limits.value.weeklyHard, weekly));
        var soft := limits.Some? &&
          (Reached(limits.value.monthlySoft, monthly) || Reached(limits.value.weeklySoft, weekly));
        && Contents() == (if saved then CheckBudget(old(Contents()), loop, hard, active) else old(Contents()))
        && lessons == (if soft && !hard then old(lessons) + [loop] else old(lessons))
        && (breach.HardPaused? <==> rows != old(rows))
        && (breach.SoftBreach? <==> lessons != old(lessons))
        && (breach.HardObserved? <==> hard && !active)
        && (breach.HardPaused? || breach.HardObserved? || breach.HardAlreadyStopped? || breach.WriteFailed? <==> hard)
        && (breach.WriteFailed? ==> !saved)
        && (breach.NotConfigured? <==> limits.None?)
      // at or over a hard limit, an active loop that is not paused yet is paused: its status alone changes, and one row
      ensures var monthly, weekly := Spent(costs, loop, InMonth(month)), Spent(costs, loop, InWeek(week));
        breach.HardPaused? <==>
          && limits.Some?
          && ((limits.value.monthlyHard.Some? && monthly >= limits.value.monthlyHard.value)
              || (limits.value.weeklyHard.Some? && weekly >= limits.value.weeklyHard.value))
          && active && saved && loop in old(registry)
          && (old(registry)[loop].Some? ==> old(registry)[loop].value.status != Some("paused"))
      ensures breach.HardPaused? ==>
        && rows == old(rows) + [HardBreach(loop)]
        && registry == old(registry)[loop := Some(
             if old(registry)[loop].Some?
             then Allocation(Some("paused"), old(registry)[loop].value.multiplier, old(registry)[loop].value.cap)
             else Allocation(Some("paused"), NotNumeric, CapMissing))]
      ensures !breach.HardPaused? ==> rows == old(rows) && registry == old(registry)
      // below that, at or over a soft limit, one lesson is noted and nothing else
      ensures var monthly, weekly := Spent(costs, loop, InMonth(month)), Spent(costs, loop, InWeek(week));
        breach.SoftBreach? <==>
          && limits.Some?
          && !((limits.value.monthlyHard.Some? && monthly >= limits.value.monthlyHard.value)
               || (limits.value.weeklyHard.Some? && weekly >= limits.value.weeklyHard.value))
          && ((limits.value.monthlySoft.Some? && monthly >= limits.value.monthlySoft.value)
              || (limits.value.weeklySoft.Some? && weekly >= limits.value.weeklySoft.value))
    {
      if limits.None? {
        return NotConfigured;
      }
      var monthly, weekly := SumCosts(costs, loop, month, week);
      if Reached(limits.value.monthlyHard, monthly) || Reached(limits.value.weeklyHard, weekly) {
        if !active {
          return HardObserved;
        }
        if loop !in registry || Paused(registry[loop]) {
          return HardAlreadyStopped;
        }
        if !saved {
          return WriteFailed;
        }
        registry := registry[loop := Pause(registry[loop])];
        rows := rows + [HardBreach(loop)];
        assert |rows| == |old(rows)| + 1;
        return HardPaused;
      }
      if Reached(limits.value.monthlySoft, monthly) || Reached(limits.value.weeklySoft, weekly) {
        lessons := lessons + [loop];
        assert |lessons| == |old(lessons)| + 1;
        return SoftBreach;
      }
      return NoBreach;
    }
  }
}

/** The log explains the registry, over any operations, whichever registry writes fail. */
module AllocationLedgerLaws {
  import opened Basics
  import opened AllocationLedger

  /** Each installed decision ends up in the registry, and no other loop changes. */
  lemma {:induction false} EvaluationInstallsEverything(b: Books, decisions: seq<Payload>, loop: string)
    requires loop in b.registry && NewLoops(decisions, {})
    requires forall i :: 0 <= i < |decisions| ==>
      decisions[i].Payload? && decisions[i].allocation.Some? && decisions[i].loop in b.registry
    ensures InstallAll(b, decisions).registry.Keys == b.registry.Keys
    ensures forall i :: 0 <= i < |decisions| && decisions[i].loop == loop ==>
      InstallAll(b, decisions).registry[loop] == decisions[i].allocation
    ensures loop !in LoopsOf(decisions) ==> InstallAll(b, decisions).registry[loop] == b.registry[loop]
  {
    if decisions != [] {
      var before, last := decisions[..|decisions| - 1], decisions[|decisions| - 1];
      assert forall i :: 0 <= i < |before| ==> before[i] == decisions[i];
      EvaluationInstallsEverything(b, before, loop);
      assert LoopsOf(decisions) == LoopsOf(before) + [last.loop];
    }
  }

  /** Each installed decision leaves its row, in the order of the decisions. */
  lemma {:induction false} InstallsLeaveRows(b: Books, decisions: seq<Payload>)
    requires forall i :: 0 <= i < |decisions| ==> decisions[i].Payload? && decisions[i].allocation.Some?
    ensures var rows := InstallAll(b, decisions).rows;
      && |rows| == |b.rows| + |decisions| && b.rows <= rows
      && forall i :: 0 <= i < |decisions| ==>
           rows[|b.rows| + i] == AllocationChange(decisions[i].loop, decisions[i].allocation.value)
  {
    if decisions != [] { InstallsLeaveRows(b, decisions[..|decisions| - 1]); }
  }

  /** The commands; `writeOk` says which registry writes succeed. */
  datatype Op =
    | Decide(p: Payload, configured: bool, snapshot: Option<Policy>, written: bool)
    | Evaluate(e: Evaluation, policy: Option<Policy>, writeOk: nat -> bool)
    | Check(loop: string, hard: bool, active: bool, saved: bool)
    | RecordPass(changed: seq<string>)

  /** What each command leaves, whichever registry writes fail. */
  ghost function Apply(b: Books, op: Op): Books
  {
    match op
    case Decide(p, configured, snapshot, written) =>
      ValidExactly(p, b.registry);
      if DecisionReasons(p, b.registry, configured, snapshot) == [] && written then Install(b, p) else b
    case Evaluate(e, policy, writeOk) =>
      if e.Evaluation? && policy.Some? && EvaluationReasons(e.decisions, b.registry, policy.value, {}) == [] then
        NoReasonsMeans(e.decisions, b.registry, policy.value, {});
        EvaluationOutcome(b, e.decisions, writeOk)
      else b
    case Check(loop, hard, active, saved) => if saved then CheckBudget(b, loop, hard, active) else b
    case RecordPass(changed) => Note(b, changed)
  }

  ghost function History(initial: Registry, ops: seq<Op>): Books
  {
    if ops == [] then Books(initial, []) else Apply(History(initial, ops[..|ops| - 1]), ops[|ops| - 1])
  }

  /** Reading the ledger over the initial registry. */
  function Replay(initial: Registry, rows: seq<Row>): Registry
  {
    if rows == [] then initial
    else
      var before := Replay(initial, rows[..|rows| - 1]);
      match rows[|rows| - 1]
      case AllocationChange(loop, a) => before[loop := Some(a)]
      case HardBreach(loop) => before[loop := Pause(if loop in before then before[loop] else None)]
      case WeeklyEval(_) => before
  }

  predicate Unpauses(row: Row, loop: string)
  {
    row.AllocationChange? && row.loop == loop && row.allocation.status != Some("paused")
  }

  /** Two hard-breach rows of one loop have an un-pausing change between them. */
  ghost predicate WellSpaced(rows: seq<Row>)
  {
    forall i, j :: 0 <= i < j < |rows| && rows[i].HardBreach? && rows[j] == rows[i] ==>
      exists k :: i < k < j && Unpauses(rows[k], rows[i].loop)
  }

  ghost predicate Explained(initial: Registry, b: Books)
  {
    Replay(initial, b.rows) == b.registry && WellSpaced(b.rows)
  }

  /** A loop stays paused after its breach row until an un-pausing change. */
  lemma {:induction false} PausedSince(initial: Registry, rows: seq<Row>, i: nat)
    requires i < |rows| && rows[i].HardBreach?
    requires forall k :: i < k < |rows| ==> !Unpauses(rows[k], rows[i].loop)
    ensures rows[i].loop in Replay(initial, rows) && Paused(Replay(initial, rows)[rows[i].loop])
  {
    if i < |rows| - 1 {
      PausedSince(initial, rows[..|rows| - 1], i);
      assert !Unpauses(rows[|rows| - 1], rows[i].loop);
    }
  }

  lemma RowKeepsSpacing(rows: seq<Row>, row: Row)
    requires WellSpaced(rows)
    requires row.HardBreach? ==> forall i :: 0 <= i < |rows| && rows[i] == row ==>
      exists k :: i < k < |rows| && Unpauses(rows[k], row.loop)
    ensures WellSpaced(rows + [row])
  {
    var longer := rows + [row];
    forall i, j | 0 <= i < j < |longer| && longer[i].HardBreach? && longer[j] == longer[i]
      ensures exists k :: i < k < j && Unpauses(longer[k], longer[i].loop)
    {
      if j < |rows| {
        var k :| i < k < j && Unpauses(rows[k], rows[i].loop);
        assert Unpauses(longer[k], longer[i].loop);
      } else {
        var k :| i < k < |rows| && Unpauses(rows[k], row.loop);
        assert Unpauses(longer[k], longer[i].loop);
      }
    }
  }

  lemma InstallExplained(initial: Registry, b: Books, p: Payload)
    requires Explained(initial, b) && p.Payload? && p.allocation.Some?
    ensures Explained(initial, Install(b, p))
  {
    var row := AllocationChange(p.loop, p.allocation.value);
    var longer := b.rows + [row];
    RowKeepsSpacing(b.rows, row);
    assert Replay(initial, longer) == b.registry[p.loop := Some(p.allocation.value)] by {
      assert longer[..|longer| - 1] == b.rows && longer[|longer| - 1] == row;
    }
  }

  lemma {:induction false} InstallAllExplained(initial: Registry, b: Books, decisions: seq<Payload>)
    requires Explained(initial, b) && forall i :: 0 <= i < |decisions| ==>
      decisions[i].Payload? && decisions[i].allocation.Some?
    ensures Explained(initial, InstallAll(b, decisions))
  {
    if decisions != [] {
      InstallAllExplained(initial, b, decisions[..|decisions| - 1]);
      InstallExplained(initial, InstallAll(b, decisions[..|decisions| - 1]), decisions[|decisions| - 1]);
    }
  }

  lemma NoteExplained(initial: Registry, b: Books, changed: seq<string>)
    requires Explained(initial, b)
    ensures Explained(initial, Note(b, changed))
  {
    assert (b.rows + [WeeklyEval(changed)])[..|b.rows|] == b.rows;
    RowKeepsSpacing(b.rows, WeeklyEval(changed));
  }

  lemma OutcomeExplained(initial: Registry, b: Books, decisions: seq<Payload>, writeOk: nat -> bool)
    requires Explained(initial, b) && forall i :: 0 <= i < |decisions| ==>
      decisions[i].Payload? && decisions[i].allocation.Some?
    ensures Explained(initial, EvaluationOutcome(b, decisions, writeOk))
  {
    var k := Written(writeOk, |decisions|);
    InstallAllExplained(initial, b, decisions[..k]);
    if k == |decisions| {
      assert decisions[..k] == decisions;
      NoteExplained(initial, InstallAll(b, decisions), LoopsOf(decisions));
    }
  }

  lemma CheckExplained(initial: Registry, b: Books, loop: string, hard: bool, active: bool)
    requires Explained(initial, b)
    ensures Explained(initial, CheckBudget(b, loop, hard, active))
  {
    if hard && active && loop in b.registry && !Paused(b.registry[loop]) {
      var row := HardBreach(loop);
      assert (b.rows + [row])[..|b.rows|] == b.rows;
      forall i | 0 <= i < |b.rows| && b.rows[i] == row
        ensures exists k :: i < k < |b.rows| && Unpauses(b.rows[k], loop)
      {
        if forall k :: i < k < |b.rows| ==> !Unpauses(b.rows[k], loop) {
          PausedSince(initial, b.rows, i);
        }
      }
      RowKeepsSpacing(b.rows, row);
    }
  }

  lemma {:induction false} HistoryExplained(initial: Registry, ops: seq<Op>)
    ensures Explained(initial, History(initial, ops))
  {
    if ops != [] {
      HistoryExplained(initial, ops[..|ops| - 1]);
      var b, op := History(initial, ops[..|ops| - 1]), ops[|ops| - 1];
      match op {
        case Decide(p, configured, snapshot, written) =>
          ValidExactly(p, b.registry);
          if DecisionReasons(p, b.registry, configured, snapshot) == [] && written { InstallExplained(initial, b, p); }
        case Evaluate(e, policy, writeOk) =>
          if e.Evaluation? && policy.Some? && EvaluationReasons(e.decisions, b.registry, policy.value, {}) == [] {
            NoReasonsMeans(e.decisions, b.registry, policy.value, {});
            OutcomeExplained(initial, b, e.decisions, writeOk);
          }
        case Check(loop, hard, active, saved) => if saved { CheckExplained(initial, b, loop, hard, active); }
        case RecordPass(changed) => NoteExplained(initial, b, changed);
      }
    }
  }

  /** After any operations, replaying the ledger gives the registry, and breach rows are well spaced. */
  lemma LedgerExplainsRegistry(initial: Registry, ops: seq<Op>)
    ensures Replay(initial, History(initial, ops).rows) == History(initial, ops).registry
    ensures var rows := History(initial, ops).rows;
      forall i, j :: 0 <= i < j < |rows| && rows[i].HardBreach? && rows[j] == rows[i] ==>
        exists k :: i < k < j && rows[k].AllocationChange? && rows[k].loop == rows[i].loop
                    && rows[k].allocation.status != Some("paused")
  {
    HistoryExplained(initial, ops);
    var rows := History(initial, ops).rows;
    forall i, j | 0 <= i < j < |rows| && rows[i].HardBreach? && rows[j] == rows[i]
      ensures exists k :: i < k < j && rows[k].AllocationChange? && rows[k].loop == rows[i].loop
                          && rows[k].allocation.status != Some("paused")
    {
      var k :| i < k < j && Unpauses(rows[k], rows[i].loop);
      assert rows[k].AllocationChange?;
    }
  }
}
