/**
  The attempt loop of agent_runner.py, driving the shared token-budget ledger while other
  runners make calls of their own in between.
 */
module AgentRunner {
  import opened Basics
  import opened TokenBudget
  import opened TokenBudgetLaws

  /** Provider usage after `_token` has turned anything but a nonnegative integer into None. */
  datatype Usage = Usage(reported: bool, total: Option<nat>, cached: Option<nat>)

  function BudgetCharge(provider: string, usage: Usage, reservation: nat): nat
  {
    if !usage.reported then reservation
    else if usage.total.None? || usage.total.value <= 0 then reservation
    else if provider != "codex" then usage.total.value
    else if usage.cached.None? || usage.cached.value > usage.total.value then reservation
    else usage.total.value - usage.cached.value
  }

  /** The only free attempt: codex reported its whole, nonzero usage as cached. */
  lemma FreeOnlyWhenFullyCached(provider: string, usage: Usage, reservation: nat)
    requires reservation > 0
    ensures BudgetCharge(provider, usage, reservation) == 0 <==>
      provider == "codex" && usage.reported && usage.total.Some? && usage.total.value > 0 && usage.cached == usage.total
  {
  }

  /**
    What any attempt is charged: its whole reported use, less what codex took from its cache, or else the reservation.
   */
  lemma ChargeCases(provider: string, total: nat, cached: Option<nat>, reservation: nat)
    ensures total > 0 && provider != "codex" ==>
      BudgetCharge(provider, Usage(true, Some(total), cached), reservation) == total
    ensures total > 0 && cached.Some? && cached.value <= total ==>
      BudgetCharge("codex", Usage(true, Some(total), cached), reservation) + cached.value == total
    ensures cached.None? || cached.value > total ==>
      BudgetCharge("codex", Usage(true, Some(total), cached), reservation) == reservation
    ensures BudgetCharge(provider, Usage(true, Some(0), cached), reservation) == reservation
    ensures BudgetCharge(provider, Usage(true, None, cached), reservation) == reservation
    ensures BudgetCharge(provider, Usage(false, Some(total), cached), reservation) == reservation
  {
  }

  datatype ErrorClass = TransientTimeout | TransientQuota | TransientUnavailable | TransientAuth |
    Deterministic(name: string)

  /** What one launched provider left behind; `errorClass` is what the classifier says on failure. */
  datatype Outcome = Outcome(
    rc: int, timedOut: bool, produced: bool, contractHolds: bool, errorClass: ErrorClass, usage: Usage)
  {
    predicate SchemaValid() { rc == 0 && !timedOut && produced && contractHolds }
  }

  datatype Verdict = Success | ContractFailure | DeterministicFailure | Retry

  function Judge(o: Outcome): Verdict
  {
    if o.rc == 0 && o.SchemaValid() then Success
    else if o.rc == 0 && o.produced && !o.SchemaValid() then ContractFailure
    else if o.errorClass.Deterministic? then DeterministicFailure
    else Retry
  }

  datatype Attempt = Attempt(provider: string, eventId: string, outcome: Outcome, charged: nat)

  datatype BudgetConfig = BudgetConfig(
    scopeId: string, loop: string, dailyScope: string, day: string, passLimit: nat, dailyLimit: Option<int>)
  {
    /** What argument checking leaves: the loop name alone is not checked for emptiness. */
    predicate Checked()
    {
      scopeId != "" && day != "" && passLimit > 0 && (dailyLimit.Some? ==> dailyLimit.value > 0)
      && (dailyScope == "" ==> loop == "")
    }

    /** Every attempt reserves the whole pass budget. */
    function Query(id: string): Request
    {
      Request(id, loop, scopeId, dailyScope, day, passLimit, passLimit, dailyLimit)
    }
  }

  /** One candidate's surroundings: time left, its event id, other runners' calls, its outcome. */
  datatype Turn = Turn(secondsLeft: int, eventId: string, before: seq<Call>, outcome: Outcome, during: seq<Call>)

  // ---------------------------------------------------------------- the shared trace

  ghost function UpToReserve(trace: seq<Call>, before: seq<Call>, q: Request): seq<Call>
  {
    trace + before + [Reserve(q)]
  }

  ghost function UpToSettle(start: seq<Call>, during: seq<Call>, a: Attempt): seq<Call>
  {
    start + during + [Settle(a.eventId, a.charged)]
  }

  /**
    Every ledger call up to the end of these attempts: the past, and for each attempt the calls of
    others before it, its reservation, the calls of others during it, and its settlement.
   */
  ghost function TraceOf(past: seq<Call>, budget: BudgetConfig, turns: seq<Turn>, attempts: seq<Attempt>): seq<Call>
    requires |attempts| <= |turns|
  {
    if attempts == [] then past
    else
      var turn, a := turns[|attempts| - 1], Last(attempts);
      UpToSettle(UpToReserve(TraceOf(past, budget, turns, Init(attempts)), turn.before, budget.Query(a.eventId)),
        turn.during, a)
  }

  /** The trace at the moment the attempt after these asks for its reservation. */
  ghost function TraceBefore(past: seq<Call>, budget: BudgetConfig, turns: seq<Turn>, attempts: seq<Attempt>): seq<Call>
    requires |attempts| < |turns|
  {
    TraceOf(past, budget, turns, attempts) + turns[|attempts|].before
  }

  /** The reservation of one attempt was valid and allowed where it stands in the trace. */
  ghost predicate AllowedAt(past: seq<Call>, budget: BudgetConfig, turns: seq<Turn>, attempts: seq<Attempt>, i: nat)
    requires i < |attempts| <= |turns|
  {
    var q := budget.Query(attempts[i].eventId);
    ValidRequest(q) && DecisionFor(Run(TraceBefore(past, budget, turns, attempts[..i])), q).Allowed()
  }

  /** Each attempt was allowed, and charged what its provider's usage report implies. */
  ghost predicate Accounted(past: seq<Call>, budget: BudgetConfig, turns: seq<Turn>, attempts: seq<Attempt>)
    requires |attempts| <= |turns|
  {
    forall i :: 0 <= i < |attempts| ==>
      && AllowedAt(past, budget, turns, attempts, i)
      && attempts[i].charged == BudgetCharge(attempts[i].provider, attempts[i].outcome.usage, budget.passLimit)
  }

  lemma OneMoreAccounted(past: seq<Call>, budget: BudgetConfig, turns: seq<Turn>, attempts: seq<Attempt>, a: Attempt)
    requires |attempts| < |turns| && Accounted(past, budget, turns, attempts)
    requires ValidRequest(budget.Query(a.eventId))
    requires DecisionFor(Run(TraceBefore(past, budget, turns, attempts)), budget.Query(a.eventId)).Allowed()
    requires a.charged == BudgetCharge(a.provider, a.outcome.usage, budget.passLimit)
    ensures Accounted(past, budget, turns, attempts + [a])
  {
    var longer := attempts + [a];
    forall i | 0 <= i < |longer|
      ensures AllowedAt(past, budget, turns, longer, i)
      ensures longer[i].charged == BudgetCharge(longer[i].provider, longer[i].outcome.usage, budget.passLimit)
    {
      if i < |attempts| {
        assert longer[..i] == attempts[..i];
        assert AllowedAt(past, budget, turns, attempts, i);
      } else {
        assert longer[..i] == attempts;
      }
    }
  }

  /** The trace at an earlier attempt is a prefix of the whole trace. */
  lemma {:induction false} TraceGrows(
      past: seq<Call>, budget: BudgetConfig, turns: seq<Turn>, attempts: seq<Attempt>, i: nat)
    requires i <= |attempts| <= |turns|
    ensures TraceOf(past, budget, turns, attempts[..i]) <= TraceOf(past, budget, turns, attempts)
  {
    if i == |attempts| {
      assert attempts[..i] == attempts;
    } else {
      TraceGrows(past, budget, turns, Init(attempts), i);
      assert Init(attempts)[..i] == attempts[..i];
    }
  }

  /** Where one attempt's reservation and settlement stand in the trace. */
  datatype Span = Span(reserved: nat, settled: nat)

  ghost function SpanOf(
      past: seq<Call>, budget: BudgetConfig, turns: seq<Turn>, attempts: seq<Attempt>, i: nat): (s: Span)
    requires i < |attempts| <= |turns|
    ensures s.reserved < s.settled
  {
    NextSection(past, budget, turns, attempts, i);
    Span(|TraceBefore(past, budget, turns, attempts[..i])|, |TraceOf(past, budget, turns, attempts[..i + 1])| - 1)
  }

  lemma NextSection(past: seq<Call>, budget: BudgetConfig, turns: seq<Turn>, attempts: seq<Attempt>, i: nat)
    requires i < |attempts| <= |turns|
    ensures var start :=
      UpToReserve(TraceOf(past, budget, turns, attempts[..i]), turns[i].before, budget.Query(attempts[i].eventId));
      TraceOf(past, budget, turns, attempts[..i + 1]) == UpToSettle(start, turns[i].during, attempts[i])
  {
    assert Init(attempts[..i + 1]) == attempts[..i];
  }

  lemma TwoMarks<T>(p: seq<T>, x: T, between: seq<T>, y: T)
    ensures var start := p + [x]; var end := start + between + [y];
      |p| < |end| - 1 && end[|p|] == x && end[|end| - 1] == y && end[..|p|] == p
  {
  }

  lemma SpanMarks(past: seq<Call>, budget: BudgetConfig, turns: seq<Turn>, attempts: seq<Attempt>, i: nat)
    requires i < |attempts| <= |turns|
    ensures var trace := TraceOf(past, budget, turns, attempts); var s := SpanOf(past, budget, turns, attempts, i);
      && s.settled < |trace|
      && trace[s.reserved] == Reserve(budget.Query(attempts[i].eventId)) &&
           trace[s.settled] == Settle(attempts[i].eventId, attempts[i].charged)
      && trace[..s.reserved] == TraceBefore(past, budget, turns, attempts[..i])
  {
    NextSection(past, budget, turns, attempts, i);
    TwoMarks(TraceBefore(past, budget, turns, attempts[..i]), Reserve(budget.Query(attempts[i].eventId)),
             turns[i].during, Settle(attempts[i].eventId, attempts[i].charged));
    TraceGrows(past, budget, turns, attempts, i + 1);
  }

  lemma SpansInOrder(past: seq<Call>, budget: BudgetConfig, turns: seq<Turn>, attempts: seq<Attempt>, i: nat, j: nat)
    requires i < j < |attempts| <= |turns|
    ensures SpanOf(past, budget, turns, attempts, i).settled < SpanOf(past, budget, turns, attempts, j).reserved
  {
    TraceGrows(past, budget, turns, attempts[..j], i + 1);
    assert attempts[..j][..i + 1] == attempts[..i + 1];
  }

  /** A later candidate launches only when every earlier attempt was charged exactly zero. */
  lemma LaterAttemptMeansEarlierFree(
      past: seq<Call>, budget: BudgetConfig, turns: seq<Turn>, attempts: seq<Attempt>, i: nat, j: nat)
    requires i < j < |attempts| <= |turns| && Accounted(past, budget, turns, attempts)
    requires WellDriven(TraceOf(past, budget, turns, attempts))
    ensures attempts[i].charged == 0
  {
    var trace := TraceOf(past, budget, turns, attempts);
    var s, t := SpanOf(past, budget, turns, attempts, i), SpanOf(past, budget, turns, attempts, j);
    SpanMarks(past, budget, turns, attempts, i);
    SpanMarks(past, budget, turns, attempts, j);
    SpansInOrder(past, budget, turns, attempts, i, j);
    assert AllowedAt(past, budget, turns, attempts, i) && AllowedAt(past, budget, turns, attempts, j);
    var k := EarlierSettledAtZero(trace, s.reserved, t.reserved);
    SameSettlement(trace, k, s.settled);
  }

  lemma SameSettlement(calls: seq<Call>, a: nat, b: nat)
    requires SettledOnce(calls) && a < |calls| && b < |calls|
    requires calls[a].Settle? && calls[b].Settle? && calls[a].eventId == calls[b].eventId
    ensures a == b
  {
  }

  /** A budgeted fallback happens only after codex attempts whose whole usage was cached. */
  lemma FallbackOnlyAfterFreeCodex(past: seq<Call>, budget: BudgetConfig, turns: seq<Turn>, attempts: seq<Attempt>)
    requires |attempts| <= |turns| && Accounted(past, budget, turns, attempts) && budget.passLimit > 0
    requires WellDriven(TraceOf(past, budget, turns, attempts))
    ensures forall i :: 0 <= i < |attempts| - 1 ==>
      && attempts[i].charged == 0 && attempts[i].provider == "codex" && attempts[i].outcome.usage.reported
      && attempts[i].outcome.usage.total.Some? && attempts[i].outcome.usage.total.value > 0
      && attempts[i].outcome.usage.cached == attempts[i].outcome.usage.total
  {
    forall i | 0 <= i < |attempts| - 1
      ensures attempts[i].charged == 0
      ensures attempts[i].provider == "codex" && attempts[i].outcome.usage.reported
      ensures attempts[i].outcome.usage.total.Some? && attempts[i].outcome.usage.total.value > 0
      ensures attempts[i].outcome.usage.cached == attempts[i].outcome.usage.total
    {
      LaterAttemptMeansEarlierFree(past, budget, turns, attempts, i, |attempts| - 1);
      FreeOnlyWhenFullyCached(attempts[i].provider, attempts[i].outcome.usage, budget.passLimit);
    }
  }

  // ---------------------------------------------------------------- settled exactly once

  function Settlements(calls: seq<Call>, id: string): nat
  {
    if calls == [] then 0
    else Settlements(Init(calls), id) + (if Last(calls).Settle? && Last(calls).eventId == id then 1 else 0)
  }

  lemma {:induction false} SettlementsInTwo(a: seq<Call>, b: seq<Call>, id: string)
    ensures Settlements(a + b, id) == Settlements(a, id) + Settlements(b, id)
  {
    if b == [] {
      assert a + b == a;
    } else {
      assert Init(a + b) == a + Init(b);
      SettlementsInTwo(a, Init(b), id);
    }
  }

  /** Nobody else settles this event. */
  ghost predicate OwnEvent(past: seq<Call>, turns: seq<Turn>, id: string)
  {
    Settlements(past, id) == 0 && forall i :: 0 <= i < |turns| ==>
      Settlements(turns[i].before, id) == Settlements(turns[i].during, id) == 0
  }

  function AttemptsOf(attempts: seq<Attempt>, id: string): nat
  {
    if attempts == [] then 0 else AttemptsOf(Init(attempts), id) + (if Last(attempts).eventId == id then 1 else 0)
  }

  /** The trace settles an event of this runner once for each attempt that was made under it, and never otherwise. */
  lemma {:induction false} SettledOncePerAttempt(
      past: seq<Call>, budget: BudgetConfig, turns: seq<Turn>, attempts: seq<Attempt>, id: string)
    requires |attempts| <= |turns| && OwnEvent(past, turns, id)
    ensures Settlements(TraceOf(past, budget, turns, attempts), id) == AttemptsOf(attempts, id)
  {
    if attempts != [] {
      var turn, a := turns[|attempts| - 1], Last(attempts);
      var before := TraceOf(past, budget, turns, Init(attempts));
      SettledOncePerAttempt(past, budget, turns, Init(attempts), id);
      SettlementsInTwo(before, turn.before, id);
      SettlementsInTwo(before + turn.before, [Reserve(budget.Query(a.eventId))], id);
      SettlementsInTwo(UpToReserve(before, turn.before, budget.Query(a.eventId)), turn.during, id);
      SettlementsInTwo(UpToReserve(before, turn.before, budget.Query(a.eventId)) + turn.during,
        [Settle(a.eventId, a.charged)], id);
      OneCall(Reserve(budget.Query(a.eventId)), id);
      OneCall(Settle(a.eventId, a.charged), id);
    }
  }

  lemma OneCall(call: Call, id: string)
    ensures Settlements([call], id) == if call.Settle? && call.eventId == id then 1 else 0
  {
    assert Init([call]) == [];
  }

  // ---------------------------------------------------------------- driving the ledger

  lemma RunConcat(a: seq<Call>, b: seq<Call>)
    ensures b == [] ==> Run(a + b) == Run(a)
    ensures b != [] ==> Run(a + b) == Step(Run(a + Init(b)), Last(b))
  {
    if b == [] { assert a + b == a; } else { assert Init(a + b) == a + Init(b); }
  }

  /** Other runners' calls, applied one at a time under the lock. */
  method Interleave(ledger: TokenBudgetLedger, calls: seq<Call>, ghost past: seq<Call>)
    requires ledger.rows == Run(past)
    modifies ledger
    ensures ledger.rows == Run(past + calls)
  {
    RunConcat(past, []);
    for k := 0 to |calls|
      invariant ledger.rows == Run(past + calls[..k])
    {
      RunConcat(past, calls[..k + 1]);
      assert Init(calls[..k + 1]) == calls[..k];
      match calls[k] {
        case Reserve(q) => var _ := ledger.ReserveTokens(q);
        case Settle(id, actual) => var _ := ledger.SettleTokens(id, actual);
      }
    }
    assert calls[..|calls|] == calls;
  }

  /** Reserve after other runners' calls; an invalid request leaves only their calls behind. */
  method ReserveFor(ledger: TokenBudgetLedger, q: Request, before: seq<Call>, ghost past: seq<Call>)
    returns (res: Result<Decision, BudgetError>)
    requires ledger.rows == Run(past)
    modifies ledger
    ensures res.Ok? <==> ValidRequest(q)
    ensures ledger.rows == Run(if res.Ok? then UpToReserve(past, before, q) else past + before)
    ensures res.Ok? ==> res.value.row == DecisionFor(Run(past + before), q)
  {
    Interleave(ledger, before, past);
    res := ledger.ReserveTokens(q);
    RunConcat(past + before, [Reserve(q)]);
    assert past + before + Init([Reserve(q)]) == past + before;
    if res.Ok? {
      assert ledger.rows == Run(past + before) + [Reserved(res.value.row)];
      assert ledger.rows[|ledger.rows| - 1] == Reserved(res.value.row);
      assert ledger.rows == Run(past + before) + [Reserved(DecisionFor(Run(past + before), q))];
      assert ledger.rows[|ledger.rows| - 1] == Reserved(DecisionFor(Run(past + before), q));
    }
  }

  /** Settle after other runners' calls. */
  method SettleFor(ledger: TokenBudgetLedger, id: string, charged: nat, during: seq<Call>, ghost past: seq<Call>)
    requires ledger.rows == Run(past)
    modifies ledger
    ensures ledger.rows == Run(past + during + [Settle(id, charged)])
  {
    Interleave(ledger, during, past);
    var _ := ledger.SettleTokens(id, charged);
    RunConcat(past + during, [Settle(id, charged)]);
    assert past + during + Init([Settle(id, charged)]) == past + during;
  }

  datatype Launch = Crashed | Blocked | Launched(charged: nat)

  /** One budgeted candidate, from the exact trace before it to the exact trace after it. */
  method TryCandidate(
      ledger: TokenBudgetLedger, provider: string, budget: BudgetConfig, turn: Turn, ghost trace: seq<Call>)
    returns (launch: Launch)
    requires ledger.rows == Run(trace)
    modifies ledger
    // the whole pass budget is asked for, under the budget's own names and limits
    ensures budget.Query(turn.eventId) ==
      Request(turn.eventId, budget.loop, budget.scopeId, budget.dailyScope, budget.day,
              budget.passLimit, budget.passLimit, budget.dailyLimit)
    ensures launch.Crashed? <==> !ValidRequest(budget.Query(turn.eventId))
    ensures launch.Launched? <==>
      ValidRequest(budget.Query(turn.eventId)) &&
        DecisionFor(Run(trace + turn.before), budget.Query(turn.eventId)).Allowed()
    ensures launch.Launched? ==> launch.charged == BudgetCharge(provider, turn.outcome.usage, budget.passLimit)
    ensures var q := budget.Query(turn.eventId);
      ledger.rows == Run(match launch
        case Crashed => trace + turn.before
        case Blocked => UpToReserve(trace, turn.before, q)
        case Launched(charged) =>
          UpToSettle(UpToReserve(trace, turn.before, q), turn.during,
            Attempt(provider, turn.eventId, turn.outcome, charged)))
  {
    var q := budget.Query(turn.eventId);
    var decision := ReserveFor(ledger, q, turn.before, trace);
    if decision.Err? {
      return Crashed;
    }
    if !decision.value.row.Allowed() {
      return Blocked;
    }
    var charged := BudgetCharge(provider, turn.outcome.usage, budget.passLimit);
    SettleFor(ledger, turn.eventId, charged, turn.during, UpToReserve(trace, turn.before, q));
    return Launched(charged);
  }

  // ---------------------------------------------------------------- the loop and the run

  /** The attempts went to a prefix of the candidates, in order, each while time was left. */
  ghost predicate Follows(candidates: seq<string>, turns: seq<Turn>, attempts: seq<Attempt>)
    requires |turns| == |candidates|
  {
    && |attempts| <= |candidates|
    && forall i :: 0 <= i < |attempts| ==>
         && attempts[i].provider == candidates[i] && attempts[i].outcome == turns[i].outcome &&
              attempts[i].eventId == turns[i].eventId
         && turns[i].secondsLeft >= 1
  }

  ghost predicate AllTransient(attempts: seq<Attempt>)
  {
    forall i :: 0 <= i < |attempts| ==> Judge(attempts[i].outcome) == Retry
  }

  datatype LoopEnd = Selected | Stopped | Exhausted | OutOfTime | BudgetBlocked | LedgerError

  /** The reservation for the next attempt is valid and turned down where it stands in the trace. */
  ghost predicate Refused(budget: BudgetConfig, turns: seq<Turn>, past: seq<Call>, attempts: seq<Attempt>)
    requires |attempts| < |turns|
  {
    var q := budget.Query(turns[|attempts|].eventId);
    ValidRequest(q) && !DecisionFor(Run(TraceBefore(past, budget, turns, attempts)), q).Allowed()
  }

  /** How the loop over candidates ended, and that nothing else could have ended it there. */
  ghost predicate EndedBy(
      end: LoopEnd, candidates: seq<string>, budget: Option<BudgetConfig>, turns: seq<Turn>, past: seq<Call>,
      attempts: seq<Attempt>)
    requires |turns| == |candidates|
  {
    var n := |attempts|;
    match end
    case Selected => n > 0 && AllTransient(Init(attempts)) && Judge(attempts[n - 1].outcome) == Success
    case Stopped =>
      n > 0 && AllTransient(Init(attempts)) && Judge(attempts[n - 1].outcome) in {ContractFailure, DeterministicFailure}
    case Exhausted => n == |candidates| && AllTransient(attempts)
    case OutOfTime => n < |candidates| && AllTransient(attempts) && turns[n].secondsLeft < 1
    case BudgetBlocked =>
      && n < |candidates| && AllTransient(attempts) && turns[n].secondsLeft >= 1 && budget.Some?
      && Refused(budget.value, turns, past, attempts)
    case LedgerError =>
      && n < |candidates| && AllTransient(attempts) && turns[n].secondsLeft >= 1 && budget.Some?
      && !ValidRequest(budget.value.Query(turns[n].eventId))
  }

  /** Every ledger call up to the end of the loop; without a budget this runner makes none. */
  ghost function TraceAfter(
      end: LoopEnd, budget: Option<BudgetConfig>, turns: seq<Turn>, past: seq<Call>, attempts: seq<Attempt>): seq<Call>
    requires |attempts| <= |turns| && (end.BudgetBlocked? || end.LedgerError? ==> |attempts| < |turns|)
  {
    match budget
    case None => past
    case Some(b) =>
      if end.BudgetBlocked? then TraceBefore(past, b, turns, attempts) + [Reserve(b.Query(turns[|attempts|].eventId))]
      else if end.LedgerError? then TraceBefore(past, b, turns, attempts)
      else TraceOf(past, b, turns, attempts)
  }

  lemma OneMoreFollows(candidates: seq<string>, turns: seq<Turn>, attempts: seq<Attempt>, a: Attempt)
    requires |turns| == |candidates| && Follows(candidates, turns, attempts) && AllTransient(attempts) &&
      |attempts| < |candidates|
    requires a.provider == candidates[|attempts|] && a.outcome == turns[|attempts|].outcome &&
      a.eventId == turns[|attempts|].eventId
    requires turns[|attempts|].secondsLeft >= 1
    ensures Follows(candidates, turns, attempts + [a])
    ensures AllTransient(attempts + [a]) <==> Judge(a.outcome) == Retry
    ensures Init(attempts + [a]) == attempts && Last(attempts + [a]) == a
  {
  }

  /** What an attempt that did not ask for a retry means for the loop. */
  lemma EndedByAttempt(
      candidates: seq<string>, budget: Option<BudgetConfig>, turns: seq<Turn>, past: seq<Call>, attempts: seq<Attempt>,
      a: Attempt)
    requires |turns| == |candidates| && |attempts| < |candidates| && AllTransient(attempts)
    ensures Judge(a.outcome) == Success ==> EndedBy(Selected, candidates, budget, turns, past, attempts + [a])
    ensures Judge(a.outcome) in {ContractFailure, DeterministicFailure} ==>
      EndedBy(Stopped, candidates, budget, turns, past, attempts + [a])
  {
    assert Init(attempts + [a]) == attempts;
  }

  /** Between attempts the ledger is exactly the run of the trace so far. */
  ghost predicate Holds(
      rows: seq<Row>, budget: Option<BudgetConfig>, turns: seq<Turn>, past: seq<Call>, attempts: seq<Attempt>)
    requires |attempts| <= |turns|
  {
    match budget
    case None => rows == Run(past)
    case Some(b) => rows == Run(TraceOf(past, b, turns, attempts)) && Accounted(past, b, turns, attempts)
  }

  /** At the end the ledger is exactly the run of the whole trace, and the attempts are accounted. */
  ghost predicate LeavesTrace(
      rows: seq<Row>, end: LoopEnd, budget: Option<BudgetConfig>, turns: seq<Turn>, past: seq<Call>,
      attempts: seq<Attempt>)
  {
    && |attempts| <= |turns| && (end.BudgetBlocked? || end.LedgerError? ==> |attempts| < |turns|)
    && rows == Run(TraceAfter(end, budget, turns, past, attempts))
    && (budget.Some? ==> Accounted(past, budget.value, turns, attempts))
  }

  lemma HoldsAtEnd(
      rows: seq<Row>, end: LoopEnd, budget: Option<BudgetConfig>, turns: seq<Turn>, past: seq<Call>,
      attempts: seq<Attempt>)
    requires |attempts| <= |turns| && Holds(rows, budget, turns, past, attempts) && !end.BudgetBlocked? &&
      !end.LedgerError?
    ensures LeavesTrace(rows, end, budget, turns, past, attempts)
  {
  }

  /** One turn, with or without a budget; nothing is appended unless a provider was launched. */
  method TakeTurn(
      provider: string, budget: Option<BudgetConfig>, ledger: TokenBudgetLedger, turns: seq<Turn>,
      ghost past: seq<Call>, attempts: seq<Attempt>)
    returns (launch: Launch)
    requires |attempts| < |turns| && Holds(ledger.rows, budget, turns, past, attempts)
    modifies ledger
    ensures var turn := turns[|attempts|];
      launch.Launched? ==>
        Holds(ledger.rows, budget, turns, past,
          attempts + [Attempt(provider, turn.eventId, turn.outcome, launch.charged)])
    ensures launch.Blocked? ==>
      && budget.Some? && Refused(budget.value, turns, past, attempts)
      && LeavesTrace(ledger.rows, BudgetBlocked, budget, turns, past, attempts)
    ensures launch.Crashed? ==>
      && budget.Some? && !ValidRequest(budget.value.Query(turns[|attempts|].eventId))
      && LeavesTrace(ledger.rows, LedgerError, budget, turns, past, attempts)
  {
    if budget.None? {
      return Launched(0);
    }
    var turn := turns[|attempts|];
    launch := TryCandidate(ledger, provider, budget.value, turn, TraceOf(past, budget.value, turns, attempts));
    if launch.Launched? {
      ghost var a := Attempt(provider, turn.eventId, turn.outcome, launch.charged);
      OneMoreAccounted(past, budget.value, turns, attempts, a);
      assert Init(attempts + [a]) == attempts && Last(attempts + [a]) == a;
    }
  }

  /**
    The end of the loop in the raw fields of the outcomes.  A delivered result returned zero in time, produced a
    fresh result and kept its contract; only a transient failure that left no result at return code zero is retried.
   */
  lemma EndInRawFields(
      end: LoopEnd, candidates: seq<string>, budget: Option<BudgetConfig>, turns: seq<Turn>, past: seq<Call>,
      attempts: seq<Attempt>)
    requires |turns| == |candidates| && |attempts| <= |candidates|
    requires EndedBy(end, candidates, budget, turns, past, attempts)
    ensures end.Selected? <==>
      && attempts != []
      && Last(attempts).outcome.rc == 0 && !Last(attempts).outcome.timedOut
      && Last(attempts).outcome.produced && Last(attempts).outcome.contractHolds
    ensures forall i :: 0 <= i < |attempts| - 1 ==>
      var o := attempts[i].outcome;
      && !(o.rc == 0 && o.produced)
      && o.errorClass in {TransientTimeout, TransientQuota, TransientUnavailable, TransientAuth}
    ensures end in {Selected, Stopped} <==>
      && attempts != []
      && ((Last(attempts).outcome.rc == 0 && Last(attempts).outcome.produced)
          || Last(attempts).outcome.errorClass !in
             {TransientTimeout, TransientQuota, TransientUnavailable, TransientAuth})
    ensures end.OutOfTime? ==> |attempts| < |candidates| && turns[|attempts|].secondsLeft < 1
    ensures end.Exhausted? ==> |attempts| == |candidates|
    ensures end in {BudgetBlocked, LedgerError} ==>
      && budget.Some? && |attempts| < |candidates|
      && var q := budget.value.Query(turns[|attempts|].eventId);
         ValidRequest(q) ==> !DecisionFor(Run(TraceBefore(past, budget.value, turns, attempts)), q).Allowed()
  {
    forall i | 0 <= i < |attempts| - 1 ensures Judge(attempts[i].outcome) == Retry {
      if end in {Selected, Stopped} { assert Init(attempts)[i] == attempts[i]; }
    }
  }

  /** The loop over candidates. */
  method AttemptLoop(
      candidates: seq<string>, budget: Option<BudgetConfig>, ledger: TokenBudgetLedger, turns: seq<Turn>,
      ghost past: seq<Call>)
    returns (attempts: seq<Attempt>, end: LoopEnd)
    requires |turns| == |candidates|
    requires ledger.rows == Run(past)
    modifies ledger
    ensures Follows(candidates, turns, attempts) && EndedBy(end, candidates, budget, turns, past, attempts)
    ensures LeavesTrace(ledger.rows, end, budget, turns, past, attempts)
  {
    attempts, end := [], Exhausted;
    while |attempts| < |candidates|
      invariant end == Exhausted && Follows(candidates, turns, attempts) && AllTransient(attempts)
      invariant Holds(ledger.rows, budget, turns, past, attempts)
      decreases |candidates| - |attempts|
    {
      var n := |attempts|;
      var turn := turns[n];
      if turn.secondsLeft < 1 {
        end := OutOfTime;
        break;
      }
      var launch := TakeTurn(candidates[n], budget, ledger, turns, past, attempts);
      if !launch.Launched? {
        end := if launch.Crashed? then LedgerError else BudgetBlocked;
        break;
      }
      var a := Attempt(candidates[n], turn.eventId, turn.outcome, launch.charged);
      OneMoreFollows(candidates, turns, attempts, a);
      EndedByAttempt(candidates, budget, turns, past, attempts, a);
      attempts := attempts + [a];
      if turn.outcome.rc == 0 && turn.outcome.SchemaValid() {
        end := Selected;
        break;
      }
      if turn.outcome.rc == 0 && turn.outcome.produced && !turn.outcome.SchemaValid() {
        end := Stopped;
        break;
      }
      if turn.outcome.errorClass.Deterministic? {
        end := Stopped;
        break;
      }
    }
    if !end.BudgetBlocked? && !end.LedgerError? { HoldsAtEnd(ledger.rows, end, budget, turns, past, attempts); }
  }

  /** The loop got as far as this candidate: only transient attempts before it, and time left for it. */
  ghost predicate Reached(turns: seq<Turn>, attempts: seq<Attempt>, n: nat)
  {
    n <= |attempts| && n < |turns| && AllTransient(attempts[..n]) && turns[n].secondsLeft >= 1
  }

  /** The reservation for candidate n is valid, and there is room for it where it stands in the trace. */
  ghost predicate HasRoom(budget: BudgetConfig, turns: seq<Turn>, past: seq<Call>, attempts: seq<Attempt>, n: nat)
    requires n <= |attempts| && n < |turns|
  {
    var q := budget.Query(turns[n].eventId);
    ValidRequest(q) && Room(Run(TraceBefore(past, budget, turns, attempts[..n])), q)
  }

  /** A candidate that was reached is launched exactly when its pass holds no nonzero charge and its day has room. */
  lemma LaunchedExactly(
      end: LoopEnd, candidates: seq<string>, budget: BudgetConfig, turns: seq<Turn>, past: seq<Call>,
      attempts: seq<Attempt>, n: nat)
    requires |turns| == |candidates| && Follows(candidates, turns, attempts)
    requires EndedBy(end, candidates, Some(budget), turns, past, attempts) && Accounted(past, budget, turns, attempts)
    requires Reached(turns, attempts, n) && DistinctIds(TraceBefore(past, budget, turns, attempts[..n]))
    ensures n < |attempts| <==> HasRoom(budget, turns, past, attempts, n)
  {
    AllowedExactly(TraceBefore(past, budget, turns, attempts[..n]), budget.Query(turns[n].eventId));
    if n < |attempts| {
      assert AllowedAt(past, budget, turns, attempts, n);
    } else {
      assert attempts[..n] == attempts;
      assert n > 0 ==> Judge(attempts[n - 1].outcome) == Retry;
    }
  }

  ghost predicate LaunchedIfRoom(
      budget: BudgetConfig, turns: seq<Turn>, past: seq<Call>, attempts: seq<Attempt>, n: nat)
  {
    Reached(turns, attempts, n) && DistinctIds(TraceBefore(past, budget, turns, attempts[..n])) ==>
      (n < |attempts| <==> HasRoom(budget, turns, past, attempts, n))
  }

  /** Every candidate that was reached was launched exactly when there was room for it. */
  ghost predicate LaunchedWhereRoom(budget: BudgetConfig, turns: seq<Turn>, past: seq<Call>, attempts: seq<Attempt>)
  {
    forall n: nat :: LaunchedIfRoom(budget, turns, past, attempts, n)
  }

  lemma EachLaunchedExactly(
      end: LoopEnd, candidates: seq<string>, budget: BudgetConfig, turns: seq<Turn>, past: seq<Call>,
      attempts: seq<Attempt>)
    requires |turns| == |candidates| && Follows(candidates, turns, attempts)
    requires EndedBy(end, candidates, Some(budget), turns, past, attempts) && Accounted(past, budget, turns, attempts)
    ensures LaunchedWhereRoom(budget, turns, past, attempts)
  {
    forall n: nat ensures LaunchedIfRoom(budget, turns, past, attempts, n) {
      if Reached(turns, attempts, n) {
        if DistinctIds(TraceBefore(past, budget, turns, attempts[..n])) {
          LaunchedExactly(end, candidates, budget, turns, past, attempts, n);
        }
      }
    }
  }

  /** The trace of two attempts that nobody else interrupts. */
  lemma TraceOfTwo(budget: BudgetConfig, turns: seq<Turn>, attempts: seq<Attempt>)
    requires |turns| == |attempts| == 2
    requires forall i :: 0 <= i < 2 ==> turns[i].before == [] && turns[i].during == []
    ensures TraceOf([], budget, turns, attempts) ==
      [Reserve(budget.Query(attempts[0].eventId)), Settle(attempts[0].eventId, attempts[0].charged),
       Reserve(budget.Query(attempts[1].eventId)), Settle(attempts[1].eventId, attempts[1].charged)]
  {
    var one := [attempts[0]];
    assert Init(attempts) == one && Init(one) == [];
    assert TraceOf([], budget, turns, []) == [];
    assert TraceOf([], budget, turns, one) ==
      [Reserve(budget.Query(attempts[0].eventId)), Settle(attempts[0].eventId, attempts[0].charged)];
  }

  /** No calls of other runners around the two turns, and distinct event ids. */
  ghost predicate TwoQuietTurns(turns: seq<Turn>)
  {
    && |turns| == 2 && turns[0].eventId != turns[1].eventId
    && forall i :: 0 <= i < 2 ==> turns[i].before == [] && turns[i].during == [] && turns[i].secondsLeft >= 1
  }

  lemma SecondMeansFirstFree(budget: BudgetConfig, turns: seq<Turn>, attempts: seq<Attempt>)
    requires TwoQuietTurns(turns) && |attempts| == 2 && Accounted([], budget, turns, attempts)
    requires forall i :: 0 <= i < 2 ==> attempts[i].eventId == turns[i].eventId
    ensures attempts[0].charged == 0
  {
    TraceOfTwo(budget, turns, attempts);
    LaterAttemptMeansEarlierFree([], budget, turns, attempts, 0, 1);
  }

  /** An empty ledger and no other runner: a first attempt without a usage report leaves no room for the second. */
  lemma UnreportedUsageBlocks(
      end: LoopEnd, candidates: seq<string>, budget: BudgetConfig, turns: seq<Turn>, attempts: seq<Attempt>)
    requires |candidates| == 2 && TwoQuietTurns(turns)
    requires forall i :: 0 <= i < 2 ==> ValidRequest(budget.Query(turns[i].eventId))
    requires budget.dailyLimit.Some? ==> budget.passLimit <= budget.dailyLimit.value
    requires Judge(turns[0].outcome) == Retry && !turns[0].outcome.usage.reported
    requires Follows(candidates, turns, attempts) && EndedBy(end, candidates, Some(budget), turns, [], attempts)
    requires Accounted([], budget, turns, attempts)
    ensures |attempts| == 1 && end.BudgetBlocked?
  {
    assert TraceBefore([], budget, turns, attempts[..0]) == [];
    LaunchedExactly(end, candidates, budget, turns, [], attempts, 0);
    if |attempts| == 2 { SecondMeansFirstFree(budget, turns, attempts); }
  }

  /** The ledger ends in this runner's own refused reservation for the next candidate. */
  ghost predicate RefusedNext(
      rows: seq<Row>, candidates: seq<string>, budget: Option<BudgetConfig>, turns: seq<Turn>, past: seq<Call>,
      attempts: seq<Attempt>)
  {
    && budget.Some? && |attempts| < |candidates| == |turns|
    && Refused(budget.value, turns, past, attempts)
    && rows == Run(TraceBefore(past, budget.value, turns, attempts) +
         [Reserve(budget.value.Query(turns[|attempts|].eventId))])
  }

  lemma {:induction false} RunGrows(a: seq<Call>, b: seq<Call>)
    ensures |Run(a)| <= |Run(a + b)|
  {
    RunConcat(a, b);
    if b != [] { RunGrows(a, Init(b)); }
  }

  /** No other end of the loop leaves such a ledger. */
  lemma OnlyBlockedIsRefused(
      end: LoopEnd, candidates: seq<string>, budget: Option<BudgetConfig>, turns: seq<Turn>, past: seq<Call>,
      attempts: seq<Attempt>)
    requires |turns| == |candidates| && |attempts| <= |candidates| &&
      EndedBy(end, candidates, budget, turns, past, attempts)
    ensures RefusedNext(Run(TraceAfter(end, budget, turns, past, attempts)), candidates, budget, turns, past, attempts)
      <==> end.BudgetBlocked?
  {
    if budget.Some? && |attempts| < |candidates| && !end.BudgetBlocked? && !end.LedgerError? {
      var trace, turn := TraceOf(past, budget.value, turns, attempts), turns[|attempts|];
      var q := budget.value.Query(turn.eventId);
      RunGrows(trace, turn.before);
      RunConcat(trace + turn.before, [Reserve(q)]);
      assert trace + turn.before + Init([Reserve(q)]) == trace + turn.before;
    }
  }

  /** The whole run after argument checking: the loop, then the exit code. */
  method RunAgent(
      candidates: seq<string>, budget: Option<BudgetConfig>, ledger: TokenBudgetLedger, turns: seq<Turn>,
      eventFailed: bool, ghost past: seq<Call>)
    returns (attempts: seq<Attempt>, end: LoopEnd, code: int)
    requires |turns| == |candidates|
    requires budget.Some? ==> budget.value.Checked()
    requires ledger.rows == Run(past)
    modifies ledger
    ensures EndedBy(end, candidates, budget, turns, past, attempts)
    ensures LeavesTrace(ledger.rows, end, budget, turns, past, attempts)
    // the attempts went to the first candidates, in order, each with time left, and left what their providers did
    ensures |attempts| <= |candidates|
    ensures forall i :: 0 <= i < |attempts| ==>
      && attempts[i].provider == candidates[i] && attempts[i].eventId == turns[i].eventId
      && attempts[i].outcome == turns[i].outcome && turns[i].secondsLeft >= 1
    ensures code == 2 <==> candidates == []
    // the run succeeds exactly when the last attempt delivered a result that kept its contract, and was reported
    ensures code == 0 <==>
      && attempts != []
      && Last(attempts).outcome.rc == 0 && !Last(attempts).outcome.timedOut
      && Last(attempts).outcome.produced && Last(attempts).outcome.contractHolds
      && !eventFailed
    // only transient failures that left no result at return code zero are retried
    ensures forall i :: 0 <= i < |attempts| - 1 ==>
      && !(attempts[i].outcome.rc == 0 && attempts[i].outcome.produced)
      && attempts[i].outcome.errorClass in {TransientTimeout, TransientQuota, TransientUnavailable, TransientAuth}
    // and they are retried as long as there is a candidate, time, and room in the budget
    ensures
      && (attempts == [] ||
          (&& !(Last(attempts).outcome.rc == 0 && Last(attempts).outcome.produced)
           && Last(attempts).outcome.errorClass in
              {TransientTimeout, TransientQuota, TransientUnavailable, TransientAuth}))
      && |attempts| < |candidates| && turns[|attempts|].secondsLeft >= 1 ==>
      && budget.Some?
      && (ValidRequest(budget.value.Query(turns[|attempts|].eventId)) ==>
            !DecisionFor(Run(TraceBefore(past, budget.value, turns, attempts)),
                         budget.value.Query(turns[|attempts|].eventId)).Allowed())
    ensures code == 75 <==> RefusedNext(ledger.rows, candidates, budget, turns, past, attempts)
    ensures code == 75 ==> |attempts| < |candidates| && turns[|attempts|].secondsLeft >= 1 && budget.Some?
    ensures code in {0, 1, 2, 75}
    // in a budgeted run a fallback follows free codex attempts only
    ensures budget.Some? && WellDriven(TraceOf(past, budget.value, turns, attempts)) ==>
      forall i :: 0 <= i < |attempts| - 1 ==>
      && attempts[i].charged == 0 && attempts[i].provider == "codex" && attempts[i].outcome.usage.reported
      && attempts[i].outcome.usage.total.Some? && attempts[i].outcome.usage.total.value > 0
      && attempts[i].outcome.usage.cached == attempts[i].outcome.usage.total
    // a candidate that is reached is launched exactly when there is room for it
    ensures budget.Some? ==> LaunchedWhereRoom(budget.value, turns, past, attempts)
  {
    if candidates == [] {
      return [], Exhausted, 2;
    }
    attempts, end := AttemptLoop(candidates, budget, ledger, turns, past);
    var selected := if end.Selected? then Some(attempts[|attempts| - 1]) else None;
    OnlyBlockedIsRefused(end, candidates, budget, turns, past, attempts);
    EndInRawFields(end, candidates, budget, turns, past, attempts);
    code := if selected.Some? && !eventFailed then 0 else if end.BudgetBlocked? then 75 else 1;
    if budget.Some? && WellDriven(TraceOf(past, budget.value, turns, attempts)) {
      FallbackOnlyAfterFreeCodex(past, budget.value, turns, attempts);
    }
    if budget.Some? { EachLaunchedExactly(end, candidates, budget.value, turns, past, attempts); }
  }
}
