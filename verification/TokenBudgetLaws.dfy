/**
  What every run of the ledger keeps: recomputed totals equal running balances, totals stay
  within limit plus overshoot, and whole-pass reservations admit one nonzero charge per pass.
 */
module TokenBudgetLaws {
  import opened Basics
  import opened TokenBudget

  /** The ledger reached by a sequence of lock-atomic calls from any interleaving of runners. */
  function Run(calls: seq<Call>): seq<Row>
  {
    if calls == [] then [] else Step(Run(Init(calls)), Last(calls))
  }

  ghost predicate DistinctIds(calls: seq<Call>)
  {
    forall i, j :: 0 <= i < j < |calls| && calls[i].Reserve? && calls[j].Reserve? ==>
      calls[i].q.eventId != calls[j].q.eventId
  }

  ghost predicate SettledOnce(calls: seq<Call>)
  {
    forall i, j :: 0 <= i < j < |calls| && calls[i].Settle? && calls[j].Settle? ==>
      calls[i].eventId != calls[j].eventId
  }

  /** Event ids are distinct and each event is settled at most once. */
  ghost predicate WellDriven(calls: seq<Call>)
  {
    DistinctIds(calls) && SettledOnce(calls)
  }

  ghost predicate Asked(calls: seq<Call>, id: string)
  {
    exists i :: 0 <= i < |calls| && calls[i].Reserve? && calls[i].q.eventId == id
  }

  ghost predicate Finished(calls: seq<Call>, id: string)
  {
    exists i :: 0 <= i < |calls| && calls[i].Settle? && calls[i].eventId == id
  }

  /** No two allowed reservations share an id, and only reserved events are settled. */
  ghost predicate Sound(rows: seq<Row>)
  {
    && DistinctReservations(rows)
    && (forall id :: SettledCharge(rows, id).Some? ==>
         LastAllowed(rows, id).Some? && SettledCharge(rows, id).value >= 0)
    && (forall i :: 0 <= i < |rows| && rows[i].Reserved? ==> rows[i].r.tokens > 0 && Named(rows[i].r))
  }

  predicate Named(r: Reservation) { r.loop != "" && r.scopeId != "" && DailyScopeOf(r) != "" && r.day != "" }

  ghost predicate Unreserved(rows: seq<Row>, id: string)
  {
    forall i :: 0 <= i < |rows| && rows[i].Reserved? ==> rows[i].r.eventId != id
  }

  // ---------------------------------------------------------------- one call's effect on any sum

  lemma {:induction false} ChargesSameSettlements(rows: seq<Row>, all: seq<Row>, all': seq<Row>)
    requires forall id :: SettledCharge(all, id) == SettledCharge(all', id)
    ensures Charges(rows, all) == Charges(rows, all')
  {
    if rows != [] { ChargesSameSettlements(Init(rows), all, all'); }
  }

  lemma {:induction false} LastAllowedUnreserved(rows: seq<Row>, id: string)
    requires Unreserved(rows, id)
    ensures LastAllowed(rows, id).None?
  {
    if rows != [] { LastAllowedUnreserved(Init(rows), id); }
  }

  lemma {:induction false} LastAllowedIsRow(rows: seq<Row>, id: string)
    requires LastAllowed(rows, id).Some?
    ensures exists i :: 0 <= i < |rows| && rows[i] == Reserved(LastAllowed(rows, id).value)
    ensures LastAllowed(rows, id).value.eventId == id && LastAllowed(rows, id).value.Allowed()
  {
    if !(Last(rows).Reserved? && Last(rows).r.Allowed() && Last(rows).r.eventId == id) {
      LastAllowedIsRow(Init(rows), id);
      var i :| 0 <= i < |Init(rows)| && Init(rows)[i] == Reserved(LastAllowed(rows, id).value);
      assert rows[i] == Init(rows)[i];
    }
  }

  /** The weight one ledger row contributes, priced by the settlements in `all`. */
  function RowWeight(row: Row, all: seq<Row>, weight: Charge -> int): int
  {
    if row.Reserved? && row.r.Allowed() then weight(Charge(row.r, ChargeOf(all, row.r))) else 0
  }

  lemma SumByRow(p: seq<Row>, all: seq<Row>, weight: Charge -> int)
    requires p != []
    ensures Sum(Charges(p, all), weight) == Sum(Charges(Init(p), all), weight) + RowWeight(Last(p), all, weight)
  {
    var before := Charges(Init(p), all);
    if Last(p).Reserved? && Last(p).r.Allowed() {
      var c := Charge(Last(p).r, ChargeOf(all, Last(p).r));
      assert Init(before + [c]) == before;
    } else {
      assert before + [] == before;
    }
  }

  /** A reservation row adds its own weight, and nothing when it was blocked. */
  lemma ReservationAddsItsWeight(rows: seq<Row>, r: Reservation, weight: Charge -> int)
    requires Sound(rows) && Unreserved(rows, r.eventId)
    ensures var rows' := rows + [Reserved(r)];
      Sum(Charges(rows', rows'), weight) ==
      Sum(Charges(rows, rows), weight) + (if r.Allowed() then weight(Charge(r, r.tokens)) else 0)
  {
    var rows' := rows + [Reserved(r)];
    assert Init(rows') == rows;
    LastAllowedUnreserved(rows, r.eventId);
    ChargesSameSettlements(rows, rows', rows);
    SumByRow(rows', rows', weight);
  }

  /** A settlement, first or repeated, replaces the event's current weight by its actual weight. */
  lemma SettlementReplacesWeight(rows: seq<Row>, id: string, actual: int, weight: Charge -> int)
    requires Sound(rows) && LastAllowed(rows, id).Some?
    ensures var rows' := rows + [Settled(id, actual)]; var r := LastAllowed(rows, id).value;
      Sum(Charges(rows', rows'), weight) ==
      Sum(Charges(rows, rows), weight) + weight(Charge(r, actual)) - weight(Charge(r, ChargeOf(rows, r)))
  {
    var rows' := rows + [Settled(id, actual)];
    assert Init(rows') == rows;
    SumByRow(rows', rows', weight);
    ReplaceInPrefix(rows, rows, id, actual, weight);
  }

  /** What settling one event changes in the weight of one row. */
  lemma SettlementReprices(row: Row, rows: seq<Row>, id: string, actual: int, weight: Charge -> int)
    ensures RowWeight(row, rows + [Settled(id, actual)], weight) == RowWeight(row, rows, weight) +
      if row.Reserved? && row.r.Allowed() && row.r.eventId == id
      then weight(Charge(row.r, actual)) - weight(Charge(row.r, ChargeOf(rows, row.r))) else 0
  {
    assert Init(rows + [Settled(id, actual)]) == rows;
  }

  ghost predicate DistinctReservations(rows: seq<Row>)
  {
    forall i, j :: 0 <= i < j < |rows| && rows[i].Reserved? && rows[j].Reserved? ==>
      rows[i].r.eventId != rows[j].r.eventId
  }

  /** In a ledger without repeated ids, nothing before a reservation has its id. */
  lemma FirstOfItsId(p: seq<Row>, id: string)
    requires p != [] && DistinctReservations(p) && Last(p).Reserved? && Last(p).r.eventId == id
    ensures LastAllowed(Init(p), id).None?
  {
    LastAllowedUnreserved(Init(p), id);
  }

  lemma {:induction false} ReplaceInPrefix(p: seq<Row>, rows: seq<Row>, id: string, actual: int, weight: Charge -> int)
    requires DistinctReservations(p)
    ensures Sum(Charges(p, rows + [Settled(id, actual)]), weight) == Sum(Charges(p, rows), weight) +
      match LastAllowed(p, id)
        case None => 0
        case Some(r) => weight(Charge(r, actual)) - weight(Charge(r, ChargeOf(rows, r)))
  {
    if p != [] {
      ReplaceInPrefix(Init(p), rows, id, actual, weight);
      SumByRow(p, rows, weight);
      SumByRow(p, rows + [Settled(id, actual)], weight);
      SettlementReprices(Last(p), rows, id, actual, weight);
      if Last(p).Reserved? && Last(p).r.eventId == id { FirstOfItsId(p, id); }
    }
  }

  // ---------------------------------------------------------------- soundness of every run

  /** A sound ledger that does not know the id of a reservation yet. */
  ghost predicate Orderly(rows: seq<Row>, call: Call)
  {
    Sound(rows) && (call.Reserve? ==> Unreserved(rows, call.q.eventId))
  }

  lemma ReserveKeepsSound(rows: seq<Row>, q: Request)
    requires Orderly(rows, Reserve(q))
    ensures Sound(Step(rows, Reserve(q)))
  {
    if ValidRequest(q) {
      var rows' := Step(rows, Reserve(q));
      assert Init(rows') == rows;
      assert Named(DecisionFor(rows, q));
      forall id | SettledCharge(rows', id).Some?
        ensures LastAllowed(rows', id).Some? && SettledCharge(rows', id).value >= 0
      {
        assert SettledCharge(rows', id) == SettledCharge(rows, id);
      }
    }
  }

  lemma SettleKeepsSound(rows: seq<Row>, id: string, actual: int)
    requires Sound(rows)
    ensures Sound(Step(rows, Settle(id, actual)))
  {
    if Settles(rows, id, actual) { assert Init(Step(rows, Settle(id, actual))) == rows; }
  }

  lemma AskedLonger(calls: seq<Call>)
    requires calls != []
    ensures forall id :: Asked(calls, id) <==>
      Asked(Init(calls), id) || (Last(calls).Reserve? && Last(calls).q.eventId == id)
    ensures forall id :: Finished(calls, id) <==>
      Finished(Init(calls), id) || (Last(calls).Settle? && Last(calls).eventId == id)
  {
    assert calls[|calls| - 1] == Last(calls);
    assert forall i :: 0 <= i < |calls| - 1 ==> Init(calls)[i] == calls[i];
    forall id
      ensures Asked(calls, id) <==> Asked(Init(calls), id) || (Last(calls).Reserve? && Last(calls).q.eventId == id)
    {
      if Asked(Init(calls), id) {
        var i :| 0 <= i < |Init(calls)| && Init(calls)[i].Reserve? && Init(calls)[i].q.eventId == id;
        assert calls[i].Reserve?;
      }
    }
    forall id
      ensures Finished(calls, id) <==> Finished(Init(calls), id) || (Last(calls).Settle? && Last(calls).eventId == id)
    {
      if Finished(Init(calls), id) {
        var i :| 0 <= i < |Init(calls)| && Init(calls)[i].Settle? && Init(calls)[i].eventId == id;
        assert calls[i].Settle?;
      }
    }
  }

  lemma {:induction false} RunSound(calls: seq<Call>)
    requires DistinctIds(calls)
    ensures Sound(Run(calls))
    ensures forall i :: 0 <= i < |Run(calls)| && Run(calls)[i].Reserved? ==> Asked(calls, Run(calls)[i].r.eventId)
    ensures forall id :: SettledCharge(Run(calls), id).Some? ==> Finished(calls, id)
  {
    if calls != [] {
      var before, call := Init(calls), Last(calls);
      RunSound(before);
      AskedLonger(calls);
      var rows, rows' := Run(before), Run(calls);
      if call.Reserve? {
        NotAskedBefore(calls, rows);
        ReserveKeepsSound(rows, call.q);
      } else {
        SettleKeepsSound(rows, call.eventId, call.actual);
      }
      if rows' != rows { assert Init(rows') == rows; }
    }
  }

  lemma NotAskedBefore(calls: seq<Call>, rows: seq<Row>)
    requires calls != [] && DistinctIds(calls) && Last(calls).Reserve?
    requires forall i :: 0 <= i < |rows| && rows[i].Reserved? ==> Asked(Init(calls), rows[i].r.eventId)
    ensures Unreserved(rows, Last(calls).q.eventId)
  {
    forall i | 0 <= i < |rows| && rows[i].Reserved? ensures rows[i].r.eventId != Last(calls).q.eventId {
      var k :| 0 <= k < |Init(calls)| && Init(calls)[k].Reserve? && Init(calls)[k].q.eventId == rows[i].r.eventId;
      assert calls[k] == Init(calls)[k] && calls[|calls| - 1] == Last(calls);
    }
  }

  lemma NotFinishedBefore(calls: seq<Call>)
    requires calls != [] && WellDriven(calls) && Last(calls).Settle?
    ensures SettledCharge(Run(Init(calls)), Last(calls).eventId).None?
  {
    RunSound(Init(calls));
    forall k | 0 <= k < |Init(calls)| && Init(calls)[k].Settle?
      ensures Init(calls)[k].eventId != Last(calls).eventId
    {
      assert calls[k] == Init(calls)[k] && calls[|calls| - 1] == Last(calls);
    }
  }

  /** A sound ledger that has not seen the id of the next call in the same role. */
  ghost predicate Ready(rows: seq<Row>, call: Call)
  {
    Orderly(rows, call) && (call.Settle? ==> SettledCharge(rows, call.eventId).None?)
  }

  lemma RunIsOrderly(calls: seq<Call>)
    requires calls != [] && DistinctIds(calls)
    ensures Orderly(Run(Init(calls)), Last(calls))
  {
    RunSound(Init(calls));
    if Last(calls).Reserve? { NotAskedBefore(calls, Run(Init(calls))); }
  }

  lemma RunIsReady(calls: seq<Call>)
    requires calls != [] && WellDriven(calls)
    ensures Ready(Run(Init(calls)), Last(calls))
  {
    RunIsOrderly(calls);
    if Last(calls).Settle? { NotFinishedBefore(calls); }
  }

  predicate Settles(rows: seq<Row>, id: string, actual: int)
  {
    id != "" && actual >= 0 && LastAllowed(rows, id).Some?
  }

  /** A reservation adds its own weight; a settlement replaces the current by the actual weight. */
  function CallWeight(rows: seq<Row>, call: Call, weight: Charge -> int): int
  {
    match call
    case Reserve(q) =>
      var r := DecisionFor(rows, q);
      if ValidRequest(q) && r.Allowed() then weight(Charge(r, q.tokens)) else 0
    case Settle(id, actual) =>
      if !Settles(rows, id, actual) then 0
      else var r := LastAllowed(rows, id).value; weight(Charge(r, actual)) - weight(Charge(r, ChargeOf(rows, r)))
  }

  /** What one call does to the sum of any weight. */
  lemma CallChangesSum(rows: seq<Row>, call: Call, weight: Charge -> int)
    requires Orderly(rows, call)
    ensures var rows' := Step(rows, call);
      Sum(Charges(rows', rows'), weight) == Sum(Charges(rows, rows), weight) + CallWeight(rows, call, weight)
  {
    match call {
      case Reserve(q) =>
        if ValidRequest(q) { ReservationAddsItsWeight(rows, DecisionFor(rows, q), weight); }
      case Settle(id, actual) =>
        if Settles(rows, id, actual) { SettlementReplacesWeight(rows, id, actual, weight); }
    }
  }

  /** How far settlements went beyond their reservations in a pool. */
  function ExcessIn(pool: Pool): Charge -> int
  {
    (c: Charge) => if InPool(c.r, pool) then Max(0, c.tokens - c.r.tokens) else 0
  }

  function Overshoot(rows: seq<Row>, pool: Pool): int
  {
    Sum(Charges(rows, rows), ExcessIn(pool))
  }

  /** CallChangesSum for the tokens and the excess of one pool: a reservation. */
  lemma ReserveChangesPool(rows: seq<Row>, q: Request, pool: Pool)
    requires Ready(rows, Reserve(q))
    ensures var rows' := Step(rows, Reserve(q));
      && Overshoot(rows', pool) == Overshoot(rows, pool)
      && Consumed(rows', pool) == Consumed(rows, pool) +
         (if ValidRequest(q) && DecisionFor(rows, q).Allowed() && InPool(DecisionFor(rows, q), pool) then q.tokens
          else 0)
  {
    CallChangesSum(rows, Reserve(q), TokensIn(pool));
    CallChangesSum(rows, Reserve(q), ExcessIn(pool));
  }

  /** The same for a settlement. */
  lemma SettleChangesPool(rows: seq<Row>, id: string, actual: int, pool: Pool)
    requires Ready(rows, Settle(id, actual))
    ensures var rows' := Step(rows, Settle(id, actual));
      if !Settles(rows, id, actual) || !InPool(LastAllowed(rows, id).value, pool) then
        Consumed(rows', pool) == Consumed(rows, pool) && Overshoot(rows', pool) == Overshoot(rows, pool)
      else
        var tokens := LastAllowed(rows, id).value.tokens;
        && Consumed(rows', pool) == Consumed(rows, pool) + actual - tokens
        && Overshoot(rows', pool) == Overshoot(rows, pool) + Max(0, actual - tokens)
  {
    FirstSettlementChangesSum(rows, id, actual, TokensIn(pool));
    FirstSettlementChangesSum(rows, id, actual, ExcessIn(pool));
    if Settles(rows, id, actual) { SettlementWeights(LastAllowed(rows, id).value, actual, pool); }
  }

  /** A first settlement replaces the reserved weight. */
  lemma FirstSettlementChangesSum(rows: seq<Row>, id: string, actual: int, weight: Charge -> int)
    requires Ready(rows, Settle(id, actual))
    ensures var rows' := Step(rows, Settle(id, actual));
      Sum(Charges(rows', rows'), weight) == Sum(Charges(rows, rows), weight) +
      if !Settles(rows, id, actual) then 0
      else (var r := LastAllowed(rows, id).value; weight(Charge(r, actual)) - weight(Charge(r, r.tokens)))
  {
    CallChangesSum(rows, Settle(id, actual), weight);
    if Settles(rows, id, actual) { LastAllowedIsRow(rows, id); }
  }

  lemma SettlementWeights(r: Reservation, actual: int, pool: Pool)
    ensures TokensIn(pool)(Charge(r, actual)) - TokensIn(pool)(Charge(r, r.tokens)) ==
      if InPool(r, pool) then actual - r.tokens else 0
    ensures ExcessIn(pool)(Charge(r, actual)) - ExcessIn(pool)(Charge(r, r.tokens)) ==
      if InPool(r, pool) then Max(0, actual - r.tokens) else 0
  {
  }

  // ---------------------------------------------------------------- running balances

  /** Constant-time bookkeeping: open reservations and one balance per pool. */
  datatype Books = Books(open: map<string, Reservation>, balance: map<Pool, int>)

  function Post(balance: map<Pool, int>, r: Reservation, amount: int): map<Pool, int>
  {
    balance[PassPool(r) := GetOr(balance, PassPool(r), 0) + amount]
           [DailyPool(r) := GetOr(balance, DailyPool(r), 0) + amount]
  }

  function StepBooks(b: Books, call: Call): Books
  {
    match call
    case Reserve(q) =>
      var r := Decide(q, GetOr(b.balance, RequestPass(q), 0), GetOr(b.balance, RequestDaily(q), 0));
      if ValidRequest(q) && r.Allowed() then Books(b.open[q.eventId := r], Post(b.balance, r, q.tokens)) else b
    case Settle(id, actual) =>
      if id == "" || actual < 0 || id !in b.open then b
      else Books(b.open - {id}, Post(b.balance, b.open[id], actual - b.open[id].tokens))
  }

  function RunBooks(calls: seq<Call>): Books
  {
    if calls == [] then Books(map[], map[]) else StepBooks(RunBooks(Init(calls)), Last(calls))
  }

  ghost predicate Balanced(rows: seq<Row>, b: Books)
  {
    forall pool :: GetOr(b.balance, pool, 0) == Consumed(rows, pool)
  }

  /** The open reservations are the allowed, unsettled ones. */
  ghost predicate OpenExactly(rows: seq<Row>, b: Books)
  {
    && (forall id :: id in b.open <==> LastAllowed(rows, id).Some? && SettledCharge(rows, id).None?)
    && (forall id :: id in b.open ==> LastAllowed(rows, id) == Some(b.open[id]))
  }

  ghost predicate Matches(rows: seq<Row>, b: Books) { Balanced(rows, b) && OpenExactly(rows, b) }

  lemma ReserveBalances(rows: seq<Row>, q: Request, b: Books, pool: Pool)
    requires Ready(rows, Reserve(q)) && Balanced(rows, b)
    ensures GetOr(StepBooks(b, Reserve(q)).balance, pool, 0) == Consumed(Step(rows, Reserve(q)), pool)
  {
    assert GetOr(b.balance, RequestPass(q), 0) == Consumed(rows, RequestPass(q));
    assert GetOr(b.balance, RequestDaily(q), 0) == Consumed(rows, RequestDaily(q));
    ReserveChangesPool(rows, q, pool);
    PoolsOf(DecisionFor(rows, q), pool);
  }

  lemma SettleBalances(rows: seq<Row>, id: string, actual: int, b: Books, pool: Pool)
    requires Ready(rows, Settle(id, actual)) && Matches(rows, b)
    ensures GetOr(StepBooks(b, Settle(id, actual)).balance, pool, 0) == Consumed(Step(rows, Settle(id, actual)), pool)
  {
    assert id in b.open <==> LastAllowed(rows, id).Some?;
    if Settles(rows, id, actual) {
      SettleChangesPool(rows, id, actual, pool);
      PoolsOf(b.open[id], pool);
    }
  }

  lemma ReserveOpens(rows: seq<Row>, q: Request, b: Books)
    requires Ready(rows, Reserve(q)) && Matches(rows, b)
    ensures OpenExactly(Step(rows, Reserve(q)), StepBooks(b, Reserve(q)))
  {
    assert GetOr(b.balance, RequestPass(q), 0) == Consumed(rows, RequestPass(q));
    assert GetOr(b.balance, RequestDaily(q), 0) == Consumed(rows, RequestDaily(q));
    LastAllowedUnreserved(rows, q.eventId);
    if ValidRequest(q) { assert Init(Step(rows, Reserve(q))) == rows; }
  }

  lemma SettleCloses(rows: seq<Row>, id: string, actual: int, b: Books)
    requires OpenExactly(rows, b) && SettledCharge(rows, id).None?
    ensures OpenExactly(Step(rows, Settle(id, actual)), StepBooks(b, Settle(id, actual)))
  {
    if Settles(rows, id, actual) { assert Init(Step(rows, Settle(id, actual))) == rows; }
  }

  lemma StepMatches(rows: seq<Row>, call: Call, b: Books)
    requires Ready(rows, call) && Matches(rows, b)
    ensures Matches(Step(rows, call), StepBooks(b, call))
  {
    if call.Reserve? { ReserveOpens(rows, call.q, b); } else { SettleCloses(rows, call.eventId, call.actual, b); }
    forall pool ensures GetOr(StepBooks(b, call).balance, pool, 0) == Consumed(Step(rows, call), pool) {
      if call.Reserve? {
        ReserveBalances(rows, call.q, b, pool);
      } else {
        SettleBalances(rows, call.eventId, call.actual, b, pool);
      }
    }
  }

  /** Totals recomputed from the whole ledger are the running balances, pass and daily alike. */
  lemma {:induction false} RecomputedEqualsRunning(calls: seq<Call>)
    requires WellDriven(calls)
    ensures Matches(Run(calls), RunBooks(calls))
  {
    if calls != [] {
      RecomputedEqualsRunning(Init(calls));
      RunIsReady(calls);
      StepMatches(Run(Init(calls)), Last(calls), RunBooks(Init(calls)));
    }
  }

  lemma PoolsOf(r: Reservation, pool: Pool)
    ensures InPool(r, pool) <==> pool == PassPool(r) || pool == DailyPool(r)
  {
  }

  // ---------------------------------------------------------------- limits

  /** Every valid request on the pool stays under the same limit. */
  ghost predicate Limited(calls: seq<Call>, pool: Pool, limit: int)
  {
    forall i :: 0 <= i < |calls| && calls[i].Reserve? && ValidRequest(calls[i].q) ==>
      var q := calls[i].q;
      && (pool == RequestPass(q) ==> q.passLimit <= limit)
      && (pool == RequestDaily(q) ==> q.dailyLimit.Some? && q.dailyLimit.value <= limit)
  }

  ghost predicate WithinLimit(rows: seq<Row>, pool: Pool, limit: int)
  {
    0 <= Overshoot(rows, pool) && Consumed(rows, pool) <= limit + Overshoot(rows, pool)
  }

  lemma ReserveWithinLimit(rows: seq<Row>, q: Request, pool: Pool, limit: nat)
    requires Ready(rows, Reserve(q)) && WithinLimit(rows, pool, limit)
    requires ValidRequest(q) && pool == RequestPass(q) ==> q.passLimit <= limit
    requires ValidRequest(q) && pool == RequestDaily(q) ==> q.dailyLimit.Some? && q.dailyLimit.value <= limit
    ensures WithinLimit(Step(rows, Reserve(q)), pool, limit)
  {
    ReserveChangesPool(rows, q, pool);
    PoolsOf(DecisionFor(rows, q), pool);
  }

  lemma SettleWithinLimit(rows: seq<Row>, id: string, actual: int, pool: Pool, limit: nat)
    requires Ready(rows, Settle(id, actual)) && WithinLimit(rows, pool, limit)
    ensures WithinLimit(Step(rows, Settle(id, actual)), pool, limit)
  {
    SettleChangesPool(rows, id, actual, pool);
  }

  /** A pool never holds more than its limit plus what settlements went over their reservations. */
  lemma {:induction false} ConsumedWithinLimit(calls: seq<Call>, pool: Pool, limit: nat)
    requires WellDriven(calls) && Limited(calls, pool, limit)
    ensures WithinLimit(Run(calls), pool, limit)
  {
    if calls != [] {
      assert calls[|calls| - 1] == Last(calls);
      ConsumedWithinLimit(Init(calls), pool, limit);
      RunIsReady(calls);
      match Last(calls) {
        case Reserve(q) => ReserveWithinLimit(Run(Init(calls)), q, pool, limit);
        case Settle(id, actual) => SettleWithinLimit(Run(Init(calls)), id, actual, pool, limit);
      }
    }
  }

  // ---------------------------------------------------------------- whole-pass reservations

  function NonzeroIn(pool: Pool): Charge -> int
  {
    (c: Charge) => if InPool(c.r, pool) && c.tokens != 0 then 1 else 0
  }

  function NonzeroCharges(rows: seq<Row>, pool: Pool): int
  {
    Sum(Charges(rows, rows), NonzeroIn(pool))
  }

  /** Every reservation asks for its whole pass limit, whatever that limit is. */
  ghost predicate WholePass(calls: seq<Call>)
  {
    forall i :: 0 <= i < |calls| && calls[i].Reserve? ==> calls[i].q.tokens == calls[i].q.passLimit
  }

  /** Nonnegative charges: a sum of zero or less leaves no nonzero charge, and an empty count means zero. */
  lemma {:induction false} ZeroTotalMeansNoCharge(charges: seq<Charge>, pool: Pool)
    requires forall i :: 0 <= i < |charges| ==> charges[i].tokens >= 0
    ensures 0 <= Sum(charges, TokensIn(pool)) && 0 <= Sum(charges, NonzeroIn(pool))
    ensures Sum(charges, TokensIn(pool)) == 0 <==> Sum(charges, NonzeroIn(pool)) == 0
    ensures Sum(charges, TokensIn(pool)) == 0 ==>
      forall i :: 0 <= i < |charges| && InPool(charges[i].r, pool) ==> charges[i].tokens == 0
  {
    if charges != [] {
      ZeroTotalMeansNoCharge(Init(charges), pool);
      assert forall i :: 0 <= i < |charges| - 1 ==> charges[i] == Init(charges)[i];
    }
  }

  lemma {:induction false} ChargesNonnegative(rows: seq<Row>, all: seq<Row>)
    requires Sound(all)
    requires forall i :: 0 <= i < |rows| && rows[i].Reserved? ==> rows[i].r.tokens > 0
    ensures forall i :: 0 <= i < |Charges(rows, all)| ==> Charges(rows, all)[i].tokens >= 0
  {
    if rows != [] { ChargesNonnegative(Init(rows), all); }
  }

  /** In a sound ledger, the tokens and the nonzero charges of a pool vanish together. */
  lemma ZeroTogether(rows: seq<Row>, pool: Pool)
    requires Sound(rows)
    ensures 0 <= Consumed(rows, pool) && 0 <= NonzeroCharges(rows, pool)
    ensures Consumed(rows, pool) == 0 <==> NonzeroCharges(rows, pool) == 0
  {
    ChargesNonnegative(rows, rows);
    ZeroTotalMeansNoCharge(Charges(rows, rows), pool);
  }

  lemma ReserveKeepsOne(rows: seq<Row>, q: Request, pool: Pool)
    requires Orderly(rows, Reserve(q)) && q.tokens == q.passLimit && pool.Pass? && NonzeroCharges(rows, pool) <= 1
    ensures NonzeroCharges(Step(rows, Reserve(q)), pool) <= 1
  {
    CallChangesSum(rows, Reserve(q), NonzeroIn(pool));
    if ValidRequest(q) && InPool(DecisionFor(rows, q), pool) {
      PoolsOf(DecisionFor(rows, q), pool);
      ZeroTogether(rows, pool);
    }
  }

  /** A settlement that raises an event from zero: its charge is zero now and would be more. */
  predicate Raises(rows: seq<Row>, id: string, actual: int)
  {
    Settles(rows, id, actual) && actual > 0 && ChargeOf(rows, LastAllowed(rows, id).value) == 0
  }

  /** What a settlement does to the number of nonzero charges. */
  lemma SettleCounts(rows: seq<Row>, id: string, actual: int, pool: Pool)
    requires Sound(rows)
    ensures !Raises(rows, id, actual) ==>
      NonzeroCharges(Step(rows, Settle(id, actual)), pool) <= NonzeroCharges(rows, pool)
    ensures Raises(rows, id, actual) && InPool(LastAllowed(rows, id).value, pool) ==>
      NonzeroCharges(Step(rows, Settle(id, actual)), pool) == NonzeroCharges(rows, pool) + 1
  {
    CallChangesSum(rows, Settle(id, actual), NonzeroIn(pool));
  }

  /** No settlement raises an event from zero. */
  ghost predicate NeverRaises(calls: seq<Call>)
  {
    forall k :: 0 <= k < |calls| && calls[k].Settle? ==> !Raises(Run(calls[..k]), calls[k].eventId, calls[k].actual)
  }

  /** Repeated settlements keep the bound as long as none raises an event from zero. */
  lemma {:induction false} OneNonzeroWithoutRaises(calls: seq<Call>, pool: Pool)
    requires DistinctIds(calls) && WholePass(calls) && NeverRaises(calls) && pool.Pass?
    ensures 0 <= NonzeroCharges(Run(calls), pool) <= 1
  {
    RunSound(calls);
    ZeroTogether(Run(calls), pool);
    if calls != [] {
      var before := Init(calls);
      assert calls[|calls| - 1] == Last(calls);
      NeverRaisesStep(calls);
      OneNonzeroWithoutRaises(before, pool);
      RunIsOrderly(calls);
      match Last(calls) {
        case Reserve(q) => ReserveKeepsOne(Run(before), q, pool);
        case Settle(id, actual) => SettleCounts(Run(before), id, actual, pool);
      }
    }
  }

  lemma SettledOnceNeverRaises(calls: seq<Call>)
    requires WellDriven(calls)
    ensures NeverRaises(calls)
  {
    forall k | 0 <= k < |calls| && calls[k].Settle?
      ensures !Raises(Run(calls[..k]), calls[k].eventId, calls[k].actual)
    {
      var before := calls[..k + 1];
      assert WellDriven(before) && Init(before) == calls[..k] && Last(before) == calls[k];
      RunIsReady(before);
      if LastAllowed(Run(calls[..k]), calls[k].eventId).Some? { LastAllowedIsRow(Run(calls[..k]), calls[k].eventId); }
    }
  }

  /** At most one reservation of a pass ever carries a nonzero charge. */
  lemma OneNonzeroCharge(calls: seq<Call>, scopeId: string, owner: string, day: string)
    requires WellDriven(calls) && WholePass(calls)
    ensures 0 <= NonzeroCharges(Run(calls), Pass(scopeId, owner, day)) <= 1
  {
    SettledOnceNeverRaises(calls);
    OneNonzeroWithoutRaises(calls, Pass(scopeId, owner, day));
  }

  // ---------------------------------------------------------------- which settlements keep the bound

  /** A whole-pass reservation under an id that was not used before. */
  ghost predicate NewRequest(calls: seq<Call>, q: Request) { q.tokens == q.passLimit && !Asked(calls, q.eventId) }

  ghost predicate BoundHolds(rows: seq<Row>)
  {
    forall scopeId, owner, day :: NonzeroCharges(rows, Pass(scopeId, owner, day)) <= 1
  }

  /** One more reservation and then this settlement leave the bound intact, whatever is reserved. */
  ghost predicate KeepsBound(calls: seq<Call>, id: string, actual: int)
  {
    forall q | NewRequest(calls, q) :: BoundHolds(Run(calls + [Reserve(q), Settle(id, actual)]))
  }

  lemma TwoMoreCalls(calls: seq<Call>, a: Call, b: Call)
    ensures Run(calls + [a]) == Step(Run(calls), a)
    ensures Run(calls + [a, b]) == Step(Step(Run(calls), a), b)
  {
    assert Init(calls + [a]) == calls;
    assert Init(calls + [a, b]) == calls + [a];
  }

  lemma NewReservationKeepsRaise(rows: seq<Row>, q: Request, id: string, actual: int)
    requires Orderly(rows, Reserve(q))
    ensures Raises(Step(rows, Reserve(q)), id, actual) <==> Raises(rows, id, actual)
    ensures Raises(rows, id, actual) ==> LastAllowed(Step(rows, Reserve(q)), id) == LastAllowed(rows, id)
  {
    LastAllowedUnreserved(rows, q.eventId);
    if ValidRequest(q) { assert Init(Step(rows, Reserve(q))) == rows; }
  }

  lemma NewCallsAreDistinct(calls: seq<Call>, q: Request)
    requires DistinctIds(calls) && NewRequest(calls, q)
    ensures DistinctIds(calls + [Reserve(q)])
  {
    assert forall i :: 0 <= i < |calls| && calls[i].Reserve? ==> calls[i].q.eventId != q.eventId;
  }

  lemma QuietSettlementKeepsBound(calls: seq<Call>, q: Request, id: string, actual: int, pool: Pool)
    requires DistinctIds(calls) && WholePass(calls) && NeverRaises(calls) && NewRequest(calls, q) && pool.Pass?
    requires !Raises(Run(calls), id, actual)
    ensures NonzeroCharges(Run(calls + [Reserve(q), Settle(id, actual)]), pool) <= 1
  {
    var longer := calls + [Reserve(q)];
    NewCallsAreDistinct(calls, q);
    RunIsOrderly(longer);
    RunSound(longer);
    assert Init(longer) == calls && Last(longer) == Reserve(q);
    NewReservationKeepsRaise(Run(calls), q, id, actual);
    OneNonzeroWithoutRaises(calls, pool);
    ReserveKeepsOne(Run(calls), q, pool);
    TwoMoreCalls(calls, Reserve(q), Settle(id, actual));
    SettleCounts(Run(longer), id, actual, pool);
  }

  function LongestId(calls: seq<Call>): nat
  {
    if calls == [] then 0 else Max(LongestId(Init(calls)), if Last(calls).Reserve? then |Last(calls).q.eventId| else 0)
  }

  lemma {:induction false} LongestIdBounds(calls: seq<Call>, i: nat)
    requires i < |calls| && calls[i].Reserve?
    ensures |calls[i].q.eventId| <= LongestId(calls)
  {
    if i < |calls| - 1 { LongestIdBounds(Init(calls), i); }
  }

  lemma UnusedId(calls: seq<Call>) returns (id: string)
    ensures id != "" && !Asked(calls, id)
  {
    id := seq(LongestId(calls) + 1, _ => 'x');
    if Asked(calls, id) {
      var i :| 0 <= i < |calls| && calls[i].Reserve? && calls[i].q.eventId == id;
      LongestIdBounds(calls, i);
    }
  }

  /** Reserving one token of the same pass first, the raised event is the second nonzero charge. */
  lemma RaiseBreaksBound(calls: seq<Call>, id: string, actual: int) returns (q: Request)
    requires DistinctIds(calls) && Raises(Run(calls), id, actual)
    ensures NewRequest(calls, q) && !BoundHolds(Run(calls + [Reserve(q), Settle(id, actual)]))
  {
    var rows := Run(calls);
    RunSound(calls);
    LastAllowedIsRow(rows, id);
    var r := LastAllowed(rows, id).value;
    var pool := PassPool(r);
    var unused := UnusedId(calls);
    q := Request(unused, r.loop, r.scopeId, DailyScopeOf(r), r.day, 1, 1, None);
    NewCallsAreDistinct(calls, q);
    assert Init(calls + [Reserve(q)]) == calls && Last(calls + [Reserve(q)]) == Reserve(q);
    RunIsOrderly(calls + [Reserve(q)]);
    RunSound(calls + [Reserve(q)]);
    TwoMoreCalls(calls, Reserve(q), Settle(id, actual));
    NewReservationKeepsRaise(rows, q, id, actual);
    ReserveMakesOne(rows, q);
    SettleCounts(Run(calls + [Reserve(q)]), id, actual, pool);
    assert NonzeroCharges(Run(calls + [Reserve(q), Settle(id, actual)]), Pass(r.scopeId, DailyScopeOf(r), r.day)) >= 2;
  }

  /** After a request for one token without a daily limit, its pass holds a nonzero charge. */
  lemma ReserveMakesOne(rows: seq<Row>, q: Request)
    requires Orderly(rows, Reserve(q)) && ValidRequest(q) && q.tokens == q.passLimit == 1 && q.dailyLimit.None?
    ensures NonzeroCharges(Step(rows, Reserve(q)), RequestPass(q)) >= 1
  {
    CallChangesSum(rows, Reserve(q), NonzeroIn(RequestPass(q)));
    ZeroTogether(rows, RequestPass(q));
    PoolsOf(DecisionFor(rows, q), RequestPass(q));
  }

  /** Up to here unraised, the next settlement keeps the bound exactly when it does not raise. */
  lemma NextSettlementExactly(calls: seq<Call>, id: string, actual: int)
    requires DistinctIds(calls) && WholePass(calls) && NeverRaises(calls)
    ensures KeepsBound(calls, id, actual) <==> !Raises(Run(calls), id, actual)
  {
    if Raises(Run(calls), id, actual) {
      var q := RaiseBreaksBound(calls, id, actual);
    } else {
      forall q | NewRequest(calls, q) ensures BoundHolds(Run(calls + [Reserve(q), Settle(id, actual)])) {
        forall scopeId, owner, day
          ensures NonzeroCharges(Run(calls + [Reserve(q), Settle(id, actual)]), Pass(scopeId, owner, day)) <= 1
        {
          QuietSettlementKeepsBound(calls, q, id, actual, Pass(scopeId, owner, day));
        }
      }
    }
  }

  ghost predicate EverySettlementKeepsBound(calls: seq<Call>)
  {
    forall k :: 0 <= k < |calls| && calls[k].Settle? ==> KeepsBound(calls[..k], calls[k].eventId, calls[k].actual)
  }

  lemma NeverRaisesStep(calls: seq<Call>)
    requires calls != []
    ensures NeverRaises(calls) <==>
      NeverRaises(Init(calls)) &&
        (Last(calls).Settle? ==> !Raises(Run(Init(calls)), Last(calls).eventId, Last(calls).actual))
  {
    assert calls[|calls| - 1] == Last(calls) && calls[..|calls| - 1] == Init(calls);
    assert forall k :: 0 <= k < |calls| - 1 ==> Init(calls)[k] == calls[k] && Init(calls)[..k] == calls[..k];
  }

  lemma KeepsBoundStep(calls: seq<Call>)
    requires calls != []
    ensures EverySettlementKeepsBound(calls) <==>
      EverySettlementKeepsBound(Init(calls)) &&
        (Last(calls).Settle? ==> KeepsBound(Init(calls), Last(calls).eventId, Last(calls).actual))
  {
    assert calls[|calls| - 1] == Last(calls) && calls[..|calls| - 1] == Init(calls);
    assert forall k :: 0 <= k < |calls| - 1 ==> Init(calls)[k] == calls[k] && Init(calls)[..k] == calls[..k];
  }

  /** Over a whole history, every settlement keeps the bound if and only if none raises an event from zero. */
  lemma {:induction false} SettlementsExactly(calls: seq<Call>)
    requires DistinctIds(calls) && WholePass(calls)
    ensures EverySettlementKeepsBound(calls) <==> NeverRaises(calls)
  {
    if calls != [] {
      assert DistinctIds(Init(calls)) && WholePass(Init(calls));
      SettlementsExactly(Init(calls));
      NeverRaisesStep(calls);
      KeepsBoundStep(calls);
      if NeverRaises(Init(calls)) && Last(calls).Settle? {
        NextSettlementExactly(Init(calls), Last(calls).eventId, Last(calls).actual);
      }
    }
  }

  /** A whole-pass reservation is allowed only when every earlier charge of the pass is zero. */
  lemma AllowedMeansAllZero(calls: seq<Call>, q: Request)
    requires DistinctIds(calls) && q.tokens == q.passLimit
    requires DecisionFor(Run(calls), q).Allowed()
    ensures var charges := Charges(Run(calls), Run(calls));
      forall i :: 0 <= i < |charges| && InPool(charges[i].r, RequestPass(q)) ==> charges[i].tokens == 0
  {
    RunSound(calls);
    ChargesNonnegative(Run(calls), Run(calls));
    ZeroTotalMeansNoCharge(Charges(Run(calls), Run(calls)), RequestPass(q));
  }

  /** No nonzero charge stands in the pass, and the day has room. */
  predicate Room(rows: seq<Row>, q: Request)
  {
    && NonzeroCharges(rows, RequestPass(q)) == 0
    && (q.dailyLimit.Some? ==> Consumed(rows, RequestDaily(q)) + q.tokens <= q.dailyLimit.value)
  }

  /** A whole-pass reservation is allowed exactly when there is room. */
  lemma AllowedExactly(calls: seq<Call>, q: Request)
    requires DistinctIds(calls) && q.tokens == q.passLimit
    ensures DecisionFor(Run(calls), q).Allowed() <==> Room(Run(calls), q)
  {
    RunSound(calls);
    ZeroTogether(Run(calls), RequestPass(q));
  }

  lemma {:induction false} ReservationIsCharged(rows: seq<Row>, all: seq<Row>, id: string)
    requires LastAllowed(rows, id).Some?
    ensures Charge(LastAllowed(rows, id).value, ChargeOf(all, LastAllowed(rows, id).value)) in Charges(rows, all)
  {
    if !(Last(rows).Reserved? && Last(rows).r.Allowed() && Last(rows).r.eventId == id) {
      ReservationIsCharged(Init(rows), all, id);
    }
  }

  /** A recorded charge was put there by a settlement of a reserved event. */
  lemma {:induction false} ChargeFromCall(calls: seq<Call>, id: string) returns (k: nat)
    requires SettledCharge(Run(calls), id).Some?
    ensures k < |calls| && calls[k] == Settle(id, SettledCharge(Run(calls), id).value)
    ensures LastAllowed(Run(calls[..k]), id).Some?
  {
    var rows, rows' := Run(Init(calls)), Run(calls);
    assert calls[..|calls| - 1] == Init(calls);
    if rows' != rows && Last(calls).Settle? && Last(calls).eventId == id {
      assert Init(rows') == rows;
      k := |calls| - 1;
    } else {
      if rows' != rows { assert Init(rows') == rows; }
      k := ChargeFromCall(Init(calls), id);
      assert calls[..k] == Init(calls)[..k];
    }
  }

  /** An event is reserved only after it was asked for. */
  lemma ReservedAfterAsked(calls: seq<Call>, reserved: nat, k: nat, id: string)
    requires DistinctIds(calls) && reserved < |calls| && k <= |calls|
    requires calls[reserved].Reserve? && calls[reserved].q.eventId == id && LastAllowed(Run(calls[..k]), id).Some?
    ensures reserved < k
  {
    RunSound(calls[..k]);
    LastAllowedIsRow(Run(calls[..k]), id);
    assert Asked(calls[..k], id);
    var i :| 0 <= i < k && calls[..k][i].Reserve? && calls[..k][i].q.eventId == id;
    assert calls[i] == calls[..k][i];
  }

  lemma {:induction false} ReservedForGood(calls: seq<Call>, reserved: nat, k: nat)
    requires DistinctIds(calls) && reserved < k <= |calls|
    requires calls[reserved].Reserve? && ValidRequest(calls[reserved].q)
    requires DecisionFor(Run(calls[..reserved]), calls[reserved].q).Allowed()
    ensures LastAllowed(Run(calls[..k]), calls[reserved].q.eventId) ==
      Some(DecisionFor(Run(calls[..reserved]), calls[reserved].q))
  {
    assert Init(calls[..k]) == calls[..k - 1] && Last(calls[..k]) == calls[k - 1];
    var rows, rows' := Run(calls[..k - 1]), Run(calls[..k]);
    if reserved < k - 1 { ReservedForGood(calls, reserved, k - 1); }
    if rows' != rows { assert Init(rows') == rows; }
  }

  /** Between two allowed whole-pass reservations of one pass, the first was settled at exactly zero. */
  lemma EarlierSettledAtZero(calls: seq<Call>, reserved: nat, next: nat) returns (k: nat)
    requires DistinctIds(calls) && reserved < next < |calls|
    requires calls[reserved].Reserve? && ValidRequest(calls[reserved].q)
    requires DecisionFor(Run(calls[..reserved]), calls[reserved].q).Allowed()
    requires calls[next].Reserve? && calls[next].q.tokens == calls[next].q.passLimit
    requires RequestPass(calls[next].q) == RequestPass(calls[reserved].q)
    requires DecisionFor(Run(calls[..next]), calls[next].q).Allowed()
    ensures reserved < k < next && calls[k] == Settle(calls[reserved].q.eventId, 0)
  {
    var before, id := calls[..next], calls[reserved].q.eventId;
    assert DistinctIds(before);
    ReservedForGood(calls, reserved, next);
    AllowedMeansAllZero(before, calls[next].q);
    ReservationIsCharged(Run(before), Run(before), id);
    RunSound(before);
    LastAllowedIsRow(Run(before), id);
    k := ChargeFromCall(before, id);
    assert before[..k] == calls[..k];
    ReservedAfterAsked(calls, reserved, k, id);
  }

  const FIRST := Reservation("a", "l", "s", Some("o"), "d", None, 5)
  const SECOND := Reservation("b", "l", "s", Some("o"), "d", None, 5)
  const LEDGER_1: seq<Row> := [Reserved(FIRST)]
  const LEDGER_2: seq<Row> := [Reserved(FIRST), Settled("a", 0)]
  const LEDGER_3: seq<Row> := [Reserved(FIRST), Settled("a", 0), Reserved(SECOND)]
  const LEDGER_4: seq<Row> := [Reserved(FIRST), Settled("a", 0), Reserved(SECOND), Settled("a", 3)]

  lemma LedgerPrefixes()
    ensures Init(LEDGER_1) == [] && Init(LEDGER_2) == LEDGER_1 && Init(LEDGER_3) == LEDGER_2 &&
      Init(LEDGER_4) == LEDGER_3
  {
  }

  lemma FreePassAfterZeroSettlement()
    ensures Consumed(LEDGER_2, Pass("s", "o", "d")) == 0
  {
    LedgerPrefixes();
    var w := TokensIn(Pass("s", "o", "d"));
    SumByRow(LEDGER_2, LEDGER_2, w);
    SumByRow(LEDGER_1, LEDGER_2, w);
  }

  lemma TwoNonzeroCharges()
    ensures NonzeroCharges(LEDGER_4, Pass("s", "o", "d")) == 2
  {
    LedgerPrefixes();
    var w := NonzeroIn(Pass("s", "o", "d"));
    assert SettledCharge(LEDGER_1, "b").None? && SettledCharge(LEDGER_2, "b").None? &&
      SettledCharge(LEDGER_3, "b").None?;
    assert SettledCharge(LEDGER_4, "b").None?;
    SumByRow(LEDGER_4, LEDGER_4, w);
    SumByRow(LEDGER_3, LEDGER_4, w);
    SumByRow(LEDGER_2, LEDGER_4, w);
    SumByRow(LEDGER_1, LEDGER_4, w);
  }

  function WholeRequest(id: string): Request { Request(id, "l", "s", "o", "d", 5, 5, None) }

  lemma LedgerSteps()
    ensures Step([], Reserve(WholeRequest("a"))) == LEDGER_1
    ensures Step(LEDGER_1, Settle("a", 0)) == LEDGER_2
    ensures Step(LEDGER_2, Reserve(WholeRequest("b"))) == LEDGER_3
    ensures Step(LEDGER_3, Settle("a", 3)) == LEDGER_4
  {
    LedgerPrefixes();
    FreePassAfterZeroSettlement();
    assert LastAllowed(LEDGER_1, "a").Some? && LastAllowed(LEDGER_2, "a").Some? && LastAllowed(LEDGER_3, "a").Some?;
  }

  lemma RunOfFour(a: Call, b: Call, c: Call, d: Call)
    ensures Run([a, b, c, d]) == Step(Step(Step(Step([], a), b), c), d)
  {
    assert Init([a, b, c, d]) == [a, b, c] && Init([a, b, c]) == [a, b] && Init([a, b]) == [a] && Init([a]) == [];
    assert Run([a]) == Step([], a);
    assert Run([a, b]) == Step(Run([a]), b);
    assert Run([a, b, c]) == Step(Run([a, b]), c);
  }

  /** A second settlement of one event, which the ledger accepts, breaks the bound. */
  lemma SecondSettlementBreaksTheBound(a: Call, b: Call, c: Call, d: Call)
    requires a == Reserve(WholeRequest("a")) && b == Settle("a", 0) && c == Reserve(WholeRequest("b")) &&
      d == Settle("a", 3)
    ensures WholePass([a, b, c, d]) && DistinctIds([a, b, c, d])
    ensures NonzeroCharges(Run([a, b, c, d]), Pass("s", "o", "d")) == 2
  {
    assert Run([a, b, c, d]) == LEDGER_4 by {
      LedgerSteps();
      RunOfFour(a, b, c, d);
    }
    TwoNonzeroCharges();
  }
}
