/**
  The reservation ledger of token_budget.py: an append-only list of reservations and
  settlements.  Every call recomputes the consumed totals from the whole list.
 */
module TokenBudget {
  import opened Basics

  datatype Reason = PassExceeded | DailyExceeded

  datatype Reservation = Reservation(
    eventId: string,
    loop: string,
    scopeId: string,
    dailyScope: Option<string>,
    day: string,
    reason: Option<Reason>,
    tokens: int)
  {
    predicate Allowed() { reason.None? }
  }

  datatype Row =
    | Reserved(r: Reservation)
    | Settled(eventId: string, charged: int)
    | Foreign

  datatype Charge = Charge(r: Reservation, tokens: int)

  datatype Request = Request(
    eventId: string, loop: string, scopeId: string, dailyScope: string, day: string,
    tokens: int, passLimit: int, dailyLimit: Option<int>)

  datatype BudgetError = InvalidInput | NoAllowedReservation

  datatype Decision = Decision(row: Reservation, passConsumed: int, dailyConsumed: int)

  datatype Settlement = Settlement(passAfter: int, dailyAfter: int)

  /** The two pools one reservation draws on: its pass, and its owner's day. */
  datatype Pool =
    | Pass(scopeId: string, owner: string, day: string)
    | Daily(owner: string, day: string)

  /** Rows written before `daily_scope` existed belong to their loop. */
  function DailyScopeOf(r: Reservation): string
  {
    if r.dailyScope.Some? && r.dailyScope.value != "" then r.dailyScope.value else r.loop
  }

  /** A row without an owner of its own belongs to its loop's pools, and every row to those of its own day. */
  lemma PoolsOfRow(r: Reservation, pool: Pool)
    ensures InPool(r, pool) <==>
      && pool.day == r.day
      && pool.owner == (if r.dailyScope.None? || r.dailyScope.value == "" then r.loop else r.dailyScope.value)
      && (pool.Pass? ==> pool.scopeId == r.scopeId)
  {
    match pool {
      case Pass(_, _, _) =>
      case Daily(_, _) =>
    }
  }

  predicate InPool(r: Reservation, pool: Pool)
  {
    match pool
    case Pass(scopeId, owner, day) => r.scopeId == scopeId && DailyScopeOf(r) == owner && r.day == day
    case Daily(owner, day) => DailyScopeOf(r) == owner && r.day == day
  }

  function PassPool(r: Reservation): Pool { Pass(r.scopeId, DailyScopeOf(r), r.day) }

  function DailyPool(r: Reservation): Pool { Daily(DailyScopeOf(r), r.day) }

  // ---------------------------------------------------------------- recomputed charges

  function Init<T>(s: seq<T>): seq<T>
    requires s != []
  {
    s[..|s| - 1]
  }

  function Last<T>(s: seq<T>): T
    requires s != []
  {
    s[|s| - 1]
  }

  /** The last settlement of an event, as the settlement dictionary keeps it. */
  function SettledCharge(rows: seq<Row>, id: string): Option<int>
  {
    if rows == [] then None
    else if Last(rows).Settled? && Last(rows).eventId == id then Some(Last(rows).charged)
    else SettledCharge(Init(rows), id)
  }

  function ChargeOf(all: seq<Row>, r: Reservation): int
  {
    match SettledCharge(all, r.eventId)
    case Some(c) => c
    case None => r.tokens
  }

  /** The charge rows of the allowed reservations in `rows`, priced by the settlements in `all`. */
  function Charges(rows: seq<Row>, all: seq<Row>): seq<Charge>
  {
    if rows == [] then []
    else
      Charges(Init(rows), all) +
      (if Last(rows).Reserved? && Last(rows).r.Allowed()
       then [Charge(Last(rows).r, ChargeOf(all, Last(rows).r))] else [])
  }

  function Sum(charges: seq<Charge>, weight: Charge -> int): int
  {
    if charges == [] then 0 else Sum(Init(charges), weight) + weight(Last(charges))
  }

  function TokensIn(pool: Pool): Charge -> int
  {
    (c: Charge) => if InPool(c.r, pool) then c.tokens else 0
  }

  /** What a pool has consumed according to the whole ledger. */
  function Consumed(rows: seq<Row>, pool: Pool): int
  {
    Sum(Charges(rows, rows), TokensIn(pool))
  }

  /** The most recent allowed reservation of an event. */
  function LastAllowed(rows: seq<Row>, id: string): Option<Reservation>
  {
    if rows == [] then None
    else if Last(rows).Reserved? && Last(rows).r.Allowed() && Last(rows).r.eventId == id then Some(Last(rows).r)
    else LastAllowed(Init(rows), id)
  }

  // ---------------------------------------------------------------- the two calls

  predicate ValidRequest(q: Request)
  {
    && q.eventId != "" && q.loop != "" && q.scopeId != "" && q.dailyScope != "" && q.day != ""
    && q.tokens > 0 && q.passLimit > 0 && (q.dailyLimit.Some? ==> q.dailyLimit.value > 0)
  }

  function Decide(q: Request, passConsumed: int, dailyConsumed: int): Reservation
  {
    Reservation(q.eventId, q.loop, q.scopeId, Some(q.dailyScope), q.day,
                if passConsumed + q.tokens > q.passLimit then Some(PassExceeded)
                else if q.dailyLimit.Some? && dailyConsumed + q.tokens > q.dailyLimit.value then Some(DailyExceeded)
                else None,
                q.tokens)
  }

  function RequestPass(q: Request): Pool { Pass(q.scopeId, q.dailyScope, q.day) }

  function RequestDaily(q: Request): Pool { Daily(q.dailyScope, q.day) }

  function DecisionFor(rows: seq<Row>, q: Request): Reservation
  {
    Decide(q, Consumed(rows, RequestPass(q)), Consumed(rows, RequestDaily(q)))
  }

  datatype Call =
    | Reserve(q: Request)
    | Settle(eventId: string, actual: int)

  /** The ledger after one lock-atomic call; a rejected call leaves it unchanged. */
  function Step(rows: seq<Row>, call: Call): seq<Row>
  {
    match call
    case Reserve(q) => if ValidRequest(q) then rows + [Reserved(DecisionFor(rows, q))] else rows
    case Settle(id, actual) =>
      if id == "" || actual < 0 || LastAllowed(rows, id).None? then rows
      else rows + [Settled(id, actual)]
  }

  class TokenBudgetLedger {
    var rows: seq<Row>

    constructor ()
      ensures rows == []
    {
      rows := [];
    }

    method ComputeCharges() returns (charges: seq<Charge>)
      ensures charges == Charges(rows, rows)
    {
      var settlements: map<string, int> := map[];
      for i := 0 to |rows|
        invariant forall id :: id in settlements <==> SettledCharge(rows[..i], id).Some?
        invariant forall id :: id in settlements ==> SettledCharge(rows[..i], id) == Some(settlements[id])
      {
        assert Init(rows[..i + 1]) == rows[..i] && Last(rows[..i + 1]) == rows[i];
        if rows[i].Settled? {
          settlements := settlements[rows[i].eventId := rows[i].charged];
        }
      }
      assert rows[..|rows|] == rows;
      charges := [];
      for i := 0 to |rows|
        invariant charges == Charges(rows[..i], rows)
      {
        assert Init(rows[..i + 1]) == rows[..i] && Last(rows[..i + 1]) == rows[i];
        if rows[i].Reserved? && rows[i].r.Allowed() {
          var r := rows[i].r;
          charges := charges + [Charge(r, if r.eventId in settlements then settlements[r.eventId] else r.tokens)];
        }
      }
    }

    method SumPool(charges: seq<Charge>, pool: Pool) returns (sum: int)
      ensures sum == Sum(charges, TokensIn(pool))
    {
      sum := 0;
      for i := 0 to |charges|
        invariant sum == Sum(charges[..i], TokensIn(pool))
      {
        assert Init(charges[..i + 1]) == charges[..i] && Last(charges[..i + 1]) == charges[i];
        if InPool(charges[i].r, pool) {
          sum := sum + charges[i].tokens;
        }
      }
      assert charges[..|charges|] == charges;
    }

    method FindReservation(id: string) returns (found: Option<Reservation>)
      ensures found == LastAllowed(rows, id)
    {
      var i := |rows|;
      assert rows[..i] == rows;
      while i > 0
        invariant 0 <= i <= |rows|
        invariant LastAllowed(rows, id) == LastAllowed(rows[..i], id)
      {
        assert Init(rows[..i]) == rows[..i - 1] && Last(rows[..i]) == rows[i - 1];
        i := i - 1;
        if rows[i].Reserved? && rows[i].r.Allowed() && rows[i].r.eventId == id {
          return Some(rows[i].r);
        }
      }
      assert rows[..0] == [];
      return None;
    }

    method ReserveTokens(q: Request) returns (res: Result<Decision, BudgetError>)
      modifies this
      ensures rows == Step(old(rows), Reserve(q))
      ensures res.Err? <==> !ValidRequest(q)
      ensures res.Ok? ==>
        && res.value.passConsumed == Consumed(old(rows), RequestPass(q))
        && res.value.dailyConsumed == Consumed(old(rows), RequestDaily(q))
        && rows == old(rows) + [Reserved(res.value.row)]
        && (res.value.row.Allowed() <==>
            && res.value.passConsumed + q.tokens <= q.passLimit
            && (q.dailyLimit.Some? ==> res.value.dailyConsumed + q.tokens <= q.dailyLimit.value))
      // a request needs names and positive numbers; its row repeats it, and names the first pool without room
      ensures res.Ok? <==>
        && q.eventId != "" && q.loop != "" && q.scopeId != "" && q.dailyScope != "" && q.day != ""
        && q.tokens > 0 && q.passLimit > 0
        && (q.dailyLimit.Some? ==> q.dailyLimit.value > 0)
      ensures res.Ok? ==> res.value.row == Reservation(
        q.eventId, q.loop, q.scopeId, Some(q.dailyScope), q.day,
        if res.value.passConsumed + q.tokens > q.passLimit then Some(PassExceeded)
        else if q.dailyLimit.Some? && res.value.dailyConsumed + q.tokens > q.dailyLimit.value then Some(DailyExceeded)
        else None,
        q.tokens)
    {
      if !ValidRequest(q) {
        return Err(InvalidInput);
      }
      var charges := ComputeCharges();
      var passConsumed := SumPool(charges, RequestPass(q));
      var dailyConsumed := SumPool(charges, RequestDaily(q));
      var decision := Decide(q, passConsumed, dailyConsumed);
      rows := rows + [Reserved(decision)];
      return Ok(Decision(decision, passConsumed, dailyConsumed));
    }

    method SettleTokens(id: string, actual: int) returns (res: Result<Settlement, BudgetError>)
      modifies this
      ensures rows == Step(old(rows), Settle(id, actual))
      ensures res == (if id == "" || actual < 0 then Err(InvalidInput)
                      else match LastAllowed(old(rows), id)
                        case None => Err(NoAllowedReservation)
                        case Some(r) => Ok(Settlement(Consumed(rows, PassPool(r)), Consumed(rows, DailyPool(r)))))
      ensures rows == if res.Ok? then old(rows) + [Settled(id, actual)] else old(rows)
    {
      if id == "" || actual < 0 {
        return Err(InvalidInput);
      }
      var reservation := FindReservation(id);
      if reservation.None? {
        return Err(NoAllowedReservation);
      }
      rows := rows + [Settled(id, actual)];
      var charges := ComputeCharges();
      var passAfter := SumPool(charges, PassPool(reservation.value));
      var dailyAfter := SumPool(charges, DailyPool(reservation.value));
      return Ok(Settlement(passAfter, dailyAfter));
    }
  }
}
