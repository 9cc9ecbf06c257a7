/** The rate limit on billed test calls (server.js). Times are in milliseconds. */
module TestCallLimit {

  const COOLDOWN := 10 * 60 * 1000
  const DAILY_MAX := 5
  const DAY := 24 * 3600 * 1000

  datatype Answer = Allowed | RetryAfter(seconds: int)

  /** The entries less than a day old. */
  function Recent(log: seq<int>, now: int): seq<int>
  {
    if log == [] then []
    else Recent(log[..|log| - 1], now) + (if now - log[|log| - 1] < DAY then [log[|log| - 1]] else [])
  }

  function CeilSeconds(ms: nat): nat { (ms + 999) / 1000 }

  function Answered(recent: seq<int>, now: int): Answer
  {
    if recent != [] && now - recent[|recent| - 1] < COOLDOWN then
      var left := COOLDOWN - (now - recent[|recent| - 1]);
      RetryAfter(CeilSeconds(left))
    else if |recent| >= DAILY_MAX then RetryAfter(3600)
    else Allowed
  }

  type Log = map<string, seq<int>>

  function EntriesOf(log: Log, uid: string): seq<int> { if uid in log then log[uid] else [] }

  /** What one request leaves in the log: only a call that is let through prunes it. */
  function NextLog(log: Log, uid: string, now: int): Log
  {
    var recent := Recent(EntriesOf(log, uid), now);
    if Answered(recent, now).Allowed? then log[uid := recent + [now]] else log
  }

  class Limiter {
    var log: Log

    constructor ()
      ensures log == map[]
    {
      log := map[];
    }

    method TestCallAllowed(uid: string, now: int) returns (answer: Answer)
      modifies this
      ensures answer == Answered(Recent(EntriesOf(old(log), uid), now), now)
      ensures log == NextLog(old(log), uid, now)
      // only a call that is let through changes the log: the user's entries of the last day, and this one
      ensures !answer.Allowed? ==> log == old(log)
      ensures answer.Allowed? ==>
        && log.Keys == old(log).Keys + {uid} && (forall u :: u in old(log) && u != uid ==> log[u] == old(log)[u])
        && log[uid] == Recent(if uid in old(log) then old(log)[uid] else [], now) + [now]
    {
      var entries := EntriesOf(log, uid);
      var recent: seq<int> := [];
      for i := 0 to |entries|
        invariant recent == Recent(entries[..i], now)
      {
        assert entries[..i + 1][..i] == entries[..i];
        if now - entries[i] < DAY {
          recent := recent + [entries[i]];
        }
      }
      assert entries[..|entries|] == entries;
      if recent != [] && now - recent[|recent| - 1] < COOLDOWN {
        var left := COOLDOWN - (now - recent[|recent| - 1]);
        return RetryAfter(CeilSeconds(left));
      }
      if |recent| >= DAILY_MAX {
        return RetryAfter(3600);
      }
      log := log[uid := recent + [now]];
      return Allowed;
    }
  }
}

/** The pruned log against the full history of allowed calls. */
module TestCallLaws {
  import opened TestCallLimit

  datatype Request = Request(uid: string, now: int)

  ghost predicate ClockMovesForward(requests: seq<Request>)
  {
    forall i, j :: 0 <= i < j < |requests| ==> requests[i].now <= requests[j].now
  }

  /** The limiter's log after a run of requests. */
  function LogAfter(requests: seq<Request>): Log
  {
    if requests == [] then map[]
    else
      var r := requests[|requests| - 1];
      NextLog(LogAfter(requests[..|requests| - 1]), r.uid, r.now)
  }

  /** Every call ever let through for one user, never pruned, by the plain rule below. */
  ghost function FullHistory(requests: seq<Request>, uid: string): seq<int>
  {
    if requests == [] then []
    else
      NextHistory(FullHistory(requests[..|requests| - 1], uid), requests[|requests| - 1], uid)
  }

  ghost function NextHistory(history: seq<int>, r: Request, uid: string): seq<int>
  {
    if r.uid == uid && Permitted(history, r.now) then history + [r.now] else history
  }

  /** A call is permitted when none was made in the last ten minutes and fewer than five within a day. */
  ghost predicate Permitted(history: seq<int>, now: int)
  {
    && (forall t :: t in history ==> now - t >= COOLDOWN)
    && CountWithin(history, now) < DAILY_MAX
  }

  function CountWithin(history: seq<int>, now: int): nat
  {
    if history == [] then 0
    else CountWithin(history[..|history| - 1], now) + (if now - history[|history| - 1] < DAY then 1 else 0)
  }

  ghost predicate Ascending(log: seq<int>)
  {
    forall i, j :: 0 <= i < j < |log| ==> log[i] <= log[j]
  }

  lemma {:induction false} RecentCounts(log: seq<int>, now: int)
    ensures |Recent(log, now)| == CountWithin(log, now)
  {
    if log != [] { RecentCounts(log[..|log| - 1], now); }
  }

  /** The recent entries are those less than 24 hours old. */
  lemma RecentByEntry(log: seq<int>, t: int, now: int)
    ensures Recent([], now) == []
    ensures Recent(log + [t], now) == if now - t < 86_400_000 then Recent(log, now) + [t] else Recent(log, now)
  {
    assert (log + [t])[..|log|] == log;
    assert Recent(log, now) + [] == Recent(log, now);
  }

  /** The entries from here on are those less than a day old. */
  ghost predicate DayFrom(log: seq<int>, now: int, cut: nat)
  {
    cut <= |log| && forall i :: 0 <= i < |log| ==> (now - log[i] < DAY <==> cut <= i)
  }

  lemma {:induction false} FirstOfDay(log: seq<int>, now: int) returns (cut: nat)
    requires Ascending(log)
    ensures DayFrom(log, now, cut)
  {
    cut := |log|;
    if log != [] && now - log[|log| - 1] < DAY {
      cut := FirstOfDay(log[..|log| - 1], now);
    }
  }

  lemma {:induction false} RecentFrom(log: seq<int>, now: int, cut: nat)
    requires DayFrom(log, now, cut)
    ensures Recent(log, now) == log[cut..]
  {
    if log != [] {
      var front, last := log[..|log| - 1], log[|log| - 1];
      assert log == front + [last];
      if cut < |log| {
        RecentFrom(front, now, cut);
      } else {
        RecentFrom(front, now, |front|);
      }
    }
  }

  /** In an ascending log, the recent entries are its tail. */
  lemma RecentIsTail(log: seq<int>, now: int) returns (cut: nat)
    requires Ascending(log)
    ensures cut <= |log| && Recent(log, now) == log[cut..]
    ensures forall i :: 0 <= i < |log| ==> (now - log[i] < DAY <==> cut <= i)
  {
    cut := FirstOfDay(log, now);
    RecentFrom(log, now, cut);
  }

  /** The answer from the recent entries is the plain rule on the whole history. */
  lemma AnswerIsRule(log: seq<int>, now: int)
    requires Ascending(log)
    ensures Answered(Recent(log, now), now).Allowed? <==> Permitted(log, now)
    // ten minutes since every call, and fewer than five in the last day; too many means an hour's wait
    ensures Answered(Recent(log, now), now).Allowed? <==>
      (forall t :: t in log ==> now - t >= 600_000) && |Recent(log, now)| < 5
    ensures !Answered(Recent(log, now), now).Allowed? && (forall t :: t in log ==> now - t >= 600_000) ==>
      Answered(Recent(log, now), now) == RetryAfter(3600)
  {
    var cut := RecentIsTail(log, now);
    RecentCounts(log, now);
    var recent := Recent(log, now);
    if recent != [] {
      assert recent[|recent| - 1] == log[|log| - 1];
      assert forall t :: t in log ==> t <= log[|log| - 1];
      assert log[|log| - 1] in log;
    } else {
      assert forall t :: t in log ==> now - t >= DAY;
    }
  }

  /** During the cooldown the answer is the least number of whole seconds that ends it. */
  lemma RetryAfterEndsTheCooldown(recent: seq<int>, now: int)
    requires recent != [] && recent[|recent| - 1] <= now < recent[|recent| - 1] + COOLDOWN
    ensures var answer := Answered(recent, now);
      && answer.RetryAfter? && answer.seconds > 0
      && now + 1000 * answer.seconds >= recent[|recent| - 1] + COOLDOWN > now + 1000 * (answer.seconds - 1)
  {
    var left: nat := COOLDOWN - (now - recent[|recent| - 1]);
    assert left <= 1000 * CeilSeconds(left) < left + 1000;
  }

  /** Pruning at an earlier moment loses nothing that a later moment needs. */
  lemma {:induction false} PruningIsMonotone(log: seq<int>, earlier: int, now: int)
    requires earlier <= now
    ensures Recent(Recent(log, earlier), now) == Recent(log, now)
  {
    if log != [] {
      var front, last := log[..|log| - 1], log[|log| - 1];
      PruningIsMonotone(front, earlier, now);
      RecentOfLonger(Recent(front, earlier), last, now);
      assert earlier - last >= DAY ==> Recent(log, earlier) == Recent(front, earlier);
    }
  }

  lemma RecentOfLonger(log: seq<int>, t: int, now: int)
    ensures Recent(log + [t], now) == Recent(log, now) + (if now - t < DAY then [t] else [])
  {
    assert (log + [t])[..|log|] == log;
  }

  ghost predicate Bounded(log: seq<int>, now: int) { Ascending(log) && forall i :: 0 <= i < |log| ==> log[i] <= now }

  /** Two logs hold the same entries of the last day, at every moment from `now` on. */
  ghost predicate SameView(entries: seq<int>, history: seq<int>, now: int)
  {
    forall later :: now <= later ==> Recent(entries, later) == Recent(history, later)
  }

  /** A call let through is added to both, and the pruned log still agrees at every later moment. */
  lemma AddedToBoth(log: seq<int>, history: seq<int>, at: int, later: int)
    requires at <= later && Recent(log, at) == Recent(history, at)
    ensures Recent(Recent(log, at) + [at], later) == Recent(history + [at], later)
  {
    PruningIsMonotone(history, at, later);
    RecentOfLonger(Recent(log, at), at, later);
    RecentOfLonger(history, at, later);
  }

  lemma CallKeepsView(entries: seq<int>, history: seq<int>, at: int, now: int)
    requires SameView(entries, history, at) && at <= now
    ensures SameView(Recent(entries, at) + [at], history + [at], now)
  {
    assert Recent(entries, at) == Recent(history, at);
    forall later | now <= later ensures Recent(Recent(entries, at) + [at], later) == Recent(history + [at], later) {
      AddedToBoth(entries, history, at, later);
    }
  }

  lemma RequestKeepsView(log: Log, history: seq<int>, r: Request, uid: string, now: int)
    requires SameView(EntriesOf(log, uid), history, r.now) && Bounded(history, r.now) && r.now <= now
    ensures SameView(EntriesOf(NextLog(log, r.uid, r.now), uid), NextHistory(history, r, uid), now)
  {
    var recent := Recent(EntriesOf(log, uid), r.now);
    assert recent == Recent(history, r.now);
    AnswerIsRule(history, r.now);
    if r.uid == uid && Permitted(history, r.now) {
      CallKeepsView(EntriesOf(log, uid), history, r.now, now);
    }
  }

  ghost predicate UpTo(requests: seq<Request>, now: int)
  {
    ClockMovesForward(requests) && forall i :: 0 <= i < |requests| ==> requests[i].now <= now
  }

  lemma {:induction false} HistoryBounded(requests: seq<Request>, uid: string, now: int)
    requires UpTo(requests, now)
    ensures Bounded(FullHistory(requests, uid), now)
  {
    if requests != [] {
      HistoryBounded(requests[..|requests| - 1], uid, requests[|requests| - 1].now);
    }
  }

  lemma {:induction false} LogAgrees(requests: seq<Request>, uid: string, now: int)
    requires UpTo(requests, now)
    ensures SameView(EntriesOf(LogAfter(requests), uid), FullHistory(requests, uid), now)
  {
    if requests == [] {
      assert EntriesOf(LogAfter(requests), uid) == FullHistory(requests, uid);
    } else {
      var before, r := requests[..|requests| - 1], requests[|requests| - 1];
      HistoryBounded(before, uid, r.now);
      LogAgrees(before, uid, r.now);
      RequestKeepsView(LogAfter(before), FullHistory(before, uid), r, uid, now);
    }
  }

  /** For a clock that never goes back, pruning changes no answer. */
  lemma PruningChangesNoAnswer(requests: seq<Request>, uid: string, now: int)
    requires UpTo(requests, now)
    ensures Answered(Recent(EntriesOf(LogAfter(requests), uid), now), now)
         == Answered(Recent(FullHistory(requests, uid), now), now)
    ensures Answered(Recent(EntriesOf(LogAfter(requests), uid), now), now).Allowed? <==>
      Permitted(FullHistory(requests, uid), now)
  {
    LogAgrees(requests, uid, now);
    HistoryBounded(requests, uid, now);
    AnswerIsRule(FullHistory(requests, uid), now);
  }

  /** Consecutive calls are ten minutes apart, and any six span a day. */
  ghost predicate Spaced(history: seq<int>)
  {
    && (forall i :: 0 <= i < |history| - 1 ==> history[i + 1] - history[i] >= COOLDOWN)
    && (forall i :: 0 <= i < |history| - DAILY_MAX ==> history[i + DAILY_MAX] - history[i] >= DAY)
  }

  lemma PermittedKeepsSpacing(history: seq<int>, now: int)
    requires Ascending(history) && Spaced(history) && Permitted(history, now)
    ensures Spaced(history + [now])
  {
    var longer := history + [now];
    if history != [] { assert history[|history| - 1] in history; }
    if |history| >= DAILY_MAX {
      var cut := RecentIsTail(history, now);
      RecentCounts(history, now);
      assert now - history[|history| - DAILY_MAX] >= DAY;
    }
  }

  /** How many of the calls fall in the day that starts at a given moment. */
  function InDay(history: seq<int>, start: int): nat
  {
    if history == [] then 0
    else InDay(history[..|history| - 1], start) + (if start <= history[|history| - 1] < start + DAY then 1 else 0)
  }

  lemma SixApart(history: seq<int>, i: nat, j: nat)
    requires Ascending(history) && Spaced(history) && i + DAILY_MAX <= j < |history|
    ensures history[j] - history[i] >= DAY
  {
    assert history[i + DAILY_MAX] <= history[j];
  }

  lemma AtMostFiveInADay(history: seq<int>, start: int)
    requires Ascending(history) && Spaced(history)
    ensures InDay(history, start) <= DAILY_MAX
  {
    var first, n := DayRun(history, start);
    if n > DAILY_MAX {
      SixApart(history, first, first + n - 1);
    }
  }

  /** The calls within one day are a run of consecutive entries. */
  lemma {:induction false} DayRun(history: seq<int>, start: int) returns (first: nat, n: nat)
    requires Ascending(history)
    ensures InDay(history, start) == n && first + n <= |history|
    ensures forall i :: first <= i < first + n ==> start <= history[i] < start + DAY
    ensures forall i :: first + n <= i < |history| ==> history[i] >= start + DAY
    ensures forall i :: 0 <= i < first ==> history[i] < start
  {
    if history == [] {
      return 0, 0;
    }
    var front, last := history[..|history| - 1], history[|history| - 1];
    assert forall i :: 0 <= i < |front| ==> front[i] == history[i] <= last;
    if last < start {
      NoneInDay(history, start);
      return |history|, 0;
    }
    first, n := DayRun(front, start);
    if last < start + DAY {
      n := n + 1;
    }
  }

  lemma {:induction false} NoneInDay(history: seq<int>, start: int)
    requires forall i :: 0 <= i < |history| ==> history[i] < start
    ensures InDay(history, start) == 0
  {
    if history != [] {
      NoneInDay(history[..|history| - 1], start);
    }
  }

  lemma {:induction false} HistorySpaced(requests: seq<Request>, uid: string)
    requires ClockMovesForward(requests)
    ensures Ascending(FullHistory(requests, uid)) && Spaced(FullHistory(requests, uid))
  {
    if requests != [] {
      var before, r := requests[..|requests| - 1], requests[|requests| - 1];
      HistorySpaced(before, uid);
      HistoryBounded(before, uid, r.now);
      var history := FullHistory(before, uid);
      if r.uid == uid && Permitted(history, r.now) {
        PermittedKeepsSpacing(history, r.now);
      }
    }
  }

  /** The calls the limiter let through for one user, by its own answers from its own pruned log. */
  function LetThrough(requests: seq<Request>, uid: string): seq<int>
  {
    if requests == [] then []
    else
      var before, r := requests[..|requests| - 1], requests[|requests| - 1];
      var answer := Answered(Recent(EntriesOf(LogAfter(before), r.uid), r.now), r.now);
      LetThrough(before, uid) + (if r.uid == uid && answer.Allowed? then [r.now] else [])
  }

  /** For a clock that never goes back, these are the calls the plain rule permits on the full history. */
  lemma {:induction false} LetThroughIsFullHistory(requests: seq<Request>, uid: string)
    requires ClockMovesForward(requests)
    ensures LetThrough(requests, uid) == FullHistory(requests, uid)
  {
    if requests != [] {
      var before, r := requests[..|requests| - 1], requests[|requests| - 1];
      LetThroughIsFullHistory(before, uid);
      if r.uid == uid {
        PruningChangesNoAnswer(before, uid, r.now);
      }
    }
  }

  /** No user's calls come closer than ten minutes, and no day-long window holds more than five. */
  lemma CallsAreBounded(requests: seq<Request>, uid: string, start: int)
    requires ClockMovesForward(requests)
    ensures Spaced(LetThrough(requests, uid)) && InDay(LetThrough(requests, uid), start) <= DAILY_MAX
    ensures var calls := LetThrough(requests, uid);
      && (forall i :: 0 <= i < |calls| - 1 ==> calls[i + 1] - calls[i] >= 10 * 60 * 1000)
      && (forall i :: 0 <= i < |calls| - 5 ==> calls[i + 5] - calls[i] >= 24 * 60 * 60 * 1000)
  {
    LetThroughIsFullHistory(requests, uid);
    HistorySpaced(requests, uid);
    AtMostFiveInADay(FullHistory(requests, uid), start);
  }
}
