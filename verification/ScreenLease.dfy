/** The single-use screen lease of screen_control.py: one state file, one audit log, many controllers. */
module ScreenLease {
  import opened Basics

  const MIN_SECONDS := 60
  const MAX_SECONDS := 900

  /** state.json; a missing or malformed file reads as Protected. */
  datatype Stored =
    | Protected
    | Approved(approvalId: nat, loopId: string, expires: real)
    | Running(approvalId: nat, loopId: string, expires: real, runId: nat)

  datatype EndEvent = Completed | Failed | Revoked | Expired

  datatype Audit =
    | ApprovedRow(loopId: string, approvalId: nat, at: real, expires: real)
    | RevokedRow(previous: Option<string>)
    | StartedRow(loopId: string, approvalId: nat, runId: nat, at: real)
    | EndedRow(runId: nat, event: EndEvent, code: int)

  datatype Files = Files(stored: Stored, audit: seq<Audit>)

  datatype LeaseError = InvalidLoopId | InvalidSeconds | AlreadyRunning | OtherLoop | NoCommand | NoLiveApproval

  predicate LowerOrDigit(c: char) { 'a' <= c <= 'z' || '0' <= c <= '9' }

  predicate ValidLoopId(s: string)
  {
    s != "" && LowerOrDigit(s[0]) && forall i :: 0 <= i < |s| ==> LowerOrDigit(s[i]) || s[i] == '-'
  }

  /** Loop ids by code point: digits, small letters and hyphens, without a hyphen in front. */
  lemma LoopIdsByCodePoint(s: string)
    ensures ValidLoopId(s) <==>
      && |s| > 0 && s[0] as int != 0x2D
      && forall i :: 0 <= i < |s| ==>
           0x30 <= s[i] as int <= 0x39 || 0x61 <= s[i] as int <= 0x7A || s[i] as int == 0x2D
  {
    assert '-' as int == 0x2D;
  }

  function LoopOf(s: Stored): Option<string> { if s.Protected? then None else Some(s.loopId) }

  // ---------------------------------------------------------------- the locked transitions

  function Approve(
      f: Files, loopId: string, seconds: int, now: real, controllerAlive: bool, id: nat): Result<Files, LeaseError>
  {
    if !ValidLoopId(loopId) then Err(InvalidLoopId)
    else if !(MIN_SECONDS <= seconds <= MAX_SECONDS) then Err(InvalidSeconds)
    else if f.stored.Running? && controllerAlive then Err(AlreadyRunning)
    else
      var expires := now + seconds as real;
      Ok(Files(Approved(id, loopId, expires), f.audit + [ApprovedRow(loopId, id, now, expires)]))
  }

  function Revoke(f: Files, loopId: Option<string>): Result<Files, LeaseError>
  {
    if loopId.Some? && LoopOf(f.stored).Some? && LoopOf(f.stored) != loopId then Err(OtherLoop)
    else Ok(Files(Protected, f.audit + [RevokedRow(LoopOf(f.stored))]))
  }

  predicate Startable(s: Stored, loopId: string, now: real)
  {
    s.Approved? && s.loopId == loopId && s.expires > now
  }

  function Start(f: Files, loopId: string, command: seq<string>, now: real, runId: nat): Result<Files, LeaseError>
  {
    if !ValidLoopId(loopId) then Err(InvalidLoopId)
    else if command == [] then Err(NoCommand)
    else if !Startable(f.stored, loopId, now) then Err(NoLiveApproval)
    else Ok(Files(Running(f.stored.approvalId, loopId, f.stored.expires, runId),
                  f.audit + [StartedRow(loopId, f.stored.approvalId, runId, now)]))
  }

  predicate Owns(s: Stored, runId: nat) { s.Running? && s.runId == runId }

  function Finish(f: Files, runId: nat, event: EndEvent, code: int): Files
  {
    Files(if Owns(f.stored, runId) then Protected else f.stored, f.audit + [EndedRow(runId, event, code)])
  }

  datatype Ending = Ending(event: EndEvent, code: int)

  /** One poll: None leaves the child running. */
  function PollVerdict(runId: nat, expires: real, exited: Option<int>, s: Stored, now: real): Option<Ending>
  {
    match exited
    case Some(code) =>
      var result := if code >= 0 then code else 128 - code;
      Some(Ending(if result == 0 then Completed else Failed, result))
    case None =>
      if !Owns(s, runId) then Some(Ending(Revoked, 75))
      else if now >= expires then Some(Ending(Expired, 124))
      else None
  }

  function Ceiling(x: real): int { -((-x).Floor) }

  function HandoffTimeout(expires: real, now: real): int { Min(MAX_SECONDS, Max(1, Ceiling(expires - now))) }

  /** The timeout passed to the child covers the rest of any lease of legal length. */
  lemma TimeoutCoversLease(expires: real, now: real)
    requires now < expires <= now + MAX_SECONDS as real
    ensures 1 <= HandoffTimeout(expires, now) <= MAX_SECONDS
    ensures expires - now <= HandoffTimeout(expires, now) as real < expires - now + 1.0
  {
    assert Ceiling(expires - now) as real < expires - now + 1.0;
  }

  class ScreenControl {
    var stored: Stored
    var audit: seq<Audit>

    function Contents(): Files reads this { Files(stored, audit) }

    constructor ()
      ensures Contents() == Files(Protected, [])
    {
      stored, audit := Protected, [];
    }

    method ApproveHandoff(
        loopId: string, seconds: int, now: real, controllerAlive: bool, id: nat)
      returns (r: Option<LeaseError>)
      modifies this
      ensures match Approve(old(Contents()), loopId, seconds, now, controllerAlive, id)
        case Ok(f) => r == None && Contents() == f
        case Err(e) => r == Some(e) && Contents() == old(Contents())
      // an approval lasts for the seconds asked for, at least a minute and at most a quarter of an hour
      ensures r == None <==>
        && ValidLoopId(loopId) && 60 <= seconds <= 900 && !(old(stored).Running? && controllerAlive)
      ensures r == None ==>
        && stored == Approved(id, loopId, now + seconds as real)
        && audit == old(audit) + [ApprovedRow(loopId, id, now, now + seconds as real)]
    {
      if !ValidLoopId(loopId) { return Some(InvalidLoopId); }
      if !(MIN_SECONDS <= seconds <= MAX_SECONDS) { return Some(InvalidSeconds); }
      if stored.Running? && controllerAlive { return Some(AlreadyRunning); }
      stored := Approved(id, loopId, now + seconds as real);
      audit := audit + [ApprovedRow(loopId, id, now, stored.expires)];
      return None;
    }

    method RevokeHandoff(loopId: Option<string>) returns (r: Option<LeaseError>)
      modifies this
      ensures match Revoke(old(Contents()), loopId)
        case Ok(f) => r == None && Contents() == f
        case Err(e) => r == Some(e) && Contents() == old(Contents())
      // only another loop's lease is left alone
      ensures r == None <==> old(stored).Protected? || loopId in {None, Some(old(stored).loopId)}
      ensures r == None ==>
        && stored == Protected
        && audit == old(audit) + [RevokedRow(if old(stored).Protected? then None else Some(old(stored).loopId))]
    {
      var previous := LoopOf(stored);
      if loopId.Some? && previous.Some? && previous != loopId { return Some(OtherLoop); }
      stored := Protected;
      audit := audit + [RevokedRow(previous)];
      return None;
    }

    method StartRun(loopId: string, command: seq<string>, now: real, runId: nat) returns (r: Option<LeaseError>)
      modifies this
      ensures match Start(old(Contents()), loopId, command, now, runId)
        case Ok(f) => r == None && Contents() == f
        case Err(e) => r == Some(e) && Contents() == old(Contents())
      // a run starts exactly on a live approval of its own loop, which it uses up
      ensures r == None <==>
        && ValidLoopId(loopId) && command != []
        && old(stored).Approved? && old(stored).loopId == loopId && now < old(stored).expires
      ensures r == None ==>
        && stored == Running(old(stored).approvalId, loopId, old(stored).expires, runId)
        && audit == old(audit) + [StartedRow(loopId, old(stored).approvalId, runId, now)]
    {
      if !ValidLoopId(loopId) { return Some(InvalidLoopId); }
      if command == [] { return Some(NoCommand); }
      if !(stored.Approved? && stored.loopId == loopId && stored.expires > now) { return Some(NoLiveApproval); }
      audit := audit + [StartedRow(loopId, stored.approvalId, runId, now)];
      stored := Running(stored.approvalId, loopId, stored.expires, runId);
      return None;
    }

    method FinishRun(runId: nat, ending: Ending)
      modifies this
      ensures Contents() == Finish(old(Contents()), runId, ending.event, ending.code)
      ensures stored == if old(stored).Running? && old(stored).runId == runId then Protected else old(stored)
      ensures audit == old(audit) + [EndedRow(runId, ending.event, ending.code)]
    {
      if stored.Running? && stored.runId == runId {
        stored := Protected;
      }
      audit := audit + [EndedRow(runId, ending.event, ending.code)];
    }
  }

  /** What one pass of the polling loop reads: the child's exit, the state file and the clock. */
  datatype Reading = Reading(exited: Option<int>, stored: Stored, now: real)

  /** The polling loop stops at the first reading that ends the run. */
  method PollLoop(runId: nat, expires: real, readings: seq<Reading>) returns (stop: nat, ending: Option<Ending>)
    ensures stop <= |readings| && (ending.None? <==> stop == |readings|)
    ensures forall i :: 0 <= i < stop ==>
      PollVerdict(runId, expires, readings[i].exited, readings[i].stored, readings[i].now).None?
    ensures ending.Some? ==>
      ending == PollVerdict(runId, expires, readings[stop].exited, readings[stop].stored, readings[stop].now)
    // up to there the child was running, under its own lease, before the lease expired
    ensures forall i :: 0 <= i < stop ==>
      && readings[i].exited.None? && readings[i].now < expires
      && readings[i].stored.Running? && readings[i].stored.runId == runId
    // an exit is reported with the shell's code for signals, then a lost lease, then an expired one
    ensures ending.Some? && readings[stop].exited.Some? ==>
      var code := readings[stop].exited.value;
      ending.value == Ending(if code == 0 then Completed else Failed, if code >= 0 then code else 128 - code)
    ensures ending.Some? && readings[stop].exited.None? ==>
      ending.value == if readings[stop].stored.Running? && readings[stop].stored.runId == runId
                      then Ending(Expired, 124) else Ending(Revoked, 75)
  {
    stop := 0;
    while stop < |readings|
      invariant 0 <= stop <= |readings|
      invariant forall i :: 0 <= i < stop ==>
        PollVerdict(runId, expires, readings[i].exited, readings[i].stored, readings[i].now).None?
    {
      var reading := readings[stop];
      if reading.exited.Some? {
        var code := reading.exited.value;
        var result := if code >= 0 then code else 128 - code;
        return stop, Some(Ending(if result == 0 then Completed else Failed, result));
      }
      if !reading.stored.Running? || reading.stored.runId != runId {
        return stop, Some(Ending(Revoked, 75));
      }
      if reading.now >= expires {
        return stop, Some(Ending(Expired, 124));
      }
      stop := stop + 1;
    }
    return stop, None;
  }
}

/** Every interleaving of the transitions and polls of any number of controllers. */
module ScreenLeaseLaws {
  import opened Basics
  import opened ScreenLease

  datatype Phase = Alive | Stopping(ending: Ending) | Done

  datatype Controller = Controller(expires: real, phase: Phase)

  /** `issued` holds the approval ids handed out so far; run ids are the keys of `controllers`. */
  datatype World = World(files: Files, controllers: map<nat, Controller>, issued: set<nat>)

  datatype Step =
    | DoApprove(loopId: string, seconds: int, now: real, controllerAlive: bool, id: nat)
    | DoRevoke(revoked: Option<string>)
    | DoStart(started: string, command: seq<string>, at: real, runId: nat)
    | DoPoll(polled: nat, exited: Option<int>, clock: real)
    | DoInterrupt(interrupted: nat, ending: Ending)
    | DoFinish(finished: nat)

  predicate InPhase(w: World, id: nat, phase: Phase) { id in w.controllers && w.controllers[id].phase == phase }

  /** Ids are fresh uuids; a step that is not possible leaves the world unchanged. */
  function Apply(w: World, step: Step): World
  {
    match step
    case DoApprove(loopId, seconds, now, controllerAlive, id) =>
      (match Approve(w.files, loopId, seconds, now, controllerAlive, id)
       case Ok(f) => if id in w.issued then w else World(f, w.controllers, w.issued + {id})
       case Err(_) => w)
    case DoRevoke(loopId) =>
      (match Revoke(w.files, loopId)
       case Ok(f) => w.(files := f)
       case Err(_) => w)
    case DoStart(loopId, command, now, runId) =>
      (match Start(w.files, loopId, command, now, runId)
       case Ok(f) => if runId in w.controllers then w
                     else
                       var started := Controller(w.files.stored.expires, Alive);
                       w.(files := f, controllers := w.controllers[runId := started])
       case Err(_) => w)
    case DoPoll(id, exited, now) =>
      if !InPhase(w, id, Alive) then w
      else (match PollVerdict(id, w.controllers[id].expires, exited, w.files.stored, now)
            case Some(ending) => w.(controllers := w.controllers[id := w.controllers[id].(phase := Stopping(ending))])
            case None => w)
    case DoInterrupt(id, ending) =>
      if !InPhase(w, id, Alive) then w
      else w.(controllers := w.controllers[id := w.controllers[id].(phase := Stopping(ending))])
    case DoFinish(id) =>
      if id in w.controllers && w.controllers[id].phase.Stopping? then
        var e := w.controllers[id].phase.ending;
        World(Finish(w.files, id, e.event, e.code), w.controllers[id := w.controllers[id].(phase := Done)], w.issued)
      else w
  }

  const INITIAL := World(Files(Protected, []), map[], {})

  function RunFrom(w: World, steps: seq<Step>): World
  {
    if steps == [] then w else Apply(RunFrom(w, steps[..|steps| - 1]), steps[|steps| - 1])
  }

  function StartsOf(audit: seq<Audit>, approvalId: nat): nat
  {
    if audit == [] then 0
    else StartsOf(audit[..|audit| - 1], approvalId) +
         (var row := audit[|audit| - 1]; if row.StartedRow? && row.approvalId == approvalId then 1 else 0)
  }

  function EndsOf(audit: seq<Audit>, runId: nat): nat
  {
    if audit == [] then 0
    else EndsOf(audit[..|audit| - 1], runId) +
         (var row := audit[|audit| - 1]; if row.EndedRow? && row.runId == runId then 1 else 0)
  }

  function RunsOf(audit: seq<Audit>, runId: nat): nat
  {
    if audit == [] then 0
    else RunsOf(audit[..|audit| - 1], runId) +
         (var row := audit[|audit| - 1]; if row.StartedRow? && row.runId == runId then 1 else 0)
  }

  lemma CountsWithRow(audit: seq<Audit>, row: Audit, id: nat)
    ensures StartsOf(audit + [row], id) ==
      StartsOf(audit, id) + (if row.StartedRow? && row.approvalId == id then 1 else 0)
    ensures EndsOf(audit + [row], id) == EndsOf(audit, id) + (if row.EndedRow? && row.runId == id then 1 else 0)
    ensures RunsOf(audit + [row], id) == RunsOf(audit, id) + (if row.StartedRow? && row.runId == id then 1 else 0)
  {
    assert (audit + [row])[..|audit + [row]| - 1] == audit;
  }

  /** Approvals start at most one run, runs are logged once at each end, and a stored run is still open. */
  ghost predicate Inv(w: World)
  {
    && (forall id :: StartsOf(w.files.audit, id) <= (if id in w.issued then 1 else 0))
    && (forall id :: RunsOf(w.files.audit, id) == (if id in w.controllers then 1 else 0))
    && (forall id :: EndsOf(w.files.audit, id) == (if InPhase(w, id, Done) then 1 else 0))
    && (w.files.stored.Approved? ==>
         w.files.stored.approvalId in w.issued && StartsOf(w.files.audit, w.files.stored.approvalId) == 0)
    && (w.files.stored.Running? ==>
         && w.files.stored.runId in w.controllers && !InPhase(w, w.files.stored.runId, Done)
         && w.controllers[w.files.stored.runId].expires == w.files.stored.expires)
  }

  lemma AllCountsWithRow(audit: seq<Audit>, row: Audit)
    ensures forall id ::
      StartsOf(audit + [row], id) == StartsOf(audit, id) + (if row.StartedRow? && row.approvalId == id then 1 else 0)
    ensures forall id ::
      EndsOf(audit + [row], id) == EndsOf(audit, id) + (if row.EndedRow? && row.runId == id then 1 else 0)
    ensures forall id ::
      RunsOf(audit + [row], id) == RunsOf(audit, id) + (if row.StartedRow? && row.runId == id then 1 else 0)
  {
    forall id ensures
      && StartsOf(audit + [row], id) == StartsOf(audit, id) + (if row.StartedRow? && row.approvalId == id then 1 else 0)
      && EndsOf(audit + [row], id) == EndsOf(audit, id) + (if row.EndedRow? && row.runId == id then 1 else 0)
      && RunsOf(audit + [row], id) == RunsOf(audit, id) + (if row.StartedRow? && row.runId == id then 1 else 0)
    {
      CountsWithRow(audit, row, id);
    }
  }

  lemma ApproveKeepsInv(w: World, step: Step)
    requires Inv(w) && step.DoApprove?
    ensures Inv(Apply(w, step))
  {
    AllCountsWithRow(w.files.audit, ApprovedRow(step.loopId, step.id, step.now, step.now + step.seconds as real));
  }

  lemma RevokeKeepsInv(w: World, step: Step)
    requires Inv(w) && step.DoRevoke?
    ensures Inv(Apply(w, step))
  {
    AllCountsWithRow(w.files.audit, RevokedRow(LoopOf(w.files.stored)));
  }

  lemma StartKeepsInv(w: World, step: Step)
    requires Inv(w) && step.DoStart?
    ensures Inv(Apply(w, step))
  {
    if w.files.stored.Approved? {
      AllCountsWithRow(w.files.audit, StartedRow(step.started, w.files.stored.approvalId, step.runId, step.at));
    }
  }

  lemma StopKeepsInv(w: World, id: nat, ending: Ending)
    requires Inv(w) && InPhase(w, id, Alive)
    ensures Inv(w.(controllers := w.controllers[id := w.controllers[id].(phase := Stopping(ending))]))
  {
  }

  lemma FinishKeepsInv(w: World, id: nat)
    requires Inv(w)
    ensures Inv(Apply(w, DoFinish(id)))
  {
    if id in w.controllers && w.controllers[id].phase.Stopping? {
      var e := w.controllers[id].phase.ending;
      AllCountsWithRow(w.files.audit, EndedRow(id, e.event, e.code));
    }
  }

  lemma StepKeepsInv(w: World, step: Step)
    requires Inv(w)
    ensures Inv(Apply(w, step))
  {
    match step {
      case DoApprove(_, _, _, _, _) => ApproveKeepsInv(w, step);
      case DoRevoke(_) => RevokeKeepsInv(w, step);
      case DoStart(_, _, _, _) => StartKeepsInv(w, step);
      case DoPoll(id, exited, now) =>
        if InPhase(w, id, Alive) {
          var verdict := PollVerdict(id, w.controllers[id].expires, exited, w.files.stored, now);
          if verdict.Some? { StopKeepsInv(w, id, verdict.value); }
        }
      case DoInterrupt(id, ending) => if InPhase(w, id, Alive) { StopKeepsInv(w, id, ending); }
      case DoFinish(id) => FinishKeepsInv(w, id);
    }
  }

  lemma {:induction false} RunKeepsInv(steps: seq<Step>)
    ensures Inv(RunFrom(INITIAL, steps))
  {
    if steps != [] {
      RunKeepsInv(steps[..|steps| - 1]);
      StepKeepsInv(RunFrom(INITIAL, steps[..|steps| - 1]), steps[|steps| - 1]);
    }
  }

  /** In every run: one start per approval at most, and exactly one terminal row per finished run. */
  lemma AuditIsExact(steps: seq<Step>, id: nat)
    ensures var w := RunFrom(INITIAL, steps);
      && StartsOf(w.files.audit, id) <= 1
      && RunsOf(w.files.audit, id) == (if id in w.controllers then 1 else 0)
      && EndsOf(w.files.audit, id) == (if InPhase(w, id, Done) then 1 else 0)
  {
    RunKeepsInv(steps);
  }

  /** A run that lost the stored lease never gets it back. */
  lemma {:induction false} LostLeaseStaysLost(w: World, id: nat, steps: seq<Step>)
    requires id in w.controllers && !Owns(w.files.stored, id)
    ensures id in RunFrom(w, steps).controllers && !Owns(RunFrom(w, steps).files.stored, id)
  {
    if steps != [] {
      LostLeaseStaysLost(w, id, steps[..|steps| - 1]);
    }
  }

  lemma {:induction false} RunInTwo(w: World, a: seq<Step>, b: seq<Step>)
    ensures RunFrom(w, a + b) == RunFrom(RunFrom(w, a), b)
  {
    if b == [] {
      assert a + b == a;
    } else {
      assert (a + b)[..|a + b| - 1] == a + b[..|b| - 1];
      RunInTwo(w, a, b[..|b| - 1]);
    }
  }

  /**
    A finishing run that clears the state file clears the very lease it wrote: at every moment since
    its start the file still held that lease.
   */
  lemma FinishClearsOnlyItsOwnLease(before: seq<Step>, start: Step, between: seq<Step>, id: nat, k: nat)
    requires start.DoStart? && start.runId == id
    requires var w := RunFrom(INITIAL, before); id !in w.controllers && id in Apply(w, start).controllers
    requires var w := RunFrom(INITIAL, before + [start] + between);
      Apply(w, DoFinish(id)).files.stored != w.files.stored
    requires k <= |between|
    ensures Owns(RunFrom(INITIAL, before + [start] + between[..k]).files.stored, id)
  {
    var begun := RunFrom(INITIAL, before + [start]);
    assert (before + [start])[..|before|] == before;
    assert between == between[..k] + between[k..];
    RunInTwo(INITIAL, before + [start], between);
    RunInTwo(INITIAL, before + [start], between[..k]);
    RunInTwo(begun, between[..k], between[k..]);
    var now := RunFrom(begun, between[..k]);
    if !Owns(now.files.stored, id) {
      ControllersStay(begun, between[..k], id);
      LostLeaseStaysLost(now, id, between[k..]);
    }
  }

  lemma {:induction false} ControllersStay(w: World, steps: seq<Step>, id: nat)
    requires id in w.controllers
    ensures id in RunFrom(w, steps).controllers
    ensures RunFrom(w, steps).controllers[id].expires == w.controllers[id].expires
  {
    if steps != [] { ControllersStay(w, steps[..|steps| - 1], id); }
  }

  /** A child left alive by a poll owned the stored, unexpired lease at that poll. */
  lemma SurvivorOwnsLiveLease(steps: seq<Step>, id: nat, exited: Option<int>, now: real)
    requires InPhase(RunFrom(INITIAL, steps), id, Alive)
    requires InPhase(Apply(RunFrom(INITIAL, steps), DoPoll(id, exited, now)), id, Alive)
    ensures var s := RunFrom(INITIAL, steps).files.stored; Owns(s, id) && now < s.expires
  {
    RunKeepsInv(steps);
  }

  ghost predicate OnlyPolls(steps: seq<Step>)
  {
    forall i :: 0 <= i < |steps| ==> steps[i].DoPoll?
  }

  lemma {:induction false} PollsOnlyStop(w: World, polls: seq<Step>, id: nat)
    requires OnlyPolls(polls)
    ensures RunFrom(w, polls).files == w.files
    ensures InPhase(RunFrom(w, polls), id, Alive) ==> InPhase(w, id, Alive)
    ensures InPhase(RunFrom(w, polls), id, Alive) ==>
      forall i :: 0 <= i < |polls| && polls[i].polled == id ==> Owns(w.files.stored, id)
  {
    if polls != [] {
      PollsOnlyStop(w, polls[..|polls| - 1], id);
      assert forall i :: 0 <= i < |polls| - 1 ==> polls[i] == polls[..|polls| - 1][i];
    }
  }

  /** A round of polls with no transition in between leaves at most one child alive: the stored run's. */
  lemma OneSurvivorPerRound(w: World, polls: seq<Step>, a: nat, b: nat)
    requires OnlyPolls(polls)
    requires forall id :: InPhase(w, id, Alive) ==> exists i :: 0 <= i < |polls| && polls[i].polled == id
    requires InPhase(RunFrom(w, polls), a, Alive) && InPhase(RunFrom(w, polls), b, Alive)
    ensures a == b && Owns(w.files.stored, a)
  {
    PollsOnlyStop(w, polls, a);
    PollsOnlyStop(w, polls, b);
  }

  // ---------------------------------------------------------------- every start has its approval

  /**
    Row i is an approval of this loop under this id, live at this clock, and nothing since then has revoked it or
    approved anything else.
   */
  predicate StandingApproval(audit: seq<Audit>, i: nat, loopId: string, approvalId: nat, expires: real)
  {
    && i < |audit| && audit[i].ApprovedRow?
    && audit[i].loopId == loopId && audit[i].approvalId == approvalId && audit[i].expires == expires
    && forall m :: i < m < |audit| ==> !audit[m].ApprovedRow? && !audit[m].RevokedRow?
  }

  ghost predicate StartApproved(audit: seq<Audit>, k: nat)
    requires k < |audit| && audit[k].StartedRow?
  {
    exists i, expires ::
      StandingApproval(audit[..k], i, audit[k].loopId, audit[k].approvalId, expires) && audit[k].at < expires
  }

  /** The stored lease goes back to its approval, and so does every start in the log. */
  ghost predicate Traced(f: Files)
  {
    && (!f.stored.Protected? ==>
         exists i :: StandingApproval(f.audit, i, f.stored.loopId, f.stored.approvalId, f.stored.expires))
    && (forall k :: 0 <= k < |f.audit| && f.audit[k].StartedRow? ==> StartApproved(f.audit, k))
    && (forall k :: 0 <= k < |f.audit| && f.audit[k].ApprovedRow? ==>
         f.audit[k].at + 60.0 <= f.audit[k].expires <= f.audit[k].at + 900.0)
  }

  /** A row of another kind leaves an approval standing. */
  lemma StillStanding(audit: seq<Audit>, row: Audit, i: nat, loopId: string, approvalId: nat, expires: real)
    requires StandingApproval(audit, i, loopId, approvalId, expires) && !row.ApprovedRow? && !row.RevokedRow?
    ensures StandingApproval(audit + [row], i, loopId, approvalId, expires)
  {
  }

  lemma OldStartsStayApproved(audit: seq<Audit>, row: Audit)
    requires forall k :: 0 <= k < |audit| && audit[k].StartedRow? ==> StartApproved(audit, k)
    ensures forall k :: 0 <= k < |audit| && (audit + [row])[k].StartedRow? ==> StartApproved(audit + [row], k)
  {
    forall k | 0 <= k < |audit| && (audit + [row])[k].StartedRow? ensures StartApproved(audit + [row], k) {
      assert (audit + [row])[..k] == audit[..k] && (audit + [row])[k] == audit[k];
    }
  }

  lemma StepKeepsTraced(w: World, step: Step)
    requires Traced(w.files)
    ensures Traced(Apply(w, step).files)
  {
    var f, f' := w.files, Apply(w, step).files;
    if f'.audit != f.audit {
      assert f'.audit[..|f.audit|] == f.audit;
      var row := f'.audit[|f.audit|];
      assert f'.audit == f.audit + [row];
      OldStartsStayApproved(f.audit, row);
      if row.ApprovedRow? {
        assert StandingApproval(f'.audit, |f.audit|, row.loopId, row.approvalId, row.expires);
      } else if !f.stored.Protected? && !row.RevokedRow? {
        var i :| StandingApproval(f.audit, i, f.stored.loopId, f.stored.approvalId, f.stored.expires);
        StillStanding(f.audit, row, i, f.stored.loopId, f.stored.approvalId, f.stored.expires);
      }
    }
  }

  lemma {:induction false} RunIsTraced(steps: seq<Step>)
    ensures Traced(RunFrom(INITIAL, steps).files)
  {
    if steps != [] {
      RunIsTraced(steps[..|steps| - 1]);
      StepKeepsTraced(RunFrom(INITIAL, steps[..|steps| - 1]), steps[|steps| - 1]);
    }
  }

  /**
    Over every interleaving, each start in the log follows an approval of its own loop under the same id, before that
    approval expires, with no revocation and no other approval between the two.
   */
  lemma StartsFollowTheirApproval(steps: seq<Step>, k: nat) returns (i: nat)
    requires k < |RunFrom(INITIAL, steps).files.audit| && RunFrom(INITIAL, steps).files.audit[k].StartedRow?
    ensures var log := RunFrom(INITIAL, steps).files.audit;
      && i < k && log[i].ApprovedRow?
      && log[i].loopId == log[k].loopId && log[i].approvalId == log[k].approvalId
      && log[k].at < log[i].expires && 60.0 <= log[i].expires - log[i].at <= 900.0
      && forall m :: i < m < k ==> !log[m].ApprovedRow? && !log[m].RevokedRow?
  {
    RunIsTraced(steps);
    var log := RunFrom(INITIAL, steps).files.audit;
    assert StartApproved(log, k);
    ghost var j, expires :|
      StandingApproval(log[..k], j, log[k].loopId, log[k].approvalId, expires) && log[k].at < expires;
    i := j;
    assert log[..k][i] == log[i];
    forall m | i < m < k ensures !log[m].ApprovedRow? && !log[m].RevokedRow? { assert log[..k][m] == log[m]; }
  }

  /** Each approval in the log was asked for, and lasts for the seconds asked for. */
  lemma {:induction false} ApprovalsWereAskedFor(steps: seq<Step>, i: nat) returns (j: nat)
    requires i < |RunFrom(INITIAL, steps).files.audit| && RunFrom(INITIAL, steps).files.audit[i].ApprovedRow?
    ensures var row := RunFrom(INITIAL, steps).files.audit[i];
      && j < |steps| && steps[j].DoApprove?
      && steps[j].loopId == row.loopId && steps[j].id == row.approvalId && steps[j].now == row.at
      && row.expires == row.at + steps[j].seconds as real
  {
    var before := steps[..|steps| - 1];
    if i < |RunFrom(INITIAL, before).files.audit| {
      AuditOnlyGrows(RunFrom(INITIAL, before), steps[|steps| - 1]);
      j := ApprovalsWereAskedFor(before, i);
    } else {
      j := |steps| - 1;
    }
  }

  lemma AuditOnlyGrows(w: World, step: Step)
    ensures w.files.audit <= Apply(w, step).files.audit && |Apply(w, step).files.audit| <= |w.files.audit| + 1
  {
  }

  /**
    A revocation that is not refused ends every run there is: whatever happens next, none of them owns the lease any
    more, and a poll of a child that has not exited stops it as revoked.
   */
  lemma RevocationEndsTheRun(steps: seq<Step>, loopId: Option<string>, more: seq<Step>, id: nat, now: real)
    requires id in RunFrom(INITIAL, steps).controllers
    requires var s := RunFrom(INITIAL, steps).files.stored; s.Protected? || loopId in {None, Some(s.loopId)}
    ensures var w := RunFrom(INITIAL, steps + [DoRevoke(loopId)] + more);
      && id in w.controllers
      && !(w.files.stored.Running? && w.files.stored.runId == id)
      && (w.controllers[id].phase == Alive ==>
           Apply(w, DoPoll(id, None, now)).controllers[id].phase == Stopping(Ending(Revoked, 75)))
  {
    var longer := steps + [DoRevoke(loopId)];
    assert longer[..|steps|] == steps;
    RunInTwo(INITIAL, longer, more);
    LostLeaseStaysLost(RunFrom(INITIAL, longer), id, more);
  }
}
