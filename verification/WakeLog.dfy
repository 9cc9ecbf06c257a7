/** The wake-call claim table of scheduler.js: one row per (user, event start, level). */
module WakeLog {
  import opened Basics

  /** The event key joins the user, the event start and the level. */
  datatype Key = Key(uid: string, start: string, level: int)

  type Token = nat

  /** What a successful claim returns: its token, or no identity when the token column is missing. */
  datatype Credential = Tokened(token: Token) | Degraded

  type Rows = map<Key, Option<Token>>

  /** Insert under the unique constraint; without the column the insert is retried without a token. */
  function ClaimRow(rows: Rows, key: Key, token: Token, column: bool): (Rows, Option<Credential>)
  {
    if key in rows then (rows, None)
    else if column then (rows[key := Some(token)], Some(Tokened(token)))
    else (rows[key := None], Some(Degraded))
  }

  /** Delete conditional on the token, or unconditional for a claim without identity. */
  function ReleaseRow(rows: Rows, key: Key, cred: Credential): Rows
  {
    match cred
    case Tokened(token) => if key in rows && rows[key] == Some(token) then rows - {key} else rows
    case Degraded => rows - {key}
  }

  class WakeStore {
    const column: bool
    var rows: Rows

    constructor (column: bool)
      ensures this.column == column && rows == map[]
    {
      this.column := column;
      rows := map[];
    }

    method ClaimWake(key: Key, token: Token) returns (claim: Option<Credential>)
      modifies this
      ensures (rows, claim) == ClaimRow(old(rows), key, token, column)
      // a taken key is refused; a free one is taken, with the token where there is a column for it
      ensures claim.None? <==> key in old(rows)
      ensures rows == if key in old(rows) then old(rows) else old(rows)[key := if column then Some(token) else None]
      ensures claim.Some? ==> claim.value == if column then Tokened(token) else Degraded
    {
      if key in rows {
        return None;
      }
      if column {
        rows := rows[key := Some(token)];
        return Some(Tokened(token));
      }
      rows := rows[key := None];
      return Some(Degraded);
    }

    method ReleaseWake(key: Key, cred: Credential)
      modifies this
      ensures rows == ReleaseRow(old(rows), key, cred)
      // a claim with a token takes out only the row that carries it, one without takes out any row of the key
      ensures key in rows <==> key in old(rows) && cred.Tokened? && old(rows)[key] != Some(cred.token)
      ensures forall other :: other in old(rows) && (other != key || key in rows) ==>
        other in rows && rows[other] == old(rows)[other]
      ensures rows.Keys <= old(rows).Keys
    {
      if cred.Degraded? || (key in rows && rows[key] == Some(cred.token)) {
        rows := rows - {key};
      }
    }
  }
}

/**
  Every interleaving of abandoned ticks.  A claim belongs to one pass of one tick through the level
  loop; a tick that was abandoned simply keeps taking its steps later, or never again.
 */
module WakeClaims {
  import opened Basics
  import opened WakeLog

  datatype Phase = Dialing | Rang | Failed | Parked

  datatype Claim = Claim(key: Key, cred: Credential, phase: Phase)

  /** `owner` remembers which claim inserted each row, `delivered` which claims' releases have arrived. */
  datatype World = World(rows: Rows, claims: map<nat, Claim>, owner: map<Key, nat>, delivered: set<nat>)

  /** `Deliver` is a release reaching the store: late, repeated, or never. */
  datatype Step =
    | TryClaim(id: nat, key: Key, token: Token, dials: bool)
    | DialSucceeds(id: nat)
    | DialFails(id: nat)
    | Deliver(id: nat)

  /** Whether the token column existed when a claim was made; it may appear at any time. */
  type Deployment = nat -> bool

  predicate FreshToken(w: World, token: Token)
  {
    forall id :: id in w.claims && w.claims[id].cred.Tokened? ==> w.claims[id].cred.token != token
  }

  predicate InPhase(w: World, id: nat, phase: Phase) { id in w.claims && w.claims[id].phase == phase }

  /** Steps that are not possible in a world leave it unchanged. */
  function Apply(w: World, step: Step, column: Deployment): World
  {
    match step
    case TryClaim(id, key, token, dials) =>
      var (rows, claim) := ClaimRow(w.rows, key, token, column(id));
      if id in w.claims || claim.None? || !FreshToken(w, token) then w
      else
        var taken := Claim(key, claim.value, if dials then Dialing else Parked);
        World(rows, w.claims[id := taken], w.owner[key := id], w.delivered)
    case DialSucceeds(id) =>
      if InPhase(w, id, Dialing) then w.(claims := w.claims[id := w.claims[id].(phase := Rang)]) else w
    case DialFails(id) =>
      if InPhase(w, id, Dialing) then w.(claims := w.claims[id := w.claims[id].(phase := Failed)]) else w
    case Deliver(id) =>
      if InPhase(w, id, Failed)
      then w.(rows := ReleaseRow(w.rows, w.claims[id].key, w.claims[id].cred), delivered := w.delivered + {id}) else w
  }

  function Run(steps: seq<Step>, column: Deployment): World
  {
    if steps == [] then World(map[], map[], map[], {})
    else Apply(Run(steps[..|steps| - 1], column), steps[|steps| - 1], column)
  }

  predicate Active(c: Claim) { c.phase == Dialing || c.phase == Rang }

  /** For each key at most one claim is dialing or has rung: no two dials at once, no second ring. */
  ghost predicate RingsOnce(w: World)
  {
    forall i, j :: i in w.claims && j in w.claims && w.claims[i].key == w.claims[j].key ==>
      Active(w.claims[i]) && Active(w.claims[j]) ==> i == j
  }

  /** A step removes a row only as the release of the claim that inserted it. */
  ghost predicate RemovesOnlyOwn(w: World, step: Step, column: Deployment)
  {
    forall key :: key in w.rows && key !in Apply(w, step, column).rows ==>
      step.Deliver? && key in w.owner && w.owner[key] == step.id
  }

  /** The release of a claim without identity arrives for the first time. */
  predicate NoRepeat(w: World, step: Step)
  {
    step.Deliver? && InPhase(w, step.id, Failed) && w.claims[step.id].cred.Degraded? ==> step.id !in w.delivered
  }

  ghost predicate NoRepeats(steps: seq<Step>, column: Deployment)
  {
    forall k :: 0 <= k < |steps| ==> NoRepeat(Run(steps[..k], column), steps[k])
  }

  predicate Carries(row: Option<Token>, cred: Credential)
  {
    match cred
    case Tokened(token) => row == Some(token)
    case Degraded => row == None
  }

  /** Tokens identify claims, rows carry their owner's identity, and unreleased claims still own their row. */
  ghost predicate Inv(w: World)
  {
    && (forall i, j ::
         i in w.claims && j in w.claims && w.claims[i].cred.Tokened? && w.claims[i].cred == w.claims[j].cred ==> i == j)
    && (forall key :: key in w.rows ==>
         && key in w.owner && w.owner[key] in w.claims
         && w.claims[w.owner[key]].key == key && Carries(w.rows[key], w.claims[w.owner[key]].cred))
    && (forall i :: i in w.claims && Holding(w, i) ==> w.claims[i].key in w.rows && w.owner[w.claims[i].key] == i)
  }

  /** A claim that did not fail, or one without identity whose release has not arrived. */
  predicate Holding(w: World, id: nat)
    requires id in w.claims
  {
    w.claims[id].phase != Failed || (w.claims[id].cred.Degraded? && id !in w.delivered)
  }

  lemma ClaimKeepsInv(w: World, id: nat, key: Key, cred: Credential, phase: Phase, row: Option<Token>)
    requires Inv(w) && id !in w.claims && key !in w.rows && Carries(row, cred)
    requires cred.Tokened? ==> FreshToken(w, cred.token)
    ensures Inv(World(w.rows[key := row], w.claims[id := Claim(key, cred, phase)], w.owner[key := id], w.delivered))
  {
    assert forall i :: i in w.claims && Holding(w, i) ==> w.claims[i].key != key;
  }

  /** A conditional delete that finds its token removes the claim's own row. */
  lemma TokenedReleaseKeepsInv(w: World, id: nat)
    requires Inv(w) && InPhase(w, id, Failed) && w.claims[id].cred.Tokened?
    ensures
      var left := ReleaseRow(w.rows, w.claims[id].key, w.claims[id].cred);
      var w' := w.(rows := left, delivered := w.delivered + {id});
      Inv(w') && forall key :: key in w.rows && key !in w'.rows ==> w.owner[key] == id
  {
    var key, cred := w.claims[id].key, w.claims[id].cred;
    if key in w.rows && w.rows[key] == Some(cred.token) {
      assert w.claims[w.owner[key]].cred == cred;
    }
  }

  /** An unconditional delete that arrives for the first time removes the claim's own row. */
  lemma FirstReleaseKeepsInv(w: World, id: nat)
    requires Inv(w) && InPhase(w, id, Failed) && w.claims[id].cred.Degraded? && id !in w.delivered
    ensures
      var left := ReleaseRow(w.rows, w.claims[id].key, w.claims[id].cred);
      var w' := w.(rows := left, delivered := w.delivered + {id});
      Inv(w') && forall key :: key in w.rows && key !in w'.rows ==> w.owner[key] == id
  {
    assert Holding(w, id);
  }

  lemma DeliverKeepsInv(w: World, id: nat, column: Deployment)
    requires Inv(w) && NoRepeat(w, Deliver(id))
    ensures Inv(Apply(w, Deliver(id), column)) && RemovesOnlyOwn(w, Deliver(id), column)
  {
    if InPhase(w, id, Failed) {
      if w.claims[id].cred.Tokened? { TokenedReleaseKeepsInv(w, id); } else { FirstReleaseKeepsInv(w, id); }
    }
  }

  lemma TryClaimKeepsInv(w: World, id: nat, key: Key, token: Token, dials: bool, column: Deployment)
    requires Inv(w)
    ensures Inv(Apply(w, TryClaim(id, key, token, dials), column)) &&
      RemovesOnlyOwn(w, TryClaim(id, key, token, dials), column)
  {
    if id !in w.claims && key !in w.rows && FreshToken(w, token) {
      ClaimKeepsInv(w, id, key, if column(id) then Tokened(token) else Degraded, if dials then Dialing else Parked,
                    if column(id) then Some(token) else None);
    }
  }

  lemma DialKeepsInv(w: World, id: nat, phase: Phase)
    requires Inv(w) && InPhase(w, id, Dialing)
    ensures Inv(w.(claims := w.claims[id := w.claims[id].(phase := phase)]))
  {
  }

  lemma StepKeepsInv(w: World, step: Step, column: Deployment)
    requires Inv(w) && NoRepeat(w, step)
    ensures Inv(Apply(w, step, column)) && RemovesOnlyOwn(w, step, column)
  {
    match step {
      case TryClaim(id, key, token, dials) => TryClaimKeepsInv(w, id, key, token, dials, column);
      case Deliver(id) => DeliverKeepsInv(w, id, column);
      case DialSucceeds(id) => if InPhase(w, id, Dialing) { DialKeepsInv(w, id, Rang); }
      case DialFails(id) => if InPhase(w, id, Dialing) { DialKeepsInv(w, id, Failed); }
    }
  }

  lemma {:induction false} RunKeepsInv(steps: seq<Step>, column: Deployment)
    requires NoRepeats(steps, column)
    ensures Inv(Run(steps, column))
  {
    if steps != [] {
      var before := steps[..|steps| - 1];
      assert forall k :: 0 <= k < |before| ==> before[k] == steps[k] && before[..k] == steps[..k];
      assert NoRepeat(Run(steps[..|steps| - 1], column), steps[|steps| - 1]);
      RunKeepsInv(before, column);
      StepKeepsInv(Run(before, column), steps[|steps| - 1], column);
    }
  }

  /**
    Unless the release of a claim without identity is repeated, no interleaving rings twice or removes another's row.
   */
  lemma UnrepeatedReleasesAreSafe(steps: seq<Step>, next: Step, column: Deployment)
    requires NoRepeats(steps, column) && NoRepeat(Run(steps, column), next)
    ensures RingsOnce(Run(steps, column)) && RemovesOnlyOwn(Run(steps, column), next, column)
  {
    RunKeepsInv(steps, column);
    StepKeepsInv(Run(steps, column), next, column);
  }

  lemma {:induction false} TokenedClaims(steps: seq<Step>, column: Deployment)
    requires forall id :: column(id)
    ensures forall id :: id in Run(steps, column).claims ==> Run(steps, column).claims[id].cred.Tokened?
    ensures NoRepeats(steps, column)
  {
    if steps != [] {
      var before := steps[..|steps| - 1];
      TokenedClaims(before, column);
      forall k | 0 <= k < |steps| ensures NoRepeat(Run(steps[..k], column), steps[k]) {
        if k < |before| { assert before[..k] == steps[..k] && NoRepeat(Run(before[..k], column), before[k]); }
      }
    }
  }

  /** With tokens, no interleaving rings twice and no release ever removes another claim's row. */
  lemma TokensMakeRunsSafe(steps: seq<Step>, next: Step, column: Deployment)
    requires forall id :: column(id)
    ensures RingsOnce(Run(steps, column)) && RemovesOnlyOwn(Run(steps, column), next, column)
    // for each key at most one claim dials or has rung, and a row goes only with the release of the claim that set it
    ensures var w, w' := Run(steps, column), Apply(Run(steps, column), next, column);
      && (forall i, j ::
            && i in w.claims && j in w.claims && w.claims[i].key == w.claims[j].key
            && w.claims[i].phase in {Dialing, Rang} && w.claims[j].phase in {Dialing, Rang}
            ==> i == j)
      && (forall key :: key in w.rows && key !in w'.rows ==>
            next.Deliver? && key in w.owner && w.owner[key] == next.id)
  {
    TokenedClaims(steps, column);
    UnrepeatedReleasesAreSafe(steps, next, column);
  }

  /** A failed dial does not burn its slot: once its release is delivered, the key can be claimed again. */
  lemma ReleasedKeyIsClaimable(steps: seq<Step>, column: Deployment, id: nat, next: nat, token: Token)
    requires NoRepeats(steps, column)
    requires var w := Run(steps, column);
      InPhase(w, id, Failed) && next !in w.claims && FreshToken(w, token)
      && (w.claims[id].key in w.rows ==> w.claims[id].key in w.owner && w.owner[w.claims[id].key] == id)
    ensures var w := Apply(Run(steps, column), Deliver(id), column);
      InPhase(Apply(w, TryClaim(next, w.claims[id].key, token, true), column), next, Dialing)
  {
    RunKeepsInv(steps, column);
  }

  // ---------------------------------------------------------------- one claim without the token column

  const SLOT := Key("u", "s", 5)

  function Untokened(phase: Phase): Claim { Claim(SLOT, Degraded, phase) }

  function CredOf(column: Deployment, id: nat, token: Token): Credential
  {
    if column(id) then Tokened(token) else Degraded
  }

  /** A claim without identity fails, and its release empties the slot again. */
  lemma FailedClaim(w: World, id: nat, column: Deployment)
    requires w == World(map[], map[], map[], {}) && !column(id)
    ensures Apply(Apply(Apply(w, TryClaim(id, SLOT, 0, true), column), DialFails(id), column), Deliver(id), column)
      == World(map[], map[id := Untokened(Failed)], map[SLOT := id], {id})
  {
    var w1 := Apply(w, TryClaim(id, SLOT, 0, true), column);
    assert w1 == World(map[SLOT := None], map[id := Untokened(Dialing)], map[SLOT := id], {});
    var w2 := Apply(w1, DialFails(id), column);
    assert w2 == World(map[SLOT := None], map[id := Untokened(Failed)], map[SLOT := id], {});
  }

  /** A new claim rings, with or without a token, and the repeated release erases its row. */
  lemma ErasedRing(w: World, failed: nat, id: nat, token: Token, column: Deployment)
    requires SLOT !in w.rows && failed in w.claims && w.claims[failed] == Untokened(Failed)
    requires id !in w.claims && FreshToken(w, token)
    ensures var w' := Apply(Apply(w, TryClaim(id, SLOT, token, true), column), DialSucceeds(id), column);
      && w'.claims == w.claims[id := Claim(SLOT, CredOf(column, id, token), Rang)]
      && SLOT !in Apply(w', Deliver(failed), column).rows && Apply(w', Deliver(failed), column).claims == w'.claims
  {
    var w1 := Apply(w, TryClaim(id, SLOT, token, true), column);
    assert w1.claims == w.claims[id := Claim(SLOT, CredOf(column, id, token), Dialing)];
    var w2 := Apply(w1, DialSucceeds(id), column);
    assert w2.claims == w.claims[id := Claim(SLOT, CredOf(column, id, token), Rang)];
  }

  lemma RunInTwo(a: seq<Step>, b: seq<Step>, column: Deployment)
    ensures b == [] ==> Run(a + b, column) == Run(a, column)
    ensures b != [] ==> Run(a + b, column) == Apply(Run(a + b[..|b| - 1], column), b[|b| - 1], column)
  {
    if b == [] { assert a + b == a; } else { assert (a + b)[..|a + b| - 1] == a + b[..|b| - 1]; }
  }

  lemma RunOfThree(past: seq<Step>, a: Step, b: Step, c: Step, column: Deployment)
    ensures Run(past + [a, b, c], column) == Apply(Apply(Apply(Run(past, column), a, column), b, column), c, column)
  {
    assert [a, b, c][..2] == [a, b] && [a, b][..1] == [a] && [a][..0] == [];
    RunInTwo(past, [a, b, c], column);
    RunInTwo(past, [a, b], column);
    RunInTwo(past, [a], column);
    RunInTwo(past, [], column);
  }

  /** One more ring, and the late release erases its row again. */
  lemma AnotherRing(past: seq<Step>, failed: nat, id: nat, token: Token, column: Deployment) returns (steps: seq<Step>)
    requires var w := Run(past, column);
      SLOT !in w.rows && failed in w.claims && w.claims[failed] == Untokened(Failed) && id !in w.claims &&
        FreshToken(w, token)
    ensures var w, w' := Run(past, column), Run(steps, column);
      SLOT !in w'.rows && w'.claims == w.claims[id := Claim(SLOT, CredOf(column, id, token), Rang)]
  {
    steps := past + [TryClaim(id, SLOT, token, true), DialSucceeds(id), Deliver(failed)];
    RunOfThree(past, TryClaim(id, SLOT, token, true), DialSucceeds(id), Deliver(failed), column);
    ErasedRing(Run(past, column), failed, id, token, column);
  }

  /**
    One claim without identity is enough: its release delivered twice erases a later ring, and the next tick rings
    again.
   */
  lemma DegradedClaimsRingTwice(id: nat, column: Deployment) returns (steps: seq<Step>)
    requires !column(id)
    ensures !RingsOnce(Run(steps, column))
  {
    var first := [TryClaim(id, SLOT, 0, true), DialFails(id), Deliver(id)];
    RunOfThree([], TryClaim(id, SLOT, 0, true), DialFails(id), Deliver(id), column);
    assert [] + first == first;
    FailedClaim(Run([], column), id, column);
    var second := AnotherRing(first, id, id + 1, 1, column);
    steps := AnotherRing(second, id, id + 2, 2, column);
    var w := Run(steps, column);
    assert w.claims[id + 1].phase == Rang && w.claims[id + 2].phase == Rang &&
      w.claims[id + 1].key == w.claims[id + 2].key;
  }

  /** Every run rings each key at most once exactly when no claim was made without the token column. */
  lemma SafeExactlyWithTokens(column: Deployment)
    ensures (forall steps :: RingsOnce(Run(steps, column))) <==> forall id :: column(id)
  {
    if forall id :: column(id) {
      forall steps ensures RingsOnce(Run(steps, column)) { TokensMakeRunsSafe(steps, Deliver(0), column); }
    } else {
      var id :| !column(id);
      var steps := DegradedClaimsRingTwice(id, column);
    }
  }
}
