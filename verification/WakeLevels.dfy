/** The level loop of wakeCallOnce, for ticks that do not overlap and a store that succeeds. */
module WakeLevels {
  import opened Basics
  import opened WakeLog

  const LEVELS: seq<int> := [10, 5]
  const LATE_CUTOFF: real := -15.0

  predicate IsDue(level: int, minutes: real)
  {
    minutes <= level as real + 0.5 && minutes > LATE_CUTOFF
  }

  function Filter(levels: seq<int>, minutes: real): seq<int>
  {
    if levels == [] then []
    else (if IsDue(levels[0], minutes) then [levels[0]] else []) + Filter(levels[1..], minutes)
  }

  function InsertLevel(level: int, sorted: seq<int>): seq<int>
  {
    if sorted == [] || level <= sorted[0] then [level] + sorted else [sorted[0]] + InsertLevel(level, sorted[1..])
  }

  function SortLevels(levels: seq<int>): seq<int>
  {
    if levels == [] then [] else InsertLevel(levels[0], SortLevels(levels[1..]))
  }

  /** The due levels, most urgent first. */
  function Due(minutes: real): seq<int> { SortLevels(Filter(LEVELS, minutes)) }

  lemma DueCases(minutes: real)
    ensures Due(minutes) ==
      if minutes <= LATE_CUTOFF || minutes > 10.5 then [] else if minutes <= 5.5 then [5, 10] else [10]
  {
    assert LEVELS[1..] == [5] && [5][1..] == [];
    assert Filter([5], minutes) == if IsDue(5, minutes) then [5] else [];
    assert Filter(LEVELS, minutes) == (if IsDue(10, minutes) then [10] else []) + Filter([5], minutes);
    assert SortLevels([10]) == [10] && SortLevels([5]) == [5];
    assert [10, 5][1..] == [5];
    assert SortLevels([10, 5]) == [5, 10];
    assert [] + [10] == [10] && [10] + [] == [10];
  }

  /** One event seen by one tick: the minutes left, and how a dial at each level would end. */
  datatype Sighting = Sighting(start: string, minutes: real, answers: int -> bool)

  datatype PhoneCall = PhoneCall(start: string, level: int, ok: bool)

  /** The level a sighting dials: the most urgent due one, unless it was claimed before. */
  function Dials(keys: set<Key>, uid: string, s: Sighting): Option<int>
  {
    var due := Due(s.minutes);
    if due == [] || Key(uid, s.start, due[0]) in keys then None else Some(due[0])
  }

  /** The rows a sighting leaves: its dialed level only on success, and every coarser due level. */
  function KeysAfter(keys: set<Key>, uid: string, s: Sighting): set<Key>
  {
    KeysThrough(keys, uid, s, |Due(s.minutes)|)
  }

  /** The rows once the first `count` due levels have been handled. */
  function KeysThrough(keys: set<Key>, uid: string, s: Sighting, count: nat): set<Key>
    requires count <= |Due(s.minutes)|
  {
    var due := Due(s.minutes);
    keys
    + (if Dials(keys, uid, s).Some? && s.answers(due[0]) then {Key(uid, s.start, due[0])} else {})
    + (set i | 1 <= i < count :: Key(uid, s.start, due[i]))
  }

  function CallsOf(keys: set<Key>, uid: string, s: Sighting): seq<PhoneCall>
  {
    match Dials(keys, uid, s)
    case Some(level) => [PhoneCall(s.start, level, s.answers(level))]
    case None => []
  }

  /** One sighting by its minutes alone. */
  lemma SightingByMinutes(keys: set<Key>, uid: string, s: Sighting)
    ensures CallsOf(keys, uid, s) ==
      if -15.0 < s.minutes <= 5.5 && Key(uid, s.start, 5) !in keys then [PhoneCall(s.start, 5, s.answers(5))]
      else if 5.5 < s.minutes <= 10.5 && Key(uid, s.start, 10) !in keys then [PhoneCall(s.start, 10, s.answers(10))]
      else []
    ensures KeysAfter(keys, uid, s) == keys
      + (if -15.0 < s.minutes <= 5.5 && s.answers(5) then {Key(uid, s.start, 5)} else {})
      + (if -15.0 < s.minutes <= 5.5 || (5.5 < s.minutes <= 10.5 && s.answers(10)) then {Key(uid, s.start, 10)} else {})
  {
    DueCases(s.minutes);
    var due := Due(s.minutes);
    var coarser := set i | 1 <= i < |due| :: Key(uid, s.start, due[i]);
    if due == [5, 10] {
      assert due[1] == 10;
      assert coarser == {Key(uid, s.start, 10)};
    } else {
      assert coarser == {};
    }
  }

  class Phone {
    var calls: seq<PhoneCall>

    constructor () ensures calls == [] { calls := []; }

    method PlaceCall(s: Sighting, level: int) returns (ok: bool)
      modifies this
      ensures ok == s.answers(level) && calls == old(calls) + [PhoneCall(s.start, level, ok)]
    {
      ok := s.answers(level);
      calls := calls + [PhoneCall(s.start, level, ok)];
    }
  }

  method WakeEvent(uid: string, s: Sighting, store: WakeStore, phone: Phone, tokens: nat -> Token)
    modifies store, phone
    ensures store.rows.Keys == KeysAfter(old(store.rows.Keys), uid, s)
    ensures phone.calls == old(phone.calls) + CallsOf(old(store.rows.Keys), uid, s)
    // the most urgent level whose moment has come is rung, unless its row is there
    ensures phone.calls == old(phone.calls) +
      if -15.0 < s.minutes <= 5.5 && Key(uid, s.start, 5) !in old(store.rows)
      then [PhoneCall(s.start, 5, s.answers(5))]
      else if 5.5 < s.minutes <= 10.5 && Key(uid, s.start, 10) !in old(store.rows)
      then [PhoneCall(s.start, 10, s.answers(10))]
      else []
    // a row comes in with a call that is answered, or for the coarser level once the finer one is due; none goes
    ensures store.rows.Keys == old(store.rows.Keys)
      + (if -15.0 < s.minutes <= 5.5 && s.answers(5) then {Key(uid, s.start, 5)} else {})
      + (if -15.0 < s.minutes <= 5.5 || (5.5 < s.minutes <= 10.5 && s.answers(10)) then {Key(uid, s.start, 10)} else {})
  {
    var due := Due(s.minutes);
    DueCases(s.minutes);
    ghost var keys := store.rows.Keys;
    SightingByMinutes(keys, uid, s);
    var i := 0;
    while i < |due|
      invariant 0 <= i <= |due|
      invariant i == 0 ==> store.rows.Keys == keys && phone.calls == old(phone.calls)
      invariant i > 0 ==> phone.calls == old(phone.calls) + CallsOf(keys, uid, s)
      invariant i > 0 ==> store.rows.Keys == KeysThrough(keys, uid, s, i)
    {
      var key := Key(uid, s.start, due[i]);
      var claim := store.ClaimWake(key, tokens(i));
      if claim.Some? && i == 0 {
        var ok := phone.PlaceCall(s, due[i]);
        if !ok {
          store.ReleaseWake(key, claim.value);
        }
      }
      i := i + 1;
    }
  }

  // ---------------------------------------------------------------- histories of sightings

  function KeysOver(uid: string, history: seq<Sighting>): set<Key>
  {
    if history == [] then {} else KeysAfter(KeysOver(uid, history[..|history| - 1]), uid, history[|history| - 1])
  }

  function CallsOver(uid: string, history: seq<Sighting>): seq<PhoneCall>
  {
    if history == [] then []
    else
      var before := history[..|history| - 1];
      CallsOver(uid, before) + CallsOf(KeysOver(uid, before), uid, history[|history| - 1])
  }

  lemma HistoryStep(uid: string, past: seq<Sighting>, events: seq<Sighting>, i: nat)
    requires i < |events|
    ensures KeysOver(uid, past + events[..i + 1]) == KeysAfter(KeysOver(uid, past + events[..i]), uid, events[i])
    ensures CallsOver(uid, past + events[..i + 1]) ==
      CallsOver(uid, past + events[..i]) + CallsOf(KeysOver(uid, past + events[..i]), uid, events[i])
  {
    var longer := past + events[..i + 1];
    assert longer[..|longer| - 1] == past + events[..i] && longer[|longer| - 1] == events[i];
  }

  /** One tick over a user's events: the store and the phone log extend the history. */
  method WakeUser(
      uid: string, events: seq<Sighting>, store: WakeStore, phone: Phone, tokens: nat -> Token,
      ghost past: seq<Sighting>)
    requires store.rows.Keys == KeysOver(uid, past) && phone.calls == CallsOver(uid, past)
    modifies store, phone
    ensures store.rows.Keys == KeysOver(uid, past + events) && phone.calls == CallsOver(uid, past + events)
  {
    assert past + events[..0] == past;
    for i := 0 to |events|
      invariant store.rows.Keys == KeysOver(uid, past + events[..i]) &&
        phone.calls == CallsOver(uid, past + events[..i])
    {
      HistoryStep(uid, past, events, i);
      WakeEvent(uid, events[i], store, phone, tokens);
    }
    assert past + events[..|events|] == past + events;
  }

  /** What the k-th sighting of a history dials. */
  function DialAt(uid: string, history: seq<Sighting>, k: nat): Option<int>
    requires k < |history|
  {
    Dials(KeysOver(uid, history[..k]), uid, history[k])
  }

  ghost predicate Rang(uid: string, history: seq<Sighting>, start: string, level: int)
  {
    exists k :: 0 <= k < |history| && history[k].start == start && DialAt(uid, history, k) == Some(level) &&
      history[k].answers(level)
  }

  ghost predicate WasDue(history: seq<Sighting>, start: string, level: int)
  {
    exists k :: 0 <= k < |history| && history[k].start == start && level in Due(history[k].minutes)
  }

  lemma RangLonger(uid: string, history: seq<Sighting>, s: Sighting, start: string, level: int)
    ensures Rang(uid, history + [s], start, level) <==>
      Rang(uid, history, start, level)
      || (s.start == start && Dials(KeysOver(uid, history), uid, s) == Some(level) && s.answers(level))
  {
    var longer := history + [s];
    assert longer[..|history|] == history && longer[|history|] == s;
    assert forall k :: 0 <= k < |history| ==> longer[k] == history[k] && longer[..k] == history[..k];
    assert forall k :: 0 <= k < |history| ==> DialAt(uid, longer, k) == DialAt(uid, history, k);
    assert DialAt(uid, longer, |history|) == Dials(KeysOver(uid, history), uid, s);
    if Rang(uid, history, start, level) {
      var k :| 0 <= k < |history| && history[k].start == start && DialAt(uid, history, k) == Some(level) &&
        history[k].answers(level);
      assert longer[k].start == start && DialAt(uid, longer, k) == Some(level);
    }
    if s.start == start && Dials(KeysOver(uid, history), uid, s) == Some(level) && s.answers(level) {
      assert longer[|history|].start == start;
    }
  }

  lemma WasDueLonger(history: seq<Sighting>, s: Sighting, start: string, level: int)
    ensures WasDue(history + [s], start, level) <==>
      WasDue(history, start, level) || (s.start == start && level in Due(s.minutes))
  {
    var longer := history + [s];
    assert longer[|history|] == s;
    assert forall k :: 0 <= k < |history| ==> longer[k] == history[k];
  }

  /**
    Between ticks the T-5 row exists exactly when a T-5 dial succeeded; the T-10 row exists exactly
    when a T-10 dial succeeded or a sighting had T-5 due.
   */
  lemma {:induction false} RowsMeanRings(uid: string, history: seq<Sighting>, start: string)
    ensures Key(uid, start, 5) in KeysOver(uid, history) <==> Rang(uid, history, start, 5)
    ensures Key(uid, start, 10) in KeysOver(uid, history) <==>
      Rang(uid, history, start, 10) || WasDue(history, start, 5)
  {
    if history != [] {
      var before, s := history[..|history| - 1], history[|history| - 1];
      assert history == before + [s];
      RowsMeanRings(uid, before, start);
      RangLonger(uid, before, s, start, 5);
      RangLonger(uid, before, s, start, 10);
      WasDueLonger(before, s, start, 5);
      SightingRows(KeysOver(uid, before), uid, s, start);
    }
  }

  /** How one sighting changes the two rows of an event. */
  lemma SightingRows(keys: set<Key>, uid: string, s: Sighting, start: string)
    ensures Key(uid, start, 5) in KeysAfter(keys, uid, s) <==>
      Key(uid, start, 5) in keys || (s.start == start && Dials(keys, uid, s) == Some(5) && s.answers(5))
    ensures Key(uid, start, 10) in KeysAfter(keys, uid, s) <==>
      || Key(uid, start, 10) in keys
      || (s.start == start && Dials(keys, uid, s) == Some(10) && s.answers(10))
      || (s.start == start && 5 in Due(s.minutes))
  {
    DueCases(s.minutes);
    var due := Due(s.minutes);
    if due == [5, 10] {
      assert due[1] == 10;
      assert Key(uid, s.start, 10) in KeysThrough(keys, uid, s, 2);
    }
  }

  /** T-10 never dials after a sighting in which T-5 was due, and neither level dials after it rang. */
  lemma NeverBackToCoarser(uid: string, history: seq<Sighting>, i: nat, k: nat)
    requires i < k < |history| && history[i].start == history[k].start
    ensures 5 in Due(history[i].minutes) ==> DialAt(uid, history, k) != Some(10)
    ensures forall level :: DialAt(uid, history, i) == Some(level) && history[i].answers(level) ==>
      DialAt(uid, history, k) != Some(level)
  {
    var start := history[k].start;
    RowsMeanRings(uid, history[..k], start);
    assert history[..k][i] == history[i] && history[..k][..i] == history[..i];
    assert DialAt(uid, history[..k], i) == DialAt(uid, history, i);
    if 5 in Due(history[i].minutes) {
      assert WasDue(history[..k], start, 5);
      DueCases(history[k].minutes);
    }
    forall level | DialAt(uid, history, i) == Some(level) && history[i].answers(level)
      ensures DialAt(uid, history, k) != Some(level)
    {
      assert Rang(uid, history[..k], start, level);
      DueCases(history[i].minutes);
      assert level == 5 || level == 10;
    }
  }

  // ---------------------------------------------------------------- the calls of any history

  /** Some earlier sighting of the event was within the last five and a half minutes before it must be left. */
  ghost predicate SeenUrgent(history: seq<Sighting>, start: string)
  {
    exists k :: 0 <= k < |history| && history[k].start == start && -15.0 < history[k].minutes <= 5.5
  }

  lemma {:induction false} RangIsCalled(uid: string, history: seq<Sighting>, start: string, level: int)
    ensures Rang(uid, history, start, level) <==> PhoneCall(start, level, true) in CallsOver(uid, history)
  {
    if history != [] {
      var before, s := history[..|history| - 1], history[|history| - 1];
      assert history == before + [s];
      RangIsCalled(uid, before, start, level);
      RangLonger(uid, before, s, start, level);
    }
  }

  /**
    Over every history, the next sighting rings exactly the level its minutes call for: T-5 unless a T-5 call was
    answered before, T-10 unless a T-10 call was answered before or the event was already seen as urgent.
   */
  lemma CallsExactly(uid: string, history: seq<Sighting>, s: Sighting)
    ensures CallsOver(uid, []) == []
    ensures CallsOver(uid, history + [s]) == CallsOver(uid, history) +
      if -15.0 < s.minutes <= 5.5 && PhoneCall(s.start, 5, true) !in CallsOver(uid, history)
      then [PhoneCall(s.start, 5, s.answers(5))]
      else if 5.5 < s.minutes <= 10.5 && PhoneCall(s.start, 10, true) !in CallsOver(uid, history)
              && !SeenUrgent(history, s.start)
      then [PhoneCall(s.start, 10, s.answers(10))]
      else []
  {
    assert (history + [s])[..|history|] == history;
    SightingByMinutes(KeysOver(uid, history), uid, s);
    RowsMeanRings(uid, history, s.start);
    RangIsCalled(uid, history, s.start, 5);
    RangIsCalled(uid, history, s.start, 10);
    forall k | 0 <= k < |history| ensures 5 in Due(history[k].minutes) <==> -15.0 < history[k].minutes <= 5.5 {
      DueCases(history[k].minutes);
    }
    assert WasDue(history, s.start, 5) <==> SeenUrgent(history, s.start);
  }
}
