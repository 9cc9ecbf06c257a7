/** Whole histories of ingest runs over a growing queue, each of which may fail anywhere. */
module InboxHistories {
  import opened Basics
  import opened Inbox
  import opened InboxReplay

  /** One run sees the first `seen` lines of the queue, by its own clock, and may lose either write. */
  datatype Run = Run(seen: nat, clock: Clock, databaseOk: bool, cursorWritten: bool)

  /** The queue is only appended to. */
  ghost predicate Growing(queue: seq<Line>, runs: seq<Run>)
  {
    && (forall i :: 0 <= i < |runs| ==> runs[i].seen <= |queue|)
    && (forall i, j :: 0 <= i < j < |runs| ==> runs[i].seen <= runs[j].seen)
  }

  function After(start: Db, queue: seq<Line>, runs: seq<Run>): Progress
    requires forall i :: 0 <= i < |runs| ==> runs[i].seen <= |queue|
  {
    if runs == [] then Progress(start, 0)
    else
      var r := runs[|runs| - 1];
      IngestStep(After(start, queue, runs[..|runs| - 1]), queue[..r.seen], r.clock, r.databaseOk, r.cursorWritten)
  }

  /** Whether a run reaches its end or dies between commit and cursor write. */
  function Commits(p: Progress, queue: seq<Line>, r: Run): bool
    requires r.seen <= |queue|
  {
    var unread := Unread(queue[..r.seen], p.cursor);
    !HasPoison(unread) && (Statements(unread, r.clock, p.cursor) == [] || r.databaseOk)
  }

  /** How many lines of the queue the tables hold. */
  function Taken(start: Db, queue: seq<Line>, runs: seq<Run>): (n: nat)
    requires forall i :: 0 <= i < |runs| ==> runs[i].seen <= |queue|
    ensures n <= |queue|
  {
    if runs == [] then 0
    else
      var before, r := runs[..|runs| - 1], runs[|runs| - 1];
      if Commits(After(start, queue, before), queue, r) then r.seen else Taken(start, queue, before)
  }

  function NoClock(): Clock { (_, _) => "" }

  /** The script of a timestamped piece of queue. */
  function Script(lines: seq<Line>): seq<Statement> { Statements(lines, NoClock(), 0) }

  /** The tables of one run over the first n lines. */
  function Once(start: Db, queue: seq<Line>, n: nat): Db
    requires n <= |queue|
  {
    ExecuteAll(start, Script(queue[..n]))
  }

  // ---------------------------------------------------------------- the condition

  ghost predicate SubjectAt(script: seq<Statement>, o: nat)
    requires o < |script|
  {
    script[o].m.subject.Some? || FirstSubject(script[..o]).None?
  }

  /** The opening message has a subject, or no earlier message of the thread has one. */
  ghost predicate OpensWithSubject(script: seq<Statement>)
  {
    Opening(script) < |script| ==> SubjectAt(script, Opening(script))
  }

  /** Every thread that is not in the tables yet opens with its subject. */
  ghost predicate ThreadsOpenWithSubject(start: Db, queue: seq<Line>)
  {
    forall thread :: thread !in start.threads ==> OpensWithSubject(Of(Script(queue), thread))
  }

  // ---------------------------------------------------------------- scripts in pieces

  lemma AnyClock(lines: seq<Line>, clock: Clock, from: nat)
    requires Timestamped(lines)
    ensures Statements(lines, clock, from) == Script(lines)
  {
    assert lines + [] == lines && Statements([], NoClock(), 0) == [];
    ScriptInTwo(lines, [], clock, NoClock(), from, 0);
    assert Script(lines) + [] == Script(lines);
  }

  lemma TimestampedPieces(a: seq<Line>, b: seq<Line>)
    requires Timestamped(a + b)
    ensures Timestamped(a) && Timestamped(b)
  {
    assert forall i :: 0 <= i < |a| ==> a[i] == (a + b)[i];
    assert forall i :: 0 <= i < |b| ==> b[i] == (a + b)[|a| + i];
  }

  lemma {:induction false} OfInTwo(a: seq<Statement>, b: seq<Statement>, thread: string)
    ensures Of(a + b, thread) == Of(a, thread) + Of(b, thread)
  {
    if b == [] {
      assert a + b == a;
    } else {
      assert (a + b)[..|a + b| - 1] == a + b[..|b| - 1];
      OfInTwo(a, b[..|b| - 1], thread);
    }
  }

  /** The first message naming an inbox is found where it is. */
  lemma {:induction false} OpeningIs(s: seq<Statement>, o: nat)
    requires o <= |s| && (forall i :: 0 <= i < o ==> s[i].m.inbox.None?)
    requires o < |s| ==> s[o].m.inbox.Some?
    ensures Opening(s) == o
  {
  }

  lemma OpeningInTwo(a: seq<Statement>, b: seq<Statement>)
    requires Opening(a) == |a|
    ensures Opening(a + b) == |a| + Opening(b)
  {
    OpeningIs(a + b, |a| + Opening(b));
  }

  // ---------------------------------------------------------------- replaying a slice is harmless

  lemma OpeningOfLonger(a: seq<Statement>, b: seq<Statement>)
    requires Opening(a) < |a|
    ensures Opening(a + b) == Opening(a)
  {
    OpeningIs(a + b, Opening(a));
  }

  lemma PieceOf<T>(before: seq<T>, slice: seq<T>, rest: seq<T>, o: nat)
    requires o < |slice|
    ensures (before + (slice + rest))[|before| + o] == slice[o]
    ensures (before + (slice + rest))[..|before| + o] == before + slice[..o]
  {
  }

  /** A slice of a thread that opens with its subject opens with its subject. */
  lemma SliceOpensWithSubject(before: seq<Statement>, slice: seq<Statement>, rest: seq<Statement>)
    requires Opening(before) == |before| && OpensWithSubject(before + (slice + rest))
    ensures OpensWithSubject(slice)
  {
    var o := Opening(slice);
    if o < |slice| {
      OpeningOfLonger(slice, rest);
      OpeningInTwo(before, slice + rest);
      SubjectAtPiece(before, slice, rest, o);
    }
  }

  lemma SubjectAtPiece(before: seq<Statement>, slice: seq<Statement>, rest: seq<Statement>, o: nat)
    requires o < |slice| && SubjectAt(before + (slice + rest), |before| + o)
    ensures SubjectAt(slice, o)
  {
    PieceOf(before, slice, rest, o);
    SubjectsInTwo(before, slice[..o]);
  }

  lemma SubjectOfOpening(script: seq<Statement>)
    requires OpensWithSubject(script)
    ensures !LosesSubject(false, script)
  {
    var o := Opening(script);
    if o < |script| && script[o].m.subject.Some? {
      var tail := script[o..];
      assert tail == [tail[0]] + tail[1..];
      SubjectsInTwo([tail[0]], tail[1..]);
      OneStatement(None, tail[0]);
    }
  }

  /** A thread that is still missing has no opening message so far. */
  lemma MissingMeansUnopened(start: Db, script: seq<Statement>, thread: string)
    requires thread !in ExecuteAll(start, script).threads
    ensures thread !in start.threads && Opening(Of(script, thread)) == |Of(script, thread)|
  {
    ThreadsOneByOne(start, script, thread);
    var own := Of(script, thread);
    if thread in start.threads {
      ExistingThread(start.threads[thread], own);
    } else if Opening(own) < |own| {
      OpenedThread(own);
    }
  }

  lemma SliceIsHarmless(start: Db, a: seq<Statement>, b: seq<Statement>, c: seq<Statement>)
    requires forall thread :: thread !in start.threads ==> OpensWithSubject(Of(a + (b + c), thread))
    ensures ReplayHarmless(ExecuteAll(start, a), b)
  {
    var db := ExecuteAll(start, a);
    forall thread ensures !LosesSubject(thread in db.threads, Of(b, thread)) {
      if thread !in db.threads {
        MissingMeansUnopened(start, a, thread);
        OfInTwo(a, b + c, thread);
        OfInTwo(b, c, thread);
        SliceOpensWithSubject(Of(a, thread), Of(b, thread), Of(c, thread));
        SubjectOfOpening(Of(b, thread));
      }
    }
  }

  lemma QueueInThree(queue: seq<Line>, c: nat, n: nat)
    requires Timestamped(queue) && c <= n <= |queue|
    ensures Script(queue) == Script(queue[..c]) + (Script(queue[c..n]) + Script(queue[n..]))
    ensures Script(queue[..n]) == Script(queue[..c]) + Script(queue[c..n])
    ensures Timestamped(queue[..c]) && Timestamped(queue[c..n]) && Timestamped(queue[n..])
  {
    assert queue[..c] + queue[c..] == queue && queue[c..n] + queue[n..] == queue[c..] &&
      queue[..c] + queue[c..n] == queue[..n];
    assert queue[..n] + queue[n..] == queue;
    TimestampedPieces(queue[..c], queue[c..]);
    TimestampedPieces(queue[c..n], queue[n..]);
    TimestampedPieces(queue[..n], queue[n..]);
    ScriptInTwo(queue[..c], queue[c..], NoClock(), NoClock(), 0, 0);
    ScriptInTwo(queue[c..n], queue[n..], NoClock(), NoClock(), 0, 0);
    ScriptInTwo(queue[..c], queue[c..n], NoClock(), NoClock(), 0, 0);
  }

  /** Running the tail b + c again over tables that already hold b. */
  lemma ReplaySlice(start: Db, a: seq<Statement>, b: seq<Statement>, c: seq<Statement>)
    requires ReplayHarmless(ExecuteAll(start, a), b)
    ensures ExecuteAll(ExecuteAll(start, a + b), b + c) == ExecuteAll(start, a + (b + c))
  {
    var db := ExecuteAll(start, a);
    ExecuteInTwo(start, a, b);
    ExecuteInTwo(start, a, b + c);
    ExecuteInTwo(ExecuteAll(db, b), b, c);
    ExecuteInTwo(db, b, c);
    BatchReplay(db, b);
  }

  /** A run that starts at an old cursor, over tables that hold n lines, leaves m lines. */
  lemma RunFromOldCursor(start: Db, queue: seq<Line>, c: nat, n: nat, m: nat, clock: Clock)
    requires Timestamped(queue) && c <= n <= m <= |queue| && ThreadsOpenWithSubject(start, queue)
    ensures ExecuteAll(Once(start, queue, n), Statements(queue[c..m], clock, c)) == Once(start, queue, m)
  {
    var a, b, rest := Script(queue[..c]), Script(queue[c..n]), Script(queue[n..]);
    QueueInThree(queue, c, n);
    SliceIsHarmless(start, a, b, rest);
    ReplaySlice(start, a, b, Script(queue[n..m]));
    UpToLater(queue, c, n, m);
    QueueInThree(queue, c, m);
    AnyClock(queue[c..m], clock, c);
  }

  lemma UpToLater(queue: seq<Line>, c: nat, n: nat, m: nat)
    requires Timestamped(queue) && c <= n <= m <= |queue|
    ensures Script(queue[c..m]) == Script(queue[c..n]) + Script(queue[n..m])
  {
    assert queue[c..n] + queue[n..m] == queue[c..m];
    QueueInThree(queue, c, m);
    ScriptInTwo(queue[c..n], queue[n..m], NoClock(), NoClock(), 0, 0);
  }

  // ---------------------------------------------------------------- every history

  lemma {:induction false} HistoryHolds(start: Db, queue: seq<Line>, runs: seq<Run>)
    requires Timestamped(queue) && Growing(queue, runs) && ThreadsOpenWithSubject(start, queue)
    ensures After(start, queue, runs).db == Once(start, queue, Taken(start, queue, runs))
    ensures After(start, queue, runs).cursor <= Taken(start, queue, runs)
    ensures runs == [] ==> Taken(start, queue, runs) == 0
    ensures runs != [] ==> Taken(start, queue, runs) <= runs[|runs| - 1].seen
  {
    if runs == [] {
      assert queue[..0] == [];
    } else {
      var before, r := runs[..|runs| - 1], runs[|runs| - 1];
      HistoryHolds(start, queue, before);
      var p, n := After(start, queue, before), Taken(start, queue, before);
      if before != [] { assert before[|before| - 1].seen <= r.seen; }
      if Commits(p, queue, r) {
        assert queue[..r.seen][p.cursor..] == queue[p.cursor..r.seen];
        RunFromOldCursor(start, queue, p.cursor, n, r.seen, r.clock);
      }
    }
  }

  // ---------------------------------------------------------------- the condition is needed

  lemma {:induction false} QueueUpTo(queue: seq<Line>, thread: string, k: nat) returns (n: nat)
    requires k <= |Of(Script(queue), thread)|
    ensures n <= |queue| && Of(Script(queue[..n]), thread) == Of(Script(queue), thread)[..k]
  {
    if k == |Of(Script(queue), thread)| {
      assert queue[..|queue|] == queue;
      return |queue|;
    }
    var front := queue[..|queue| - 1];
    OfLastLine(queue, thread);
    n := QueueUpTo(front, thread, k);
    assert front[..n] == queue[..n];
  }

  /** One more line adds at most one statement to a thread. */
  lemma OfLastLine(queue: seq<Line>, thread: string)
    requires queue != []
    ensures var front := Of(Script(queue[..|queue| - 1]), thread);
      front <= Of(Script(queue), thread) && |Of(Script(queue), thread)| <= |front| + 1
  {
    var front, last := Script(queue[..|queue| - 1]), queue[|queue| - 1];
    if last.Mail? {
      assert Script(queue)[..|front|] == front;
    } else {
      assert front + [] == front;
    }
  }

  /** Running a batch twice shows the subject that the single run forgot. */
  lemma BadOpeningShows(start: Db, script: seq<Statement>, thread: string)
    requires thread !in start.threads && Of(script, thread) != []
    requires var own := Of(script, thread); Opening(own) == |own| - 1 && !SubjectAt(own, |own| - 1)
    ensures ExecuteAll(ExecuteAll(start, script), script) != ExecuteAll(start, script)
  {
    var own := Of(script, thread);
    var o := |own| - 1;
    assert own[o..] == [own[o]];
    OneStatement(None, own[o]);
    assert LosesSubject(thread in start.threads, own);
    BatchReplay(start, script);
  }

  /** The history that stores n lines, dies before the cursor write, and starts over. */
  lemma StartingOver(start: Db, queue: seq<Line>, n: nat) returns (runs: seq<Run>)
    requires Timestamped(queue) && !HasPoison(queue) && n <= |queue|
    ensures Growing(queue, runs) && Taken(start, queue, runs) == n
    ensures After(start, queue, runs).db == ExecuteAll(Once(start, queue, n), Script(queue[..n]))
  {
    var r := Run(n, NoClock(), true, false);
    runs := [r, r];
    assert runs[..1] == [r] && [r][..0] == [];
    assert queue[..n][0..] == queue[..n] && Unread(queue[..n], 0) == queue[..n];
    assert !HasPoison(queue[..n]);
    assert After(start, queue, [r]) == Progress(Once(start, queue, n), 0);
    assert After(start, queue, runs) == IngestStep(After(start, queue, [r]), queue[..n], NoClock(), true, false);
  }

  lemma BadQueueHistory(start: Db, queue: seq<Line>, thread: string) returns (runs: seq<Run>)
    requires Timestamped(queue) && !HasPoison(queue)
    requires thread !in start.threads && !OpensWithSubject(Of(Script(queue), thread))
    ensures Growing(queue, runs) && After(start, queue, runs).db != Once(start, queue, Taken(start, queue, runs))
  {
    var own := Of(Script(queue), thread);
    var o := Opening(own);
    var n := QueueUpTo(queue, thread, o + 1);
    OpeningIs(own[..o + 1], o);
    assert own[..o + 1][..o] == own[..o];
    BadOpeningShows(start, Script(queue[..n]), thread);
    runs := StartingOver(start, queue, n);
  }

  // ---------------------------------------------------------------- queues with throwing lines

  /** The lines before the first throwing one. */
  function Readable(queue: seq<Line>): (r: seq<Line>)
    ensures |r| <= |queue| && r <= queue && !HasPoison(r)
    ensures |r| < |queue| ==> queue[|r|].Throwing?
  {
    if queue == [] || queue[0].Throwing? then [] else [queue[0]] + Readable(queue[1..])
  }

  /** Runs that see readable lines only do the same on the readable queue. */
  lemma {:induction false} SameOnReadable(start: Db, queue: seq<Line>, runs: seq<Run>)
    requires forall i :: 0 <= i < |runs| ==> runs[i].seen <= |Readable(queue)|
    ensures forall i :: 0 <= i < |runs| ==> runs[i].seen <= |queue|
    ensures After(start, queue, runs) == After(start, Readable(queue), runs)
    ensures Taken(start, queue, runs) == Taken(start, Readable(queue), runs)
  {
    if runs != [] {
      var r := runs[|runs| - 1];
      SameOnReadable(start, queue, runs[..|runs| - 1]);
      assert queue[..r.seen] == Readable(queue)[..r.seen];
    }
  }

  /** The runs before one sees a throwing line are the only ones that do anything. */
  lemma {:induction false} LaterRunsDoNothing(start: Db, queue: seq<Line>, runs: seq<Run>) returns (k: nat)
    requires Growing(queue, runs)
    ensures k <= |runs| && Growing(Readable(queue), runs[..k])
    ensures After(start, queue, runs) == After(start, Readable(queue), runs[..k])
    ensures Taken(start, queue, runs) == Taken(start, Readable(queue), runs[..k])
  {
    var p := |Readable(queue)|;
    if runs == [] || runs[|runs| - 1].seen <= p {
      k := |runs|;
      assert runs[..k] == runs;
      SameOnReadable(start, queue, runs);
    } else {
      var before, r := runs[..|runs| - 1], runs[|runs| - 1];
      k := LaterRunsDoNothing(start, queue, before);
      assert before[..k] == runs[..k];
      ThrowingLineStopsForGood(start, queue, before, p);
      var cursor := After(start, queue, before).cursor;
      ThrowingLineIsMet(queue, cursor, r.seen, p);
    }
  }

  /**
    Whatever the runs and their failures, the tables are those of one run over the lines taken so far
    if and only if every new thread opens with its subject, before the first line that throws.
   */
  lemma HistoriesExactly(start: Db, queue: seq<Line>)
    requires Timestamped(Readable(queue))
    ensures
      (forall runs | Growing(queue, runs) ::
        After(start, queue, runs).db == Once(start, queue, Taken(start, queue, runs)))
      <==> ThreadsOpenWithSubject(start, Readable(queue))
  {
    var readable := Readable(queue);
    if ThreadsOpenWithSubject(start, readable) {
      forall runs | Growing(queue, runs)
        ensures After(start, queue, runs).db == Once(start, queue, Taken(start, queue, runs))
      {
        var k := LaterRunsDoNothing(start, queue, runs);
        HistoryHolds(start, readable, runs[..k]);
        var n := Taken(start, readable, runs[..k]);
        assert queue[..n] == readable[..n];
      }
    } else {
      var thread :| thread !in start.threads && !OpensWithSubject(Of(Script(readable), thread));
      var runs := BadQueueHistory(start, readable, thread);
      SameOnReadable(start, queue, runs);
      var n := Taken(start, readable, runs);
      assert queue[..n] == readable[..n];
      assert Growing(queue, runs);
    }
  }

  lemma ThrowingLineIsMet(queue: seq<Line>, cursor: nat, seen: nat, p: nat)
    requires cursor <= p < seen <= |queue| && queue[p].Throwing?
    ensures HasPoison(Unread(queue[..seen], cursor))
  {
    assert queue[..seen][cursor..][p - cursor] == queue[p];
  }

  /** A throwing line stops the ingest for good: nothing from it on is ever taken. */
  lemma {:induction false} ThrowingLineStopsForGood(start: Db, queue: seq<Line>, runs: seq<Run>, p: nat)
    requires Growing(queue, runs) && p < |queue| && queue[p].Throwing?
    ensures After(start, queue, runs).cursor <= p && Taken(start, queue, runs) <= p
  {
    if runs != [] {
      var before, r := runs[..|runs| - 1], runs[|runs| - 1];
      ThrowingLineStopsForGood(start, queue, before, p);
      var cursor := After(start, queue, before).cursor;
      if p < r.seen { ThrowingLineIsMet(queue, cursor, r.seen, p); }
    }
  }
}
