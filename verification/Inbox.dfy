/** The mail tables and the queue ingest of ingest.ts. */
module Inbox {
  import opened Basics

  datatype Thread = Thread(address: string, subject: Option<string>, lastAt: string)

  datatype Direction = Inbound | Outbound

  datatype Message = Message(
    thread: string, direction: Direction, sentAt: string, from: Option<string>, to: string,
    subject: Option<string>, body: Option<string>, inReplyTo: Option<string>)

  datatype Awaiting = Awaiting(sentAt: string, lastNudge: Option<string>, nudges: int)

  datatype Db = Db(threads: map<string, Thread>, messages: map<string, Message>, awaiting: map<string, Awaiting>)

  /** A webhook message; ids are non-empty. */
  datatype Incoming = Incoming(
    id: string, thread: string, inbox: Option<string>, from: Option<string>, to: seq<string>,
    subject: Option<string>, text: Option<string>, timestamp: Option<string>)

  /**
    One queue line.  `Throwing` is any line on which the loop body throws: the document null, or a message
    with both ids in which one of the strings is something else that is not null, or `to` is not a list.
   */
  datatype Line = Unparsable | Throwing | Rejected | WithoutIds | Mail(m: Incoming)

  /** The three statements pushed for one message, each with its own timestamp. */
  datatype Statement = Statement(m: Incoming, openedAt: string, updatedAt: string, sentAt: string)

  function Coalesce(a: Option<string>, b: Option<string>): Option<string> { if a.Some? then a else b }

  function JoinAddresses(to: seq<string>): string
  {
    if to == [] then "" else if |to| == 1 then to[0] else to[0] + ", " + JoinAddresses(to[1..])
  }

  lemma AddressesJoined(first: string, rest: seq<string>)
    ensures JoinAddresses([]) == "" && JoinAddresses([first]) == first
    ensures rest != [] ==> JoinAddresses([first] + rest) == first + ", " + JoinAddresses(rest)
  {
    assert ([first] + rest)[1..] == rest;
  }

  /** A missing timestamp becomes the clock's answer at that moment. */
  function Stamp(m: Incoming, clock: string): string { if m.timestamp.Some? then m.timestamp.value else clock }

  type Clock = (nat, nat) -> string

  function StatementFor(m: Incoming, clock: Clock, index: nat): Statement
  {
    Statement(m, Stamp(m, clock(index, 0)), Stamp(m, clock(index, 1)), Stamp(m, clock(index, 2)))
  }

  predicate HasPoison(lines: seq<Line>) { exists i :: 0 <= i < |lines| && lines[i].Throwing? }

  function Statements(lines: seq<Line>, clock: Clock, from: nat): seq<Statement>
  {
    if lines == [] then []
    else Statements(lines[..|lines| - 1], clock, from) +
         (var line := lines[|lines| - 1];
          if line.Mail? then [StatementFor(line.m, clock, from + |lines| - 1)] else [])
  }

  /** Each message becomes one statement, at its place in the queue, with its own timestamp or the clock's. */
  lemma StatementsByLine(lines: seq<Line>, line: Line, clock: Clock, from: nat)
    ensures Statements([], clock, from) == []
    ensures !line.Mail? ==> Statements(lines + [line], clock, from) == Statements(lines, clock, from)
    ensures line.Mail? && line.m.timestamp.Some? ==>
      var t := line.m.timestamp.value;
      Statements(lines + [line], clock, from) == Statements(lines, clock, from) + [Statement(line.m, t, t, t)]
    ensures line.Mail? && line.m.timestamp.None? ==>
      var n := from + |lines|;
      Statements(lines + [line], clock, from) ==
        Statements(lines, clock, from) + [Statement(line.m, clock(n, 0), clock(n, 1), clock(n, 2))]
  {
    var longer, before := lines + [line], Statements(lines, clock, from);
    assert longer[..|longer| - 1] == lines && longer[|longer| - 1] == line;
    assert Statements(longer, clock, from) ==
      before + (if line.Mail? then [StatementFor(line.m, clock, from + |lines|)] else []);
    assert before + [] == before;
  }

  // ---------------------------------------------------------------- what the statements do

  /** INSERT OR IGNORE needs an address; the UPDATE then stamps the thread and fills a null subject. */
  function UpsertThread(was: Option<Thread>, s: Statement): Option<Thread>
  {
    var created :=
      if was.None? && s.m.inbox.Some? then Some(Thread(s.m.inbox.value, s.m.subject, s.openedAt)) else was;
    match created
    case Some(t) => Some(Thread(t.address, Coalesce(t.subject, s.m.subject), s.updatedAt))
    case None => None
  }

  function Lookup<V>(m: map<string, V>, k: string): Option<V> { if k in m then Some(m[k]) else None }

  function Execute(db: Db, s: Statement): Db
  {
    var thread := UpsertThread(Lookup(db.threads, s.m.thread), s);
    var message := Message(s.m.thread, Inbound, s.sentAt, s.m.from, JoinAddresses(s.m.to), s.m.subject, s.m.text, None);
    Db(if thread.Some? then db.threads[s.m.thread := thread.value] else db.threads,
       if s.m.id in db.messages then db.messages else db.messages[s.m.id := message],
       db.awaiting)
  }

  function ExecuteAll(db: Db, script: seq<Statement>): Db
  {
    if script == [] then db else Execute(ExecuteAll(db, script[..|script| - 1]), script[|script| - 1])
  }

  function Unread(lines: seq<Line>, cursor: nat): seq<Line> { if cursor <= |lines| then lines[cursor..] else [] }

  /** The tables and the cursor file. */
  datatype Progress = Progress(db: Db, cursor: nat)

  /** What one run leaves behind, however it ends. */
  function IngestStep(p: Progress, lines: seq<Line>, clock: Clock, databaseOk: bool, cursorWritten: bool): Progress
  {
    var unread := Unread(lines, p.cursor);
    var script := Statements(unread, clock, p.cursor);
    if HasPoison(unread) || (script != [] && !databaseOk) then p
    else Progress(ExecuteAll(p.db, script), if cursorWritten then |lines| else p.cursor)
  }

  datatype IngestEnd = CrashedOnLine | DatabaseFailed | CrashedBeforeCursor | Finished

  class MailStore {
    var threads: map<string, Thread>
    var messages: map<string, Message>
    var awaiting: map<string, Awaiting>
    var cursor: nat

    function Contents(): Db reads this { Db(threads, messages, awaiting) }

    constructor ()
      ensures Contents() == Db(map[], map[], map[]) && cursor == 0
    {
      threads, messages, awaiting, cursor := map[], map[], map[], 0;
    }

    method RunStatement(s: Statement)
      modifies this`threads, this`messages
      ensures Contents() == Execute(old(Contents()), s)
      // no row but the message's own and its thread's
      ensures forall id :: id != s.m.id ==>
        (id in messages <==> id in old(messages)) && (id in messages ==> messages[id] == old(messages)[id])
      ensures forall t :: t != s.m.thread ==>
        (t in threads <==> t in old(threads)) && (t in threads ==> threads[t] == old(threads)[t])
      // a message that is new is stored column by column, and one that is not stays as it is
      ensures s.m.id in messages && messages[s.m.id] ==
        if s.m.id in old(messages) then old(messages)[s.m.id]
        else Message(s.m.thread, Inbound, s.sentAt, s.m.from, JoinAddresses(s.m.to), s.m.subject, s.m.text, None)
      // a new thread needs an inbox; the first subject stays, and every message stamps its thread
      ensures s.m.thread in threads <==> s.m.thread in old(threads) || s.m.inbox.Some?
      ensures s.m.thread in old(threads) ==>
        var was := old(threads)[s.m.thread];
        threads[s.m.thread] == Thread(was.address, if was.subject.Some? then was.subject else s.m.subject, s.updatedAt)
      ensures s.m.thread !in old(threads) && s.m.inbox.Some? ==>
        threads[s.m.thread] == Thread(s.m.inbox.value, s.m.subject, s.updatedAt)
    {
      if s.m.thread !in threads && s.m.inbox.Some? {
        threads := threads[s.m.thread := Thread(s.m.inbox.value, s.m.subject, s.openedAt)];
      }
      if s.m.thread in threads {
        var t := threads[s.m.thread];
        threads := threads[s.m.thread := t.(lastAt := s.updatedAt, subject := Coalesce(t.subject, s.m.subject))];
      }
      if s.m.id !in messages {
        messages := messages[s.m.id :=
          Message(s.m.thread, Inbound, s.sentAt, s.m.from, JoinAddresses(s.m.to), s.m.subject, s.m.text, None)];
      }
    }

    /** The transaction: every statement in order. */
    method RunScript(script: seq<Statement>)
      modifies this`threads, this`messages
      ensures Contents() == ExecuteAll(old(Contents()), script)
    {
      for k := 0 to |script|
        invariant Contents() == ExecuteAll(old(Contents()), script[..k])
      {
        assert script[..k + 1][..k] == script[..k];
        RunStatement(script[k]);
      }
      assert script[..|script|] == script;
    }

    /** One run: statements from the cursor on, one transaction, then the cursor file. */
    method Ingest(lines: seq<Line>, clock: Clock, databaseOk: bool, cursorWritten: bool) returns (end: IngestEnd)
      modifies this
      ensures Progress(Contents(), cursor)
           == IngestStep(Progress(old(Contents()), old(cursor)), lines, clock, databaseOk, cursorWritten)
      ensures end.CrashedOnLine? <==> HasPoison(Unread(lines, old(cursor)))
      ensures end.DatabaseFailed? ==> !databaseOk && Contents() == old(Contents()) && cursor == old(cursor)
      ensures end.CrashedBeforeCursor? ==> !cursorWritten && cursor == old(cursor)
      ensures end.Finished? ==> cursor == |lines|
      // every unread message is executed, in order, exactly when no line throws and the database takes them
      ensures Contents() != old(Contents()) ==>
        var unread := if old(cursor) <= |lines| then lines[old(cursor)..] else [];
        && databaseOk && (forall i :: 0 <= i < |unread| ==> !unread[i].Throwing?)
        && Contents() == ExecuteAll(old(Contents()), Statements(unread, clock, old(cursor)))
      ensures end in {CrashedBeforeCursor, Finished} ==>
        var unread := if old(cursor) <= |lines| then lines[old(cursor)..] else [];
        Contents() == ExecuteAll(old(Contents()), Statements(unread, clock, old(cursor)))
      ensures end.CrashedBeforeCursor? ==> !cursorWritten
      ensures end.DatabaseFailed? ==> !databaseOk
    {
      var script := BuildScript(lines, clock, cursor);
      if script.None? {
        return CrashedOnLine;
      }
      if script.value != [] {
        if !databaseOk {
          return DatabaseFailed;
        }
        RunScript(script.value);
      }
      if !cursorWritten {
        return CrashedBeforeCursor;
      }
      cursor := |lines|;
      return Finished;
    }
  }

  /** The statements of the unread lines, or None when a throwing line stops the run. */
  method BuildScript(lines: seq<Line>, clock: Clock, cursor: nat) returns (script: Option<seq<Statement>>)
    ensures script ==
      if HasPoison(Unread(lines, cursor)) then None else Some(Statements(Unread(lines, cursor), clock, cursor))
  {
    var pending := Unread(lines, cursor);
    var statements: seq<Statement> := [];
    var i := cursor;
    while i < |lines|
      invariant cursor <= i && i - cursor <= |pending|
      invariant i < |lines| ==> i - cursor < |pending|
      invariant i >= |lines| ==> i - cursor == |pending|
      invariant statements == Statements(pending[..i - cursor], clock, cursor) && !HasPoison(pending[..i - cursor])
    {
      var line := lines[i];
      assert pending[..i + 1 - cursor][..i - cursor] == pending[..i - cursor] && pending[i - cursor] == line;
      if line.Throwing? {
        return None;
      }
      if line.Mail? {
        statements := statements + [StatementFor(line.m, clock, i)];
      }
      i := i + 1;
    }
    assert pending[..|pending|] == pending;
    return Some(statements);
  }
}

/** Crash recovery of the ingest: replaying a committed batch. */
module InboxReplay {
  import opened Basics
  import opened Inbox

  lemma {:induction false} ExecuteInTwo(db: Db, a: seq<Statement>, b: seq<Statement>)
    ensures ExecuteAll(db, a + b) == ExecuteAll(ExecuteAll(db, a), b)
  {
    if b == [] {
      assert a + b == a;
    } else {
      assert (a + b)[..|a + b| - 1] == a + b[..|b| - 1];
      ExecuteInTwo(db, a, b[..|b| - 1]);
    }
  }

  ghost predicate Timestamped(lines: seq<Line>)
  {
    forall i :: 0 <= i < |lines| && lines[i].Mail? ==> lines[i].m.timestamp.Some?
  }

  /** Timestamped lines give the same script whatever the clock, the run or the batch boundary. */
  lemma {:induction false} ScriptInTwo(a: seq<Line>, b: seq<Line>, clock: Clock, clock': Clock, from: nat, from': nat)
    requires Timestamped(a + b)
    ensures Statements(a + b, clock, from) == Statements(a, clock', from') + Statements(b, clock', from')
  {
    if b == [] {
      assert a + b == a;
      if a != [] {
        assert a[..|a| - 1] + [] == a[..|a| - 1];
        ScriptInTwo(a[..|a| - 1], [], clock, clock', from, from');
      }
    } else {
      assert (a + b)[..|a + b| - 1] == a + b[..|b| - 1];
      ScriptInTwo(a, b[..|b| - 1], clock, clock', from, from');
      assert (a + b)[|a + b| - 1] == b[|b| - 1];
    }
  }

  // ---------------------------------------------------------------- one thread at a time

  /** The statements of one thread, in order. */
  function Of(script: seq<Statement>, thread: string): seq<Statement>
  {
    if script == [] then []
    else Of(script[..|script| - 1], thread) +
         (if script[|script| - 1].m.thread == thread then [script[|script| - 1]] else [])
  }

  function ThreadAfter(was: Option<Thread>, script: seq<Statement>): Option<Thread>
  {
    if script == [] then was else UpsertThread(ThreadAfter(was, script[..|script| - 1]), script[|script| - 1])
  }

  lemma {:induction false} ThreadsOneByOne(db: Db, script: seq<Statement>, thread: string)
    ensures Lookup(ExecuteAll(db, script).threads, thread) ==
      ThreadAfter(Lookup(db.threads, thread), Of(script, thread))
  {
    if script != [] {
      ThreadsOneByOne(db, script[..|script| - 1], thread);
      var rest := Of(script[..|script| - 1], thread);
      if script[|script| - 1].m.thread == thread {
        assert (rest + [script[|script| - 1]])[..|rest|] == rest;
      } else {
        assert rest + [] == rest;
      }
    }
  }

  function FirstSubject(script: seq<Statement>): Option<string>
  {
    if script == [] then None else Coalesce(FirstSubject(script[..|script| - 1]), script[|script| - 1].m.subject)
  }

  /** An existing thread keeps its address, takes the first subject it meets and the last stamp. */
  lemma {:induction false} ExistingThread(t: Thread, script: seq<Statement>)
    ensures ThreadAfter(Some(t), script) ==
      Some(Thread(t.address, Coalesce(t.subject, FirstSubject(script)),
                  if script == [] then t.lastAt else script[|script| - 1].updatedAt))
  {
    if script != [] { ExistingThread(t, script[..|script| - 1]); }
  }

  /** The first statement that names an inbox opens the thread. */
  function Opening(script: seq<Statement>): (o: nat)
    ensures o <= |script|
    ensures o < |script| ==> script[o].m.inbox.Some?
    ensures forall i :: 0 <= i < o ==> script[i].m.inbox.None?
  {
    if script == [] then 0
    else
      var o := Opening(script[..|script| - 1]);
      if o < |script| - 1 || script[|script| - 1].m.inbox.Some? then o else |script|
  }

  lemma {:induction false} ThreadInTwo(was: Option<Thread>, a: seq<Statement>, b: seq<Statement>)
    ensures ThreadAfter(was, a + b) == ThreadAfter(ThreadAfter(was, a), b)
  {
    if b == [] {
      assert a + b == a;
    } else {
      assert (a + b)[..|a + b| - 1] == a + b[..|b| - 1];
      ThreadInTwo(was, a, b[..|b| - 1]);
    }
  }

  lemma {:induction false} UnopenedThread(script: seq<Statement>)
    requires forall i :: 0 <= i < |script| ==> script[i].m.inbox.None?
    ensures ThreadAfter(None, script) == None
  {
    if script != [] { UnopenedThread(script[..|script| - 1]); }
  }

  lemma {:induction false} SubjectsInTwo(a: seq<Statement>, b: seq<Statement>)
    ensures FirstSubject(a + b) == Coalesce(FirstSubject(a), FirstSubject(b))
  {
    if b == [] {
      assert a + b == a;
    } else {
      assert (a + b)[..|a + b| - 1] == a + b[..|b| - 1];
      SubjectsInTwo(a, b[..|b| - 1]);
    }
  }

  lemma OneStatement(was: Option<Thread>, s: Statement)
    ensures ThreadAfter(was, [s]) == UpsertThread(was, s)
    ensures FirstSubject([s]) == s.m.subject
  {
    assert [s][..0] == [];
  }

  lemma OpeningStatement(s: Statement, rest: seq<Statement>)
    requires s.m.inbox.Some?
    ensures ThreadAfter(None, [s] + rest) ==
      Some(Thread(s.m.inbox.value, FirstSubject([s] + rest),
                  if rest == [] then s.updatedAt else rest[|rest| - 1].updatedAt))
  {
    var created := Thread(s.m.inbox.value, s.m.subject, s.updatedAt);
    ThreadInTwo(None, [s], rest);
    OneStatement(None, s);
    assert UpsertThread(None, s) == Some(created);
    ExistingThread(created, rest);
    SubjectsInTwo([s], rest);
  }

  lemma OpenedAfter(head: seq<Statement>, tail: seq<Statement>)
    requires forall i :: 0 <= i < |head| ==> head[i].m.inbox.None?
    requires tail != [] && tail[0].m.inbox.Some?
    ensures ThreadAfter(None, head + tail) ==
      Some(Thread(tail[0].m.inbox.value, FirstSubject(tail), tail[|tail| - 1].updatedAt))
  {
    ThreadInTwo(None, head, tail);
    UnopenedThread(head);
    assert tail == [tail[0]] + tail[1..];
    OpeningStatement(tail[0], tail[1..]);
  }

  /** A new thread forgets the subjects of the messages before its opening one. */
  lemma OpenedThread(script: seq<Statement>)
    requires Opening(script) < |script|
    ensures var tail := script[Opening(script)..];
      ThreadAfter(None, script) ==
        Some(Thread(tail[0].m.inbox.value, FirstSubject(tail), script[|script| - 1].updatedAt))
  {
    var o := Opening(script);
    OpenedAfter(script[..o], script[o..]);
    assert script[..o] + script[o..] == script;
  }

  /**
    The one batch shape a replay changes: a thread that is new, whose opening message comes after a
    message with a subject, and has no subject itself or later.
   */
  ghost predicate LosesSubject(threadExists: bool, script: seq<Statement>)
  {
    var o := Opening(script);
    !threadExists && o < |script| && FirstSubject(script[..o]).Some? && FirstSubject(script[o..]).None?
  }

  lemma ThreadReplay(was: Option<Thread>, script: seq<Statement>)
    ensures ThreadAfter(ThreadAfter(was, script), script) == ThreadAfter(was, script) <==>
      !LosesSubject(was.Some?, script)
  {
    var o := Opening(script);
    match was {
      case Some(t) =>
        ExistingThread(t, script);
        ExistingThread(ThreadAfter(was, script).value, script);
      case None =>
        if o == |script| {
          UnopenedThread(script);
        } else {
          OpenedThread(script);
          ExistingThread(ThreadAfter(None, script).value, script);
          assert script == script[..o] + script[o..];
          SubjectsInTwo(script[..o], script[o..]);
        }
    }
  }

  // ---------------------------------------------------------------- the whole database

  lemma {:induction false} MessagesReplay(db: Db, db': Db, script: seq<Statement>)
    requires forall i :: 0 <= i < |script| ==> script[i].m.id in db'.messages
    ensures ExecuteAll(db', script).messages == db'.messages
    ensures ExecuteAll(db', script).awaiting == db'.awaiting
    ensures forall i :: 0 <= i < |script| ==> script[i].m.id in ExecuteAll(db, script).messages
  {
    if script != [] {
      MessagesReplay(db, db', script[..|script| - 1]);
      assert forall i :: 0 <= i < |script| - 1 ==> script[i] == script[..|script| - 1][i];
    }
  }

  lemma {:induction false} IdsStored(db: Db, script: seq<Statement>)
    ensures forall i :: 0 <= i < |script| ==> script[i].m.id in ExecuteAll(db, script).messages
  {
    if script != [] {
      IdsStored(db, script[..|script| - 1]);
      assert forall i :: 0 <= i < |script| - 1 ==> script[i] == script[..|script| - 1][i];
    }
  }

  ghost predicate ReplayHarmless(db: Db, script: seq<Statement>)
  {
    forall thread :: !LosesSubject(thread in db.threads, Of(script, thread))
  }

  lemma BatchReplay(db: Db, script: seq<Statement>)
    ensures ExecuteAll(ExecuteAll(db, script), script) == ExecuteAll(db, script) <==> ReplayHarmless(db, script)
  {
    var once, twice := ExecuteAll(db, script), ExecuteAll(ExecuteAll(db, script), script);
    IdsStored(db, script);
    MessagesReplay(db, once, script);
    forall thread
      ensures Lookup(twice.threads, thread) == Lookup(once.threads, thread) <==>
        !LosesSubject(thread in db.threads, Of(script, thread))
    {
      ThreadsOneByOne(db, script, thread);
      ThreadsOneByOne(once, script, thread);
      ThreadReplay(Lookup(db.threads, thread), Of(script, thread));
    }
    if ReplayHarmless(db, script) {
      forall thread ensures Lookup(twice.threads, thread) == Lookup(once.threads, thread) {
        assert !LosesSubject(thread in db.threads, Of(script, thread));
      }
      assert twice.threads == once.threads by { SameLookups(twice.threads, once.threads); }
    }
  }

  lemma SameLookups<V>(a: map<string, V>, b: map<string, V>)
    requires forall k :: Lookup(a, k) == Lookup(b, k)
    ensures a == b
  {
    assert forall k :: k in a <==> Lookup(a, k).Some?;
    assert forall k :: k in b <==> Lookup(b, k).Some?;
    assert forall k :: k in a && k in b ==> a[k] == b[k] by {
      forall k | k in a && k in b ensures a[k] == b[k] { assert Lookup(a, k) == Lookup(b, k); }
    }
  }

  /**
    A crash between commit and cursor write: the next run replays the batch and goes on.  For every
    extension of the queue this gives the tables of a single run exactly when no thread loses a subject.
   */
  lemma CrashReplayExactly(db: Db, batch: seq<Line>, clock: Clock)
    requires Timestamped(batch)
    ensures
      (forall more: seq<Line>, clock', from: nat, from': nat | Timestamped(more) ::
         ExecuteAll(ExecuteAll(db, Statements(batch, clock, from)), Statements(batch + more, clock', from'))
         == ExecuteAll(db, Statements(batch + more, clock', from')))
      <==> ReplayHarmless(db, Statements(batch, clock, 0))
  {
    var script := Statements(batch, clock, 0);
    BatchReplay(db, script);
    if ReplayHarmless(db, script) {
      forall more: seq<Line>, clock', from: nat, from': nat | Timestamped(more)
        ensures ExecuteAll(ExecuteAll(db, Statements(batch, clock, from)), Statements(batch + more, clock', from'))
             == ExecuteAll(db, Statements(batch + more, clock', from'))
      {
        ReplayWithMore(db, batch, more, clock, clock', from, from');
      }
    }
    if forall more: seq<Line>, clock', from: nat, from': nat | Timestamped(more) ::
         ExecuteAll(ExecuteAll(db, Statements(batch, clock, from)), Statements(batch + more, clock', from'))
         == ExecuteAll(db, Statements(batch + more, clock', from'))
    {
      assert batch + [] == batch;
      assert Timestamped([]);
      assert ExecuteAll(ExecuteAll(db, Statements(batch, clock, 0)), Statements(batch + [], clock, 0))
             == ExecuteAll(db, Statements(batch + [], clock, 0));
    }
  }

  lemma ReplayWithMore(db: Db, batch: seq<Line>, more: seq<Line>, clock: Clock, clock': Clock, from: nat, from': nat)
    requires Timestamped(batch) && Timestamped(more)
    requires ReplayHarmless(db, Statements(batch, clock, 0))
    ensures ExecuteAll(ExecuteAll(db, Statements(batch, clock, from)), Statements(batch + more, clock', from'))
            == ExecuteAll(db, Statements(batch + more, clock', from'))
  {
    var script, tail := Statements(batch, clock, 0), Statements(more, clock, 0);
    assert Timestamped(batch + more);
    ScriptInTwo(batch, more, clock', clock, from', 0);
    assert batch + [] == batch && Statements([], clock, 0) == [];
    ScriptInTwo(batch, [], clock, clock, from, 0);
    assert script + [] == script;
    BatchReplay(db, script);
    ExecuteInTwo(db, script, tail);
    ExecuteInTwo(ExecuteAll(db, script), script, tail);
  }

  /** However a timestamped queue is cut into completed runs, the tables are those of one run. */
  lemma CutsDoNotMatter(
      db: Db, first: seq<Line>, second: seq<Line>, clock: Clock, clock': Clock, clock'': Clock, from: nat, from': nat,
      from'': nat)
    requires Timestamped(first + second)
    ensures ExecuteAll(ExecuteAll(db, Statements(first, clock, from)), Statements(second, clock', from'))
            == ExecuteAll(db, Statements(first + second, clock'', from''))
  {
    ScriptInTwo(first, second, clock'', clock, from'', from);
    assert Timestamped(first) && Timestamped(second) by {
      assert forall i :: 0 <= i < |first| ==> first[i] == (first + second)[i];
      assert forall i :: 0 <= i < |second| ==> second[i] == (first + second)[|first| + i];
    }
    assert second + [] == second && Statements([], clock, from) == [];
    ScriptInTwo(second, [], clock', clock, from', from);
    assert Statements(second, clock, from) + [] == Statements(second, clock, from);
    ExecuteInTwo(db, Statements(first, clock, from), Statements(second, clock, from));
  }

  /** The unfixable order exists: a subject arrives before the thread has an inbox, and never again. */
  lemma SubjectBeforeInboxIsLost()
    ensures var m := Incoming("m1", "t", None, None, [], Some("hello"), None, Some("1"));
      var n := Incoming("m2", "t", Some("inbox"), None, [], None, None, Some("2"));
      var script := [Statement(m, "1", "1", "1"), Statement(n, "2", "2", "2")];
      var db := Db(map[], map[], map[]);
      && ExecuteAll(db, script).threads == map["t" := Thread("inbox", None, "2")]
      && ExecuteAll(ExecuteAll(db, script), script).threads == map["t" := Thread("inbox", Some("hello"), "2")]
  {
    var m := Incoming("m1", "t", None, None, [], Some("hello"), None, Some("1"));
    var n := Incoming("m2", "t", Some("inbox"), None, [], None, None, Some("2"));
    var a, b := Statement(m, "1", "1", "1"), Statement(n, "2", "2", "2");
    var db := Db(map[], map[], map[]);
    TwoStatements(db, a, b);
    TwoStatements(ExecuteAll(db, [a, b]), a, b);
  }

  lemma TwoStatements(db: Db, a: Statement, b: Statement)
    ensures ExecuteAll(db, [a, b]) == Execute(Execute(db, a), b)
  {
    assert [a, b][..1] == [a] && [a][..0] == [];
    assert ExecuteAll(db, [a]) == Execute(ExecuteAll(db, []), a);
  }
}
