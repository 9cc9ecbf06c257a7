/** The reply loop of replier.ts and the nudge sweep of nudge.ts over the mail tables. */
module InboxReplies {
  import opened Basics
  import opened Ordering
  import opened Inbox

  /** A message the adapter accepted: its outbound id, the clock, and the composed mail. */
  datatype Send = Send(outboundId: string, now: string, from: string, to: string, subject: string, body: string)

  // ---------------------------------------------------------------- selection queries

  predicate Answers(m: Message, id: string) { m.direction.Outbound? && m.inReplyTo == Some(id) }

  predicate Answered(db: Db, id: string)
  {
    exists k :: k in db.messages && Answers(db.messages[k], id)
  }

  /** Inbound, joined with its thread, and not yet answered. */
  predicate Pending(db: Db, id: string)
  {
    id in db.messages && db.messages[id].direction.Inbound? && db.messages[id].thread in db.threads && !Answered(db, id)
  }

  predicate RepliedSince(db: Db, thread: string, sentAt: string)
  {
    exists k :: k in db.messages && db.messages[k].thread == thread && db.messages[k].direction.Inbound? &&
      Less(sentAt, db.messages[k].sentAt)
  }

  predicate Eligible(db: Db, thread: string, cutoff: string, maxCount: int)
  {
    && thread in db.awaiting && thread in db.threads
    && Less(db.awaiting[thread].sentAt, cutoff)
    && db.awaiting[thread].nudges < maxCount
    && !RepliedSince(db, thread, db.awaiting[thread].sentAt)
  }

  // ---------------------------------------------------------------- the two transactions

  function InsertIgnoring(messages: map<string, Message>, id: string, m: Message): map<string, Message>
  {
    if id in messages then messages else messages[id := m]
  }

  function ReplyOne(db: Db, id: string, s: Send): Db
    requires id in db.messages
  {
    var thread := db.messages[id].thread;
    Db(db.threads,
       InsertIgnoring(db.messages, s.outboundId,
                      Message(thread, Outbound, s.now, Some(s.from), s.to, Some(s.subject), Some(s.body), Some(id))),
       db.awaiting[thread := Awaiting(s.now, None, 0)])
  }

  function NudgeOne(db: Db, thread: string, s: Send): Db
    requires thread in db.awaiting
  {
    Db(db.threads,
       InsertIgnoring(db.messages, s.outboundId,
                      Message(thread, Outbound, s.now, Some(s.from), s.to, Some(s.subject), Some(s.body), None)),
       db.awaiting[thread := db.awaiting[thread].(lastNudge := Some(s.now), nudges := db.awaiting[thread].nudges + 1)])
  }

  /** One reply: its outbound row, unless the id is taken, and a waiting row that starts over; nothing else. */
  lemma ReplyLeaves(db: Db, id: string, s: Send)
    requires id in db.messages
    ensures var after := ReplyOne(db, id, s); var thread := db.messages[id].thread;
      && after.threads == db.threads
      && (forall t :: t != thread ==>
           (t in after.awaiting <==> t in db.awaiting) && (t in db.awaiting ==> after.awaiting[t] == db.awaiting[t]))
      && thread in after.awaiting
      && after.awaiting[thread].sentAt == s.now
      && after.awaiting[thread].lastNudge == None && after.awaiting[thread].nudges == 0
      && (forall k :: k in db.messages ==> k in after.messages && after.messages[k] == db.messages[k])
      && after.messages.Keys == db.messages.Keys + {s.outboundId}
      && (s.outboundId !in db.messages ==>
           var m := after.messages[s.outboundId];
           && m.thread == thread && m.direction == Outbound && m.inReplyTo == Some(id) && m.sentAt == s.now
           && m.from == Some(s.from) && m.to == s.to && m.subject == Some(s.subject) && m.body == Some(s.body))
  {
  }

  /** One nudge: its outbound row, which answers nothing, and one more on the count, which keeps its waiting time. */
  lemma NudgeLeaves(db: Db, thread: string, s: Send)
    requires thread in db.awaiting
    ensures var after := NudgeOne(db, thread, s);
      && after.threads == db.threads
      && after.awaiting.Keys == db.awaiting.Keys
      && (forall t :: t in db.awaiting && t != thread ==> after.awaiting[t] == db.awaiting[t])
      && after.awaiting[thread].sentAt == db.awaiting[thread].sentAt
      && after.awaiting[thread].lastNudge == Some(s.now)
      && after.awaiting[thread].nudges == db.awaiting[thread].nudges + 1
      && (forall k :: k in db.messages ==> k in after.messages && after.messages[k] == db.messages[k])
      && after.messages.Keys == db.messages.Keys + {s.outboundId}
      && (s.outboundId !in db.messages ==>
           var m := after.messages[s.outboundId];
           && m.thread == thread && m.direction == Outbound && m.inReplyTo == None && m.sentAt == s.now
           && m.from == Some(s.from) && m.to == s.to && m.subject == Some(s.subject) && m.body == Some(s.body))
  {
  }

  /** The two selections, in the columns of the tables. */
  lemma SelectionsByColumn(db: Db, id: string, cutoff: string, maxCount: int)
    ensures Pending(db, id) <==>
      && id in db.messages && db.messages[id].direction == Inbound && db.messages[id].thread in db.threads
      && forall k :: k in db.messages && db.messages[k].direction == Outbound ==> db.messages[k].inReplyTo != Some(id)
    ensures Eligible(db, id, cutoff, maxCount) <==>
      && id in db.threads && id in db.awaiting
      && Less(db.awaiting[id].sentAt, cutoff) && db.awaiting[id].nudges < maxCount
      && forall k :: k in db.messages && db.messages[k].thread == id && db.messages[k].direction == Inbound ==>
           !Less(db.awaiting[id].sentAt, db.messages[k].sentAt)
  {
    if exists k :: k in db.messages && db.messages[k].direction == Outbound && db.messages[k].inReplyTo == Some(id) {
      var k :| k in db.messages && db.messages[k].direction == Outbound && db.messages[k].inReplyTo == Some(id);
      assert Answers(db.messages[k], id);
    }
  }

  /** Replies in query order; None stands for a message that was skipped (no text, no key, send failed). */
  function ReplyAll(db: Db, order: seq<string>, sends: seq<Option<Send>>): Db
    requires |order| == |sends| && forall i :: 0 <= i < |order| ==> order[i] in db.messages
    decreases |order|
  {
    if order == [] then db
    else ReplyAll(if sends[0].Some? then ReplyOne(db, order[0], sends[0].value) else db, order[1..], sends[1..])
  }

  function NudgeAll(db: Db, order: seq<string>, sends: seq<Option<Send>>): Db
    requires |order| == |sends| && forall i :: 0 <= i < |order| ==> order[i] in db.awaiting
    decreases |order|
  {
    if order == [] then db
    else NudgeAll(if sends[0].Some? then NudgeOne(db, order[0], sends[0].value) else db, order[1..], sends[1..])
  }

  method RunReplies(store: MailStore, order: seq<string>, sends: seq<Option<Send>>)
    requires |order| == |sends| && forall i {:trigger order[i]} :: 0 <= i < |order| ==>
      Pending(store.Contents(), order[i])
    modifies store
    ensures forall i :: 0 <= i < |order| ==> order[i] in old(store.Contents()).messages
    ensures store.Contents() == ReplyAll(old(store.Contents()), order, sends) && store.cursor == old(store.cursor)
  {
    for i := 0 to |order|
      invariant store.cursor == old(store.cursor)
      invariant forall j :: 0 <= j < |order| ==> order[j] in store.messages
      invariant ReplyAll(store.Contents(), order[i..], sends[i..]) == ReplyAll(old(store.Contents()), order, sends)
    {
      assert order[i..][1..] == order[i + 1..] && sends[i..][1..] == sends[i + 1..];
      if sends[i].Some? {
        var s, thread := sends[i].value, store.messages[order[i]].thread;
        if s.outboundId !in store.messages {
          store.messages := store.messages[s.outboundId :=
            Message(thread, Outbound, s.now, Some(s.from), s.to, Some(s.subject), Some(s.body), Some(order[i]))];
        }
        store.awaiting := store.awaiting[thread := Awaiting(s.now, None, 0)];
      }
    }
  }

  method RunNudges(store: MailStore, order: seq<string>, sends: seq<Option<Send>>, cutoff: string, maxCount: int)
    requires |order| == |sends| && forall i {:trigger order[i]} :: 0 <= i < |order| ==>
      Eligible(store.Contents(), order[i], cutoff, maxCount)
    modifies store
    ensures forall i :: 0 <= i < |order| ==> order[i] in old(store.Contents()).awaiting
    ensures store.Contents() == NudgeAll(old(store.Contents()), order, sends) && store.cursor == old(store.cursor)
  {
    for i := 0 to |order|
      invariant store.cursor == old(store.cursor)
      invariant forall j :: 0 <= j < |order| ==> order[j] in store.awaiting
      invariant NudgeAll(store.Contents(), order[i..], sends[i..]) == NudgeAll(old(store.Contents()), order, sends)
    {
      assert order[i..][1..] == order[i + 1..] && sends[i..][1..] == sends[i + 1..];
      if sends[i].Some? {
        var s, thread := sends[i].value, order[i];
        if s.outboundId !in store.messages {
          store.messages := store.messages[s.outboundId :=
            Message(thread, Outbound, s.now, Some(s.from), s.to, Some(s.subject), Some(s.body), None)];
        }
        store.awaiting := store.awaiting[thread :=
          store.awaiting[thread].(lastNudge := Some(s.now), nudges := store.awaiting[thread].nudges + 1)];
      }
    }
  }

  /** A sent reply marks its message answered exactly when its outbound id was new. */
  lemma AnsweredExactlyWhenIdIsNew(db: Db, id: string, s: Send)
    requires Pending(db, id)
    ensures Answered(ReplyOne(db, id, s), id) <==> s.outboundId !in db.messages
  {
    var after := ReplyOne(db, id, s);
    if s.outboundId !in db.messages {
      assert Answers(after.messages[s.outboundId], id);
    } else {
      assert after.messages == db.messages;
    }
  }

  // ---------------------------------------------------------------- whole histories

  datatype Event = Replied(thread: string) | Nudged(thread: string)

  datatype World = World(db: Db, log: seq<Event>)

  datatype Run =
    | Ingesting(script: seq<Statement>)
    | Replying(order: seq<string>, sends: seq<Option<Send>>)
    | Nudging(order: seq<string>, sends: seq<Option<Send>>, cutoff: string)

  ghost predicate Distinct(s: seq<string>) { forall i, j :: 0 <= i < j < |s| ==> s[i] != s[j] }

  /** Outbound ids are new and differ from each other. */
  ghost predicate FreshIds(db: Db, sends: seq<Option<Send>>)
  {
    && (forall i :: 0 <= i < |sends| && sends[i].Some? ==> sends[i].value.outboundId !in db.messages)
    && (forall i, j :: 0 <= i < j < |sends| && sends[i].Some? && sends[j].Some? ==>
         sends[i].value.outboundId != sends[j].value.outboundId)
  }

  /** A run works on exactly the rows its query selects when it begins. */
  ghost predicate Selects(db: Db, run: Run, maxCount: int)
  {
    match run
    case Ingesting(_) => true
    case Replying(order, sends) =>
      |order| == |sends| && Distinct(order) && FreshIds(db, sends) && forall id :: id in order <==> Pending(db, id)
    case Nudging(order, sends, cutoff) =>
      && |order| == |sends| && Distinct(order) && FreshIds(db, sends)
      && forall t :: t in order <==> Eligible(db, t, cutoff, maxCount)
  }

  function ReplyLog(db: Db, order: seq<string>, sends: seq<Option<Send>>): seq<Event>
    requires |order| == |sends| && forall i :: 0 <= i < |order| ==> order[i] in db.messages
    decreases |order|
  {
    if order == [] then []
    else (if sends[0].Some? then [Replied(db.messages[order[0]].thread)] else []) + ReplyLog(db, order[1..], sends[1..])
  }

  function NudgeLog(order: seq<string>, sends: seq<Option<Send>>): seq<Event>
    requires |order| == |sends|
  {
    if order == [] then [] else (if sends[0].Some? then [Nudged(order[0])] else []) + NudgeLog(order[1..], sends[1..])
  }

  function NudgesSinceReply(log: seq<Event>, thread: string): nat
  {
    if log == [] then 0
    else match log[|log| - 1]
      case Replied(t) => if t == thread then 0 else NudgesSinceReply(log[..|log| - 1], thread)
      case Nudged(t) => NudgesSinceReply(log[..|log| - 1], thread) + (if t == thread then 1 else 0)
  }

  predicate SameAnswer(m: Message, n: Message) { m.inReplyTo.Some? && m.inReplyTo == n.inReplyTo }

  /** Every inbound message has at most one answer, and counts equal the nudges since the last reply. */
  ghost predicate Inv(w: World, maxCount: int)
  {
    && (forall a, b :: a in w.db.messages && b in w.db.messages && SameAnswer(w.db.messages[a], w.db.messages[b]) ==>
         a == b)
    && (forall a :: a in w.db.messages && w.db.messages[a].inReplyTo.Some? ==> w.db.messages[a].direction.Outbound?)
    && (forall t :: t in w.db.awaiting ==>
         w.db.awaiting[t].nudges == NudgesSinceReply(w.log, t) && w.db.awaiting[t].nudges <= Max(0, maxCount))
    && (forall t :: t !in w.db.awaiting ==> NudgesSinceReply(w.log, t) == 0)
  }

  lemma {:induction false} IngestKeepsInv(w: World, script: seq<Statement>, maxCount: int)
    requires Inv(w, maxCount)
    ensures Inv(World(ExecuteAll(w.db, script), w.log), maxCount)
    ensures ExecuteAll(w.db, script).awaiting == w.db.awaiting
  {
    if script != [] { IngestKeepsInv(w, script[..|script| - 1], maxCount); }
  }

  lemma LogStep(log: seq<Event>, e: Event, thread: string)
    ensures NudgesSinceReply(log + [e], thread) ==
      match e
      case Replied(t) => if t == thread then 0 else NudgesSinceReply(log, thread)
      case Nudged(t) => NudgesSinceReply(log, thread) + (if t == thread then 1 else 0)
  {
    assert (log + [e])[..|log|] == log;
  }

  lemma ReplyOneKeepsInv(w: World, id: string, s: Send, maxCount: int)
    requires Inv(w, maxCount) && Pending(w.db, id) && s.outboundId !in w.db.messages
    ensures Inv(World(ReplyOne(w.db, id, s), w.log + [Replied(w.db.messages[id].thread)]), maxCount)
  {
    var e := Replied(w.db.messages[id].thread);
    forall t
      ensures NudgesSinceReply(w.log + [e], t) == if t == e.thread then 0 else NudgesSinceReply(w.log, t)
    {
      LogStep(w.log, e, t);
    }
    forall a | a in w.db.messages ensures w.db.messages[a].inReplyTo != Some(id) {
      if w.db.messages[a].inReplyTo == Some(id) { assert Answers(w.db.messages[a], id); }
    }
  }

  lemma NudgeOneKeepsInv(w: World, thread: string, s: Send, maxCount: int)
    requires Inv(w, maxCount) && thread in w.db.awaiting && w.db.awaiting[thread].nudges < maxCount &&
      s.outboundId !in w.db.messages
    ensures Inv(World(NudgeOne(w.db, thread, s), w.log + [Nudged(thread)]), maxCount)
  {
    var e := Nudged(thread);
    forall t
      ensures NudgesSinceReply(w.log + [e], t) == NudgesSinceReply(w.log, t) + (if t == thread then 1 else 0)
    {
      LogStep(w.log, e, t);
    }
  }

  ghost predicate AllPending(db: Db, order: seq<string>)
  {
    forall i {:trigger order[i]} :: 0 <= i < |order| ==> Pending(db, order[i])
  }

  lemma ReplyStep(w: World, order: seq<string>, sends: seq<Option<Send>>)
    requires order != [] && |order| == |sends| && sends[0].Some? && Distinct(order) && FreshIds(w.db, sends) &&
      AllPending(w.db, order)
    ensures var db' := ReplyOne(w.db, order[0], sends[0].value);
      && AllPending(db', order[1..]) && Distinct(order[1..]) && FreshIds(db', sends[1..])
      && ReplyLog(w.db, order[1..], sends[1..]) == ReplyLog(db', order[1..], sends[1..])
  {
    var db' := ReplyOne(w.db, order[0], sends[0].value);
    forall i | 1 <= i < |order| ensures Pending(db', order[i]) {
      StaysPending(w.db, order[0], sends[0].value, order[i]);
    }
    assert forall i :: 0 <= i < |order[1..]| ==> order[1..][i] == order[i + 1];
    SameReplyLog(w.db, db', order[1..], sends[1..]);
  }

  lemma {:induction false} ReplyAllKeepsInv(w: World, order: seq<string>, sends: seq<Option<Send>>, maxCount: int)
    requires Inv(w, maxCount) && |order| == |sends| && Distinct(order) && FreshIds(w.db, sends) &&
      AllPending(w.db, order)
    ensures Inv(World(ReplyAll(w.db, order, sends), w.log + ReplyLog(w.db, order, sends)), maxCount)
    decreases |order|
  {
    if order == [] {
      assert w.log + [] == w.log;
    } else {
      var rest := ReplyLog(w.db, order[1..], sends[1..]);
      if sends[0].None? {
        ReplyAllKeepsInv(w, order[1..], sends[1..], maxCount);
        assert [] + rest == rest;
      } else {
        var e := Replied(w.db.messages[order[0]].thread);
        var next := World(ReplyOne(w.db, order[0], sends[0].value), w.log + [e]);
        ReplyOneKeepsInv(w, order[0], sends[0].value, maxCount);
        ReplyStep(w, order, sends);
        ReplyAllKeepsInv(next, order[1..], sends[1..], maxCount);
        assert w.log + ([e] + rest) == next.log + rest;
      }
    }
  }

  lemma StaysPending(db: Db, id: string, s: Send, other: string)
    requires Pending(db, id) && Pending(db, other) && id != other && s.outboundId !in db.messages
    ensures Pending(ReplyOne(db, id, s), other)
  {
    var after := ReplyOne(db, id, s);
    forall k | k in after.messages ensures !Answers(after.messages[k], other) {
      if k in db.messages { assert after.messages[k] == db.messages[k] && !Answers(db.messages[k], other); }
    }
  }

  lemma {:induction false} SameReplyLog(db: Db, db': Db, order: seq<string>, sends: seq<Option<Send>>)
    requires |order| == |sends|
    requires forall i :: 0 <= i < |order| ==>
      order[i] in db.messages && order[i] in db'.messages && db.messages[order[i]] == db'.messages[order[i]]
    ensures ReplyLog(db, order, sends) == ReplyLog(db', order, sends)
    decreases |order|
  {
    if order != [] { SameReplyLog(db, db', order[1..], sends[1..]); }
  }

  lemma PendingOnlyShrinks(db: Db, id: string, s: Send, other: string)
    requires Pending(db, id) && s.outboundId !in db.messages && Pending(ReplyOne(db, id, s), other)
    ensures Pending(db, other) && other != id
  {
    var after := ReplyOne(db, id, s);
    assert Answers(after.messages[s.outboundId], id);
    forall k | k in db.messages ensures !Answers(db.messages[k], other) {
      assert after.messages[k] == db.messages[k];
    }
  }

  /** When every selected message was sent, nothing is left pending: a re-run without new mail does nothing. */
  lemma {:induction false} NothingPendingAfterwards(db: Db, order: seq<string>, sends: seq<Option<Send>>, id: string)
    requires |order| == |sends| && Distinct(order) && FreshIds(db, sends) && AllPending(db, order)
    requires forall i :: 0 <= i < |sends| ==> sends[i].Some?
    requires Pending(ReplyAll(db, order, sends), id)
    ensures Pending(db, id) && id !in order
    decreases |order|
  {
    if order != [] {
      ReplyStep(World(db, []), order, sends);
      NothingPendingAfterwards(ReplyOne(db, order[0], sends[0].value), order[1..], sends[1..], id);
      PendingOnlyShrinks(db, order[0], sends[0].value, id);
      assert forall i :: 1 <= i < |order| ==> order[i] == order[1..][i - 1];
    }
  }

  ghost predicate AllBelow(db: Db, order: seq<string>, maxCount: int)
  {
    forall i {:trigger order[i]} :: 0 <= i < |order| ==>
      order[i] in db.awaiting && db.awaiting[order[i]].nudges < maxCount
  }

  lemma NudgeStep(db: Db, order: seq<string>, sends: seq<Option<Send>>, maxCount: int)
    requires order != [] && |order| == |sends| && sends[0].Some? && Distinct(order) && FreshIds(db, sends) &&
      AllBelow(db, order, maxCount)
    ensures var db' := NudgeOne(db, order[0], sends[0].value);
      AllBelow(db', order[1..], maxCount) && Distinct(order[1..]) && FreshIds(db', sends[1..])
  {
    assert forall i :: 0 <= i < |order[1..]| ==> order[1..][i] == order[i + 1];
  }

  lemma {:induction false} NudgeAllKeepsInv(w: World, order: seq<string>, sends: seq<Option<Send>>, maxCount: int)
    requires Inv(w, maxCount) && |order| == |sends| && Distinct(order) && FreshIds(w.db, sends) &&
      AllBelow(w.db, order, maxCount)
    ensures Inv(World(NudgeAll(w.db, order, sends), w.log + NudgeLog(order, sends)), maxCount)
    decreases |order|
  {
    if order == [] {
      assert w.log + [] == w.log;
    } else {
      var rest := NudgeLog(order[1..], sends[1..]);
      if sends[0].None? {
        NudgeAllKeepsInv(w, order[1..], sends[1..], maxCount);
        assert [] + rest == rest;
      } else {
        var next := World(NudgeOne(w.db, order[0], sends[0].value), w.log + [Nudged(order[0])]);
        NudgeOneKeepsInv(w, order[0], sends[0].value, maxCount);
        NudgeStep(w.db, order, sends, maxCount);
        NudgeAllKeepsInv(next, order[1..], sends[1..], maxCount);
        assert w.log + ([Nudged(order[0])] + rest) == next.log + rest;
      }
    }
  }

  /** One whole run; a run whose selection does not match its query is not a run at all. */
  ghost function Apply(w: World, run: Run, maxCount: int): World
  {
    if !Selects(w.db, run, maxCount) then w
    else match run
      case Ingesting(script) => World(ExecuteAll(w.db, script), w.log)
      case Replying(order, sends) =>
        assert forall i :: 0 <= i < |order| ==> order[i] in order && Pending(w.db, order[i]);
        World(ReplyAll(w.db, order, sends), w.log + ReplyLog(w.db, order, sends))
      case Nudging(order, sends, cutoff) =>
        assert forall i :: 0 <= i < |order| ==> order[i] in order && Eligible(w.db, order[i], cutoff, maxCount);
        World(NudgeAll(w.db, order, sends), w.log + NudgeLog(order, sends))
  }

  /** An ingest run always takes effect, the other two whenever they work on exactly what their query selects. */
  lemma RunsTakeEffect(w: World, script: seq<Statement>, order: seq<string>, sends: seq<Option<Send>>, cutoff: string,
                       maxCount: int)
    requires |order| == |sends| && Distinct(order) && FreshIds(w.db, sends)
    ensures Apply(w, Ingesting(script), maxCount) == World(ExecuteAll(w.db, script), w.log)
    ensures (forall id :: id in order <==> Pending(w.db, id)) ==>
      && (forall i :: 0 <= i < |order| ==> order[i] in w.db.messages)
      && Apply(w, Replying(order, sends), maxCount) ==
           World(ReplyAll(w.db, order, sends), w.log + ReplyLog(w.db, order, sends))
    ensures (forall t :: t in order <==> Eligible(w.db, t, cutoff, maxCount)) ==>
      && (forall i :: 0 <= i < |order| ==> order[i] in w.db.awaiting)
      && Apply(w, Nudging(order, sends, cutoff), maxCount) ==
           World(NudgeAll(w.db, order, sends), w.log + NudgeLog(order, sends))
  {
    assert forall i :: 0 <= i < |order| ==> order[i] in order;
  }

  ghost function History(runs: seq<Run>, maxCount: int): World
  {
    if runs == [] then World(Db(map[], map[], map[]), [])
    else Apply(History(runs[..|runs| - 1], maxCount), runs[|runs| - 1], maxCount)
  }

  lemma {:induction false} HistoryKeepsInv(runs: seq<Run>, maxCount: int)
    ensures Inv(History(runs, maxCount), maxCount)
  {
    if runs != [] {
      HistoryKeepsInv(runs[..|runs| - 1], maxCount);
      var w, run := History(runs[..|runs| - 1], maxCount), runs[|runs| - 1];
      if Selects(w.db, run, maxCount) {
        match run {
          case Ingesting(script) => IngestKeepsInv(w, script, maxCount);
          case Replying(order, sends) =>
            assert forall i :: 0 <= i < |order| ==> order[i] in order && Pending(w.db, order[i]);
            ReplyAllKeepsInv(w, order, sends, maxCount);
          case Nudging(order, sends, cutoff) =>
            assert forall i :: 0 <= i < |order| ==> order[i] in order && Eligible(w.db, order[i], cutoff, maxCount);
            NudgeAllKeepsInv(w, order, sends, maxCount);
        }
      }
    }
  }

  /** Over any runs: one answer per inbound message, exact nudge counts, never above the maximum. */
  lemma OneAnswerAndExactCounts(runs: seq<Run>, maxCount: int, a: string, b: string, thread: string)
    ensures var w := History(runs, maxCount);
      && (a in w.db.messages && b in w.db.messages && SameAnswer(w.db.messages[a], w.db.messages[b]) ==> a == b)
      && (thread in w.db.awaiting ==>
           w.db.awaiting[thread].nudges == NudgesSinceReply(w.log, thread) <= Max(0, maxCount))
  {
    HistoryKeepsInv(runs, maxCount);
  }
}
