/** Threads of mail with one contact, keyed by the base of their subject. */
module Conversations {
  import opened Prelude
  import opened Texts
  import Subjects

  datatype ThreadStatus = Open | NeedsReply | Closed

  datatype Thread = Thread(id: nat, workspace: nat, client: Option<nat>, email: Text, subject: Text,
                           status: ThreadStatus, lastMessageAt: int)

  datatype Direction = Inbound | Outbound

  datatype Entry = Entry(threadId: nat, direction: Direction, messageId: Option<nat>, createdAt: int)

  datatype Store = Store(threads: seq<Thread>, entries: seq<Entry>)

  /** An outbound message to record. */
  datatype Send = Send(workspace: nat, client: Option<nat>, email: Text, subject: Text, messageId: Option<nat>)

  /** How subjects are compared, and how they are shown. */
  datatype Rules = Rules(base: Text -> Text, display: Text -> Text)

  const RULES := Rules(Subjects.BaseSubject, Subjects.DisplaySubject)

  // ----- Recording an outbound message ---------------------------------------------------------------

  predicate Continues(rules: Rules, t: Thread, m: Send) {
    && t.workspace == m.workspace && t.client == m.client && t.email == Lower(m.email)
    && rules.base(t.subject) == rules.base(m.subject)
  }

  predicate Records(s: Store, e: Entry, m: Send) {
    && m.messageId.Some? && e.messageId == m.messageId && e.direction == Outbound
    && exists t :: t in s.threads && t.id == e.threadId && t.workspace == m.workspace
  }

  predicate Recorded(s: Store, m: Send) {
    exists e :: e in s.entries && Records(s, e, m)
  }

  /** The thread a message continues: of several, the one with the latest message. */
  function Existing(rules: Rules, threads: seq<Thread>, m: Send): (r: Option<nat>)
    ensures r.Some? ==> r.value < |threads| && Continues(rules, threads[r.value], m)
    ensures r.Some? ==>
              forall i :: 0 <= i < |threads| && Continues(rules, threads[i], m) ==>
                            threads[i].lastMessageAt <= threads[r.value].lastMessageAt
    ensures r.None? ==> forall i :: 0 <= i < |threads| ==> !Continues(rules, threads[i], m)
  {
    if threads == [] then None
    else
      var n := |threads| - 1;
      var before := Existing(rules, threads[..n], m);
      if Continues(rules, threads[n], m)
         && (before.None? || threads[n].lastMessageAt > threads[before.value].lastMessageAt)
      then Some(n)
      else before
  }

  function SetStatus(threads: seq<Thread>, id: nat, status: ThreadStatus, at: Option<int>): (r: seq<Thread>)
    ensures |r| == |threads|
    ensures forall i :: 0 <= i < |threads| ==>
              r[i] == if threads[i].id != id then threads[i]
                      else threads[i].(status := status,
                                       lastMessageAt := if at.Some? then at.value else threads[i].lastMessageAt)
  {
    if threads == [] then []
    else
      [if threads[0].id != id then threads[0]
       else threads[0].(status := status, lastMessageAt := if at.Some? then at.value else threads[0].lastMessageAt)]
      + SetStatus(threads[1..], id, status, at)
  }

  /** An open conversation stays open; a reply that waits goes on waiting, as far as the send has seen it. */
  function StatusAfterSend(seen: ThreadStatus): ThreadStatus {
    if seen == NeedsReply then NeedsReply else Open
  }

  function NewThread(rules: Rules, m: Send, now: int, id: nat): Thread {
    Thread(id, m.workspace, m.client, Lower(m.email), rules.display(m.subject), Open, now)
  }

  /**
   * What recording a message does to `s` when it has read the tables as `seen`; `newId` names the thread it may open.
   */
  function SendWritten(rules: Rules, s: Store, seen: Store, m: Send, now: int, newId: nat): Store {
    if Recorded(seen, m) then s
    else
      match Existing(rules, seen.threads, m)
      case Some(i) =>
        var t := seen.threads[i];
        Store(SetStatus(s.threads, t.id, StatusAfterSend(t.status), Some(now)),
              s.entries + [Entry(t.id, Outbound, m.messageId, now)])
      case None =>
        Store(s.threads + [NewThread(rules, m, now, newId)], s.entries + [Entry(newId, Outbound, m.messageId, now)])
  }

  /** The same with nothing in between. */
  function Opened(rules: Rules, s: Store, m: Send, now: int, newId: nat): Store {
    SendWritten(rules, s, s, m, now, newId)
  }

  // ----- Adding to a given thread ---------------------------------------------------------------------------

  function InboundInserted(s: Store, id: nat, now: int): Store {
    s.(entries := s.entries + [Entry(id, Inbound, None, now)])
  }

  function FlagRaised(s: Store, id: nat, now: int): Store {
    s.(threads := SetStatus(s.threads, id, NeedsReply, Some(now)))
  }

  /** An arriving reply with nothing in between. */
  function AppendedInbound(s: Store, id: nat, now: int): Store {
    FlagRaised(InboundInserted(s, id, now), id, now)
  }

  predicate IsOutbound(e: Entry, id: nat, messageId: Option<nat>) {
    messageId.Some? && e.threadId == id && e.direction == Outbound && e.messageId == messageId
  }

  /** The first entry of the thread that records the message. */
  function FindOutbound(entries: seq<Entry>, id: nat, messageId: Option<nat>): (r: Option<Entry>)
    ensures r.None? <==> forall i :: 0 <= i < |entries| ==> !IsOutbound(entries[i], id, messageId)
    ensures r.Some? ==> r.value in entries && IsOutbound(r.value, id, messageId)
  {
    if entries == [] then None
    else if IsOutbound(entries[0], id, messageId) then Some(entries[0])
    else FindOutbound(entries[1..], id, messageId)
  }

  predicate AnsweredSince(entries: seq<Entry>, id: nat, at: int) {
    exists e :: e in entries && e.threadId == id && e.direction == Inbound && e.createdAt > at
  }

  /** Our reply: it has looked for itself in `seen`, and looks for newer mail in the very statement that writes. */
  function ReplyWritten(s: Store, seen: Store, id: nat, messageId: Option<nat>, now: int): Store {
    match FindOutbound(seen.entries, id, messageId)
    case Some(e) =>
      if AnsweredSince(s.entries, id, e.createdAt) then s
      else s.(threads := SetStatus(s.threads, id, Open, None))
    case None =>
      Store(SetStatus(s.threads, id, Open, Some(now)), s.entries + [Entry(id, Outbound, messageId, now)])
  }

  // ----- Read-time repair ---------------------------------------------------------------------------------------

  /** Leave out an outbound entry whose message id an earlier one carries. */
  function DistinctEntries(rows: seq<Entry>): seq<Entry> {
    if rows == [] then []
    else
      var before := rows[..|rows| - 1];
      var e := rows[|rows| - 1];
      if e.direction == Outbound && e.messageId.Some? && MentionedIn(before, e.messageId)
      then DistinctEntries(before)
      else DistinctEntries(before) + [e]
  }

  predicate MentionedIn(rows: seq<Entry>, messageId: Option<nat>) {
    exists i :: 0 <= i < |rows| && rows[i].direction == Outbound && rows[i].messageId == messageId
  }

  method DistinctConversationMessages(rows: seq<Entry>) returns (kept: seq<Entry>)
    ensures kept == DistinctEntries(rows)
  {
    kept := [];
    var seen: set<nat> := {};
    for i := 0 to |rows|
      invariant kept == DistinctEntries(rows[..i])
      invariant forall id: nat :: id in seen <==> MentionedIn(rows[..i], Some(id))
    {
      var e := rows[i];
      ghost var before := rows[..i];
      assert rows[..i + 1] == before + [e];
      assert rows[..i + 1][..i] == before;
      MentionedInMore(before, e);
      if e.direction != Outbound || e.messageId.None? {
        kept := kept + [e];
      } else if e.messageId.value !in seen {
        seen := seen + {e.messageId.value};
        kept := kept + [e];
      }
    }
    assert rows[..|rows|] == rows;
  }

  lemma MentionedInMore(rows: seq<Entry>, e: Entry)
    ensures forall id: nat :: MentionedIn(rows + [e], Some(id)) <==>
                                MentionedIn(rows, Some(id)) || (e.direction == Outbound && e.messageId == Some(id))
  {
    forall id: nat
      ensures MentionedIn(rows + [e], Some(id)) <==>
                MentionedIn(rows, Some(id)) || (e.direction == Outbound && e.messageId == Some(id))
    {
      var all := rows + [e];
      if MentionedIn(rows, Some(id)) {
        var i :| 0 <= i < |rows| && rows[i].direction == Outbound && rows[i].messageId == Some(id);
        assert all[i].direction == Outbound && all[i].messageId == Some(id);
      }
      if e.direction == Outbound && e.messageId == Some(id) {
        assert all[|rows|].direction == Outbound && all[|rows|].messageId == Some(id);
      }
    }
  }

  predicate NoRepeats(rows: seq<Entry>) {
    forall i, j :: 0 <= i < j < |rows| && rows[i].direction == Outbound && rows[j].direction == Outbound
                     && rows[i].messageId.Some? ==>
                       rows[i].messageId != rows[j].messageId
  }

  /** The repaired list repeats no outbound message, loses none, and keeps every other entry. */
  lemma {:induction false} DistinctShape(rows: seq<Entry>)
    ensures NoRepeats(DistinctEntries(rows))
    ensures forall id: nat :: MentionedIn(rows, Some(id)) <==> MentionedIn(DistinctEntries(rows), Some(id))
    ensures forall e :: e in DistinctEntries(rows) ==> e in rows
    ensures forall e :: e in rows && (e.direction == Inbound || e.messageId.None?) ==> e in DistinctEntries(rows)
  {
    if rows != [] {
      var before, e := rows[..|rows| - 1], rows[|rows| - 1];
      DistinctShape(before);
      assert rows == before + [e];
      MentionedInMore(before, e);
      MentionedInMore(DistinctEntries(before), e);
      if e.direction == Outbound && e.messageId.Some? && !MentionedIn(before, e.messageId) {
        assert !MentionedIn(DistinctEntries(before), e.messageId);
      }
    }
  }

  // ----- The two tables ----------------------------------------------------------------------------------------------

  class ConversationTables {
    const rules: Rules
    var threads: seq<Thread>
    var entries: seq<Entry>

    function Contents(): Store
      reads this
    {
      Store(threads, entries)
    }

    constructor ()
      ensures rules == RULES && Contents() == Store([], [])
    {
      rules := RULES;
      threads, entries := [], [];
    }

    method FindExisting(seen: seq<Thread>, m: Send) returns (r: Option<nat>)
      ensures r == Existing(rules, seen, m)
    {
      r := None;
      for i := 0 to |seen|
        invariant r == Existing(rules, seen[..i], m)
      {
        assert seen[..i + 1][..i] == seen[..i];
        if Continues(rules, seen[i], m)
           && (r.None? || seen[i].lastMessageAt > seen[r.value].lastMessageAt) {
          r := Some(i);
        }
      }
      assert seen[..|seen|] == seen;
    }

    /** Record an outbound message in its conversation, opening one if there is none. */
    method OpenConversationForSend(seen: Store, m: Send, now: int, newId: nat)
      modifies this
      ensures Contents() == SendWritten(rules, old(Contents()), seen, m, now, newId)
    {
      if Recorded(seen, m) {
        return;
      }
      var existing := FindExisting(seen.threads, m);
      var id := newId;
      match existing {
        case Some(i) =>
          id := seen.threads[i].id;
          threads := SetStatus(threads, id, StatusAfterSend(seen.threads[i].status), Some(now));
        case None =>
          threads := threads + [NewThread(rules, m, now, newId)];
      }
      entries := entries + [Entry(id, Outbound, m.messageId, now)];
    }

    /** An arriving reply is written in two statements; this is the first. */
    method InsertInbound(id: nat, now: int)
      modifies this
      ensures Contents() == InboundInserted(old(Contents()), id, now)
    {
      entries := entries + [Entry(id, Inbound, None, now)];
    }

    /** And this is the second. */
    method RaiseFlag(id: nat, now: int)
      modifies this
      ensures Contents() == FlagRaised(old(Contents()), id, now)
    {
      threads := SetStatus(threads, id, NeedsReply, Some(now));
    }

    method AppendInbound(id: nat, now: int)
      modifies this
      ensures Contents() == AppendedInbound(old(Contents()), id, now)
    {
      InsertInbound(id, now);
      RaiseFlag(id, now);
    }

    method AppendOutbound(seen: Store, id: nat, messageId: Option<nat>, now: int)
      modifies this
      ensures Contents() == ReplyWritten(old(Contents()), seen, id, messageId, now)
    {
      var recorded := FindOutbound(seen.entries, id, messageId);
      if recorded.Some? {
        if !AnsweredSince(entries, id, recorded.value.createdAt) {
          threads := SetStatus(threads, id, Open, None);
        }
        return;
      }
      entries := entries + [Entry(id, Outbound, messageId, now)];
      threads := SetStatus(threads, id, Open, Some(now));
    }
  }
}
