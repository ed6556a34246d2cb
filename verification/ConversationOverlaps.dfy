/**
 * The operations on the conversation tables when their reads and writes interleave: each decides by the tables as it
 * read them and writes to the tables as they are. Only sends, and replies to one message, lock each other out.
 */
module ConversationOverlaps {
  import opened Prelude
  import opened Histories
  import opened Texts
  import opened Conversations
  import opened ConversationRuns
  import Subjects

  /** What one transaction, or one statement outside of any, writes. */
  datatype Write =
    | SendWrite(m: Send, now: int, newId: nat)
    | InboundInsert(id: nat, now: int)
    | FlagWrite(id: nat, now: int)
    | ReplyWrite(id: nat, messageId: Option<nat>, now: int)

  /** A write that acts on the tables as they stood after the first `seen` writes. */
  datatype Visit = Visit(seen: nat, write: Write)

  function Act(rules: Rules, s: Store, seen: Store, w: Write): Store {
    match w
    case SendWrite(m, now, newId) => SendWritten(rules, s, seen, m, now, newId)
    case InboundInsert(id, now) => InboundInserted(s, id, now)
    case FlagWrite(id, now) => FlagRaised(s, id, now)
    case ReplyWrite(id, messageId, now) => ReplyWritten(s, seen, id, messageId, now)
  }

  /** Write `k` leads from `h[k]` to `h[k + 1]`. */
  predicate Follows(rules: Rules, v: Visit, h: seq<Store>, k: nat) {
    k + 1 < |h| && v.seen <= k && h[k + 1] == Act(rules, h[k], h[v.seen], v.write)
  }

  /** `h[n]` holds the tables after the first `n` of the writes. */
  predicate History(rules: Rules, visits: seq<Visit>, h: seq<Store>) {
    && |h| == |visits| + 1
    && forall k: nat {:trigger Follows(rules, visits[k], h, k)} :: k < |visits| ==> Follows(rules, visits[k], h, k)
  }

  // ----- Rows stay in their places ---------------------------------------------------------------------------------

  /** `t` holds all rows of `s`, changed in status and time at most, and all its entries. */
  predicate Extends(s: Store, t: Store) {
    && |s.threads| <= |t.threads| && s.entries <= t.entries
    && forall i :: 0 <= i < |s.threads| ==>
                     t.threads[i] == s.threads[i].(status := t.threads[i].status,
                                                   lastMessageAt := t.threads[i].lastMessageAt)
  }

  lemma ActExtends(rules: Rules, s: Store, seen: Store, w: Write)
    ensures Extends(s, Act(rules, s, seen, w))
  {
  }

  lemma ExtendsTransitive(r: Store, s: Store, t: Store)
    requires Extends(r, s) && Extends(s, t)
    ensures Extends(r, t)
  {
  }

  lemma {:induction false} LaterExtends(rules: Rules, visits: seq<Visit>, h: seq<Store>, v: nat, n: nat)
    requires History(rules, visits, h) && v <= n < |h|
    ensures Extends(h[v], h[n])
    decreases n
  {
    if v < n {
      LaterExtends(rules, visits, h, v, n - 1);
      assert Follows(rules, visits[n - 1], h, n - 1);
      ActExtends(rules, h[n - 1], h[visits[n - 1].seen], visits[n - 1].write);
      ExtendsTransitive(h[v], h[n - 1], h[n]);
    }
  }

  // ----- Waiting replies -------------------------------------------------------------------------------------------

  /** The thread in row `i` waits for an answer. */
  predicate Waiting(s: Store, i: nat) {
    i < |s.threads| && s.threads[i].status == NeedsReply
  }

  /** Whether a write that read `seen` clears the flag of row `i` of `s`. */
  predicate Clears(rules: Rules, s: Store, seen: Store, w: Write, i: nat) {
    i < |s.threads| &&
    match w
    case SendWrite(m, _, _) =>
      var e := Existing(rules, seen.threads, m);
      && !Recorded(seen, m) && e.Some?
      && seen.threads[e.value].id == s.threads[i].id && seen.threads[e.value].status != NeedsReply
    case ReplyWrite(id, messageId, _) =>
      var e := FindOutbound(seen.entries, id, messageId);
      id == s.threads[i].id && (e.None? || !AnsweredSince(s.entries, id, e.value.createdAt))
    case InboundInsert(_, _) => false
    case FlagWrite(_, _) => false
  }

  lemma WriteOverFlag(rules: Rules, s: Store, seen: Store, w: Write, i: nat)
    requires Waiting(s, i)
    ensures Waiting(Act(rules, s, seen, w), i) <==> !Clears(rules, s, seen, w, i)
  {
  }

  predicate ClearsAt(rules: Rules, visits: seq<Visit>, h: seq<Store>, k: nat, i: nat)
    requires k < |visits| && k < |h| && visits[k].seen <= k
  {
    Clears(rules, h[k], h[visits[k].seen], visits[k].write, i)
  }

  lemma WaitingStep(rules: Rules, visits: seq<Visit>, h: seq<Store>, k: nat, i: nat)
    requires History(rules, visits, h) && k < |visits| && Waiting(h[k], i)
    ensures visits[k].seen <= k && (Waiting(h[k + 1], i) <==> !ClearsAt(rules, visits, h, k, i))
  {
    assert Follows(rules, visits[k], h, k);
    WriteOverFlag(rules, h[k], h[visits[k].seen], visits[k].write, i);
  }

  lemma SeenBefore(rules: Rules, visits: seq<Visit>, h: seq<Store>)
    requires History(rules, visits, h)
    ensures forall k :: 0 <= k < |visits| ==> visits[k].seen <= k
  {
    forall k | 0 <= k < |visits|
      ensures visits[k].seen <= k
    {
      assert Follows(rules, visits[k], h, k);
    }
  }

  /** A flag that is up after `a` writes stays up through write `b` exactly when no write in between clears it. */
  lemma WaitsIff(rules: Rules, visits: seq<Visit>, h: seq<Store>, i: nat, a: nat, b: nat)
    requires History(rules, visits, h) && a <= b < |h| && Waiting(h[a], i)
    ensures forall k :: 0 <= k < |visits| ==> visits[k].seen <= k
    ensures (forall k: nat :: a <= k <= b ==> Waiting(h[k], i))
            <==> forall k: nat :: a <= k < b ==> !ClearsAt(rules, visits, h, k, i)
  {
    SeenBefore(rules, visits, h);
    var n := |visits|;
    var waiting := seq(n + 1, k requires 0 <= k <= n => Waiting(h[k], i));
    var clears := seq(n, k requires 0 <= k < n => ClearsAt(rules, visits, h, k, i));
    forall k | a <= k < b && waiting[k]
      ensures waiting[k + 1] <==> !clears[k]
    {
      WaitingStep(rules, visits, h, k, i);
    }
    StaysUpIff(waiting, clears, a, b);
    assert forall k: nat :: a <= k <= b ==> waiting[k] == Waiting(h[k], i);
    assert forall k: nat :: a <= k < b ==> clears[k] == ClearsAt(rules, visits, h, k, i);
  }

  /** Thread ids are never handed out twice. */
  predicate IdsApart(threads: seq<Thread>) {
    forall i, j :: 0 <= i < j < |threads| ==> threads[i].id != threads[j].id
  }

  /** A send that has seen the flag leaves it up. */
  lemma SeenFlagIsKept(rules: Rules, s: Store, seen: Store, w: Write, i: nat)
    requires w.SendWrite? && Extends(seen, s) && Waiting(seen, i) && IdsApart(s.threads)
    ensures !Clears(rules, s, seen, w, i)
  {
    var e := Existing(rules, seen.threads, w.m);
    if e.Some? && e.value != i {
      assert s.threads[e.value].id != s.threads[i].id;
    }
  }

  lemma RowsStay(s: Store, t: Store, i: nat)
    requires Extends(s, t) && i < |s.threads| && IdsApart(t.threads)
    ensures IdsApart(s.threads) && t.threads[i].id == s.threads[i].id
  {
    forall p, q | 0 <= p < q < |s.threads|
      ensures s.threads[p].id != s.threads[q].id
    {
      assert t.threads[p].id != t.threads[q].id;
    }
  }

  lemma NotCleared(rules: Rules, visits: seq<Visit>, h: seq<Store>, i: nat, a: nat, k: nat, b: nat)
    requires History(rules, visits, h) && a <= k < b < |h| && Waiting(h[a], i) && Waiting(h[k], i)
    requires visits[k].seen <= k && IdsApart(h[b].threads)
    requires visits[k].write.SendWrite? ==> Waiting(h[visits[k].seen], i)
    requires visits[k].write.ReplyWrite? ==> visits[k].write.id != h[a].threads[i].id
    ensures !ClearsAt(rules, visits, h, k, i)
  {
    LaterExtends(rules, visits, h, k, b);
    RowsStay(h[k], h[b], i);
    LaterExtends(rules, visits, h, a, k);
    RowsStay(h[a], h[k], i);
    if visits[k].write.SendWrite? {
      LaterExtends(rules, visits, h, visits[k].seen, k);
      SeenFlagIsKept(rules, h[k], h[visits[k].seen], visits[k].write, i);
    }
  }

  /**
   * A waiting reply keeps waiting until someone answers in that very thread, as long as every send that writes
   * meanwhile has read the thread while the reply was waiting.
   */
  lemma WaitsUntilAnswered(rules: Rules, visits: seq<Visit>, h: seq<Store>, i: nat, a: nat, b: nat)
    requires History(rules, visits, h) && a <= b < |h| && Waiting(h[a], i) && IdsApart(h[b].threads)
    requires forall k :: a <= k < b && visits[k].write.SendWrite? ==> a <= visits[k].seen
    requires forall k :: a <= k < b && visits[k].write.ReplyWrite? ==> visits[k].write.id != h[a].threads[i].id
    ensures forall k: nat :: a <= k <= b ==> Waiting(h[k], i)
  {
    SeenBefore(rules, visits, h);
    var waiting := seq(|h|, k requires 0 <= k < |h| => Waiting(h[k], i));
    forall k: nat | a <= k <= b
      ensures Waiting(h[k], i)
    {
      if !waiting[k] {
        var m := GoesDown(waiting, a, k);
        assert waiting[m] && (visits[m].write.SendWrite? ==> waiting[visits[m].seen]);
        NotCleared(rules, visits, h, i, a, m, b);
        WaitingStep(rules, visits, h, m, i);
        assert false;
      }
    }
  }

  // ----- What the locks keep ---------------------------------------------------------------------------------------

  predicate SameConversation(rules: Rules, a: Send, b: Send) {
    && a.workspace == b.workspace && a.client == b.client && Lower(a.email) == Lower(b.email)
    && rules.base(a.subject) == rules.base(b.subject)
  }

  function MessageOf(w: Write): Option<nat> {
    match w
    case SendWrite(m, _, _) => m.messageId
    case ReplyWrite(_, messageId, _) => messageId
    case InboundInsert(_, _) => None
    case FlagWrite(_, _) => None
  }

  /** Sends into one conversation share a lock, and so do sends and replies of one message. */
  predicate ShareLock(rules: Rules, a: Write, b: Write) {
    || (a.SendWrite? && b.SendWrite? && SameConversation(rules, a.m, b.m))
    || (MessageOf(a).Some? && MessageOf(a) == MessageOf(b))
  }

  /** Whoever holds a lock reads what earlier holders have written. */
  predicate Locked(rules: Rules, visits: seq<Visit>) {
    forall j, k :: 0 <= j < k < |visits| && ShareLock(rules, visits[j].write, visits[k].write) ==> j < visits[k].seen
  }

  /** The key of a thread is that of the send that opened it. */
  predicate OpenedFor(rules: Rules, t: Thread, m: Send) {
    && t.workspace == m.workspace && t.client == m.client && t.email == Lower(m.email)
    && t.subject == rules.display(m.subject)
  }

  lemma {:induction false} RowOpenedBy(rules: Rules, visits: seq<Visit>, h: seq<Store>, v: nat, n: nat, p: nat)
      returns (j: nat)
    requires History(rules, visits, h) && v <= n < |h| && |h[v].threads| <= p < |h[n].threads|
    ensures v <= j < n && visits[j].write.SendWrite? && OpenedFor(rules, h[n].threads[p], visits[j].write.m)
    decreases n
  {
    var k := n - 1;
    assert Follows(rules, visits[k], h, k);
    ActExtends(rules, h[k], h[visits[k].seen], visits[k].write);
    if p < |h[k].threads| {
      j := RowOpenedBy(rules, visits, h, v, k, p);
    } else {
      j := k;
    }
  }

  /** The subject a new thread shows has the base of the subject it was added for. */
  predicate FaithfulSend(rules: Rules, w: Write) {
    w.SendWrite? ==> rules.base(rules.display(w.m.subject)) == rules.base(w.m.subject)
  }

  lemma NoOtherRow(rules: Rules, visits: seq<Visit>, h: seq<Store>, k: nat, p: nat)
    requires History(rules, visits, h) && Locked(rules, visits) && k < |visits| && visits[k].write.SendWrite?
    requires forall j :: 0 <= j < |visits| ==> FaithfulSend(rules, visits[j].write)
    requires visits[k].seen <= k && Existing(rules, h[visits[k].seen].threads, visits[k].write.m).None?
    requires p < |h[k].threads|
    ensures !Continues(rules, h[k].threads[p], visits[k].write.m)
  {
    var v := visits[k].seen;
    LaterExtends(rules, visits, h, v, k);
    if p < |h[v].threads| {
      assert !Continues(rules, h[v].threads[p], visits[k].write.m);
    } else {
      var j := RowOpenedBy(rules, visits, h, v, k, p);
      assert FaithfulSend(rules, visits[j].write);
      assert !ShareLock(rules, visits[j].write, visits[k].write);
    }
  }

  lemma OneThreadNext(rules: Rules, visits: seq<Visit>, h: seq<Store>, k: nat)
    requires History(rules, visits, h) && Locked(rules, visits) && k < |visits| && OneThread(rules, h[k])
    requires forall j :: 0 <= j < |visits| ==> FaithfulSend(rules, visits[j].write)
    ensures OneThread(rules, h[k + 1])
  {
    assert Follows(rules, visits[k], h, k);
    var s, t, w := h[k], h[k + 1], visits[k].write;
    ActExtends(rules, s, h[visits[k].seen], w);
    if |t.threads| > |s.threads| {
      forall p | 0 <= p < |s.threads|
        ensures !SameKey(rules, t.threads[p], t.threads[|s.threads|])
      {
        NoOtherRow(rules, visits, h, k, p);
        assert FaithfulSend(rules, w);
      }
    }
    RowsApart(rules, s, t);
  }

  lemma RowsApart(rules: Rules, s: Store, t: Store)
    requires Extends(s, t) && OneThread(rules, s) && |t.threads| <= |s.threads| + 1
    requires |t.threads| > |s.threads| ==>
               forall p :: 0 <= p < |s.threads| ==> !SameKey(rules, t.threads[p], t.threads[|s.threads|])
    ensures OneThread(rules, t)
  {
    forall p, q | 0 <= p < q < |t.threads|
      ensures !SameKey(rules, t.threads[p], t.threads[q])
    {
      if q < |s.threads| {
        assert !SameKey(rules, s.threads[p], s.threads[q]);
      }
    }
  }

  lemma {:induction false} OneThreadThroughout(rules: Rules, visits: seq<Visit>, h: seq<Store>, n: nat)
    requires History(rules, visits, h) && Locked(rules, visits) && n < |h| && OneThread(rules, h[0])
    requires forall j :: 0 <= j < |visits| ==> FaithfulSend(rules, visits[j].write)
    ensures OneThread(rules, h[n])
    decreases n
  {
    if n > 0 {
      OneThreadThroughout(rules, visits, h, n - 1);
      OneThreadNext(rules, visits, h, n - 1);
    }
  }

  /**
   * Under the locks, subjects with at most ten stacked prefixes never split a conversation, however writes interleave.
   */
  lemma OneThreadPerSubject(visits: seq<Visit>, h: seq<Store>, n: nat)
    requires History(RULES, visits, h) && Locked(RULES, visits) && n < |h| && h[0] == Store([], [])
    requires forall k :: 0 <= k < |visits| && visits[k].write.SendWrite? ==>
                           Subjects.PrefixCount(visits[k].write.m.subject) <= Subjects.MAX_STRIPS
    ensures OneThread(RULES, h[n])
  {
    forall k | 0 <= k < |visits|
      ensures FaithfulSend(RULES, visits[k].write)
    {
      if visits[k].write.SendWrite? {
        Subjects.DisplayKeepsBase(visits[k].write.m.subject);
      }
    }
    OneThreadThroughout(RULES, visits, h, n);
  }

  lemma {:induction false} EntryAddedBy(rules: Rules, visits: seq<Visit>, h: seq<Store>, v: nat, n: nat, q: nat)
      returns (j: nat)
    requires History(rules, visits, h) && v <= n < |h| && |h[v].entries| <= q < |h[n].entries|
    ensures v <= j < n
    ensures h[n].entries[q].direction == Outbound ==> MessageOf(visits[j].write) == h[n].entries[q].messageId
    decreases n
  {
    var k := n - 1;
    assert Follows(rules, visits[k], h, k);
    ActExtends(rules, h[k], h[visits[k].seen], visits[k].write);
    if q < |h[k].entries| {
      j := EntryAddedBy(rules, visits, h, v, k, q);
    } else {
      j := k;
    }
  }

  /** A new thread's id is on no entry yet. */
  predicate FreshId(s: Store, w: Write) {
    w.SendWrite? ==> forall q :: 0 <= q < |s.entries| ==> s.entries[q].threadId != w.newId
  }

  lemma NotRecordedTwice(rules: Rules, visits: seq<Visit>, h: seq<Store>, k: nat, q: nat)
    requires History(rules, visits, h) && Locked(rules, visits) && k < |visits| && FreshId(h[k], visits[k].write)
    requires |h[k + 1].entries| > |h[k].entries| && q < |h[k].entries|
    requires var e, added := h[k].entries[q], h[k + 1].entries[|h[k].entries|];
             e.direction == added.direction == Outbound && e.messageId.Some? && e.messageId == added.messageId
    ensures h[k].entries[q].threadId != h[k + 1].entries[|h[k].entries|].threadId
  {
    assert Follows(rules, visits[k], h, k);
    var v, w := visits[k].seen, visits[k].write;
    LaterExtends(rules, visits, h, v, k);
    if q < |h[v].entries| {
      RecordedWhenRead(rules, h[k], h[v], w, q);
    } else {
      var j := EntryAddedBy(rules, visits, h, v, k, q);
      assert false;
    }
  }

  lemma RecordedWhenRead(rules: Rules, s: Store, seen: Store, w: Write, q: nat)
    requires Extends(seen, s) && q < |seen.entries| && FreshId(s, w)
    requires |Act(rules, s, seen, w).entries| > |s.entries|
    requires var e, added := s.entries[q], Act(rules, s, seen, w).entries[|s.entries|];
             e.direction == added.direction == Outbound && e.messageId.Some? && e.messageId == added.messageId
    ensures s.entries[q].threadId != Act(rules, s, seen, w).entries[|s.entries|].threadId
  {
    var e := seen.entries[q];
    assert e == s.entries[q] && e in seen.entries;
    if w.SendWrite? {
      var i := Existing(rules, seen.threads, w.m);
      if i.Some? {
        assert seen.threads[i.value] in seen.threads;
        assert !Records(seen, e, w.m);
      }
    } else {
      assert !IsOutbound(e, w.id, w.messageId);
    }
  }

  /** Under the locks, no thread ever holds two outbound entries for one message, however writes interleave. */
  lemma {:induction false} OneEntryPerMessage(rules: Rules, visits: seq<Visit>, h: seq<Store>, n: nat)
    requires History(rules, visits, h) && Locked(rules, visits) && n < |h| && h[0] == Store([], [])
    requires forall k :: 0 <= k < |visits| ==> FreshId(h[k], visits[k].write)
    ensures OncePerThread(h[n])
    decreases n
  {
    if n > 0 {
      var k := n - 1;
      OneEntryPerMessage(rules, visits, h, k);
      assert Follows(rules, visits[k], h, k);
      AtMostOneEntry(rules, h[k], h[visits[k].seen], visits[k].write);
      forall q | 0 <= q < |h[k].entries| && |h[n].entries| > |h[k].entries|
                   && h[k].entries[q].direction == h[n].entries[|h[k].entries|].direction == Outbound
                   && h[k].entries[q].messageId.Some?
                   && h[k].entries[q].messageId == h[n].entries[|h[k].entries|].messageId
        ensures h[k].entries[q].threadId != h[n].entries[|h[k].entries|].threadId
      {
        NotRecordedTwice(rules, visits, h, k, q);
      }
    }
  }

  lemma AtMostOneEntry(rules: Rules, s: Store, seen: Store, w: Write)
    ensures var t := Act(rules, s, seen, w); s.entries <= t.entries && |t.entries| <= |s.entries| + 1
  {
  }

  // ----- A send that loses a flag ----------------------------------------------------------------------------------

  /** Two writes of somebody else between the read and the write of a third. */
  function Between(rules: Rules, start: Store, a: Write, b: Write, c: Write): seq<Store> {
    var s1 := Act(rules, start, start, a);
    var s2 := Act(rules, s1, s1, b);
    [start, s1, s2, Act(rules, s2, start, c)]
  }

  lemma BetweenIsHistory(rules: Rules, start: Store, a: Write, b: Write, c: Write)
    requires MessageOf(a).None? && !a.SendWrite? && MessageOf(b).None? && !b.SendWrite?
    ensures var visits := [Visit(0, a), Visit(1, b), Visit(0, c)];
            History(rules, visits, Between(rules, start, a, b, c)) && Locked(rules, visits)
  {
    var visits := [Visit(0, a), Visit(1, b), Visit(0, c)];
    var h := Between(rules, start, a, b, c);
    assert Follows(rules, visits[0], h, 0) && Follows(rules, visits[1], h, 1) && Follows(rules, visits[2], h, 2);
  }

  /**
   * A send reads a thread as open; a reply arrives and raises the flag; the send writes "open" over it, and nobody
   * has answered. No lock stands in the way.
   */
  lemma LateSendClears(rules: Rules, start: Store, m: Send, now: int, newId: nat, i: nat)
    requires !Recorded(start, m) && Existing(rules, start.threads, m) == Some(i) && start.threads[i].status == Open
    ensures var id := start.threads[i].id;
            var visits := [Visit(0, InboundInsert(id, now)), Visit(1, FlagWrite(id, now)),
                           Visit(0, SendWrite(m, now, newId))];
            var h := Between(rules, start, InboundInsert(id, now), FlagWrite(id, now), SendWrite(m, now, newId));
            && History(rules, visits, h) && Locked(rules, visits) && h[0] == start
            && Waiting(h[2], i) && i < |h[3].threads| && h[3].threads[i].status == Open
  {
    var id := start.threads[i].id;
    BetweenIsHistory(rules, start, InboundInsert(id, now), FlagWrite(id, now), SendWrite(m, now, newId));
  }
}
