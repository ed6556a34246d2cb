/** What one thread per subject and one entry per message mean, and what two sends in a row do. */
module ConversationRuns {
  import opened Prelude
  import opened Texts
  import opened Conversations
  import Subjects

  // ----- One thread per contact and subject ---------------------------------------------------------------

  /** Workspace, client, address and base subject. */
  predicate SameKey(rules: Rules, a: Thread, b: Thread) {
    && a.workspace == b.workspace && a.client == b.client && a.email == b.email
    && rules.base(a.subject) == rules.base(b.subject)
  }

  ghost predicate OneThread(rules: Rules, s: Store) {
    forall i, j :: 0 <= i < j < |s.threads| ==> !SameKey(rules, s.threads[i], s.threads[j])
  }

  lemma FirstSend(rules: Rules, m: Send, now: int, id: nat)
    ensures Opened(rules, Store([], []), m, now, id)
         == Store([NewThread(rules, m, now, id)], [Entry(id, Outbound, m.messageId, now)])
  {
  }

  /** Two different messages with one subject for one contact. */
  predicate Twins(m: Send, n: Send) {
    && m.workspace == n.workspace && m.client == n.client && m.email == n.email && m.subject == n.subject
    && (m.messageId.None? || m.messageId != n.messageId)
  }

  /** The tables after two sends. */
  function AfterTwo(rules: Rules, m: Send, n: Send, now: int): Store {
    Opened(rules, Opened(rules, Store([], []), m, now, 1), n, now, 2)
  }

  /** A second send continues the first one's thread exactly when that thread shows the base it was opened for. */
  lemma TwoSends(rules: Rules, m: Send, n: Send, now: int)
    requires Twins(m, n)
    ensures OneThread(rules, AfterTwo(rules, m, n, now))
            <==> rules.base(rules.display(m.subject)) == rules.base(m.subject)
  {
    FirstSend(rules, m, now, 1);
    var first := Opened(rules, Store([], []), m, now, 1);
    var second := AfterTwo(rules, m, n, now);
    assert !Recorded(first, n);
    if rules.base(rules.display(m.subject)) == rules.base(m.subject) {
      assert Continues(rules, first.threads[0], n);
      assert |second.threads| == 1;
    } else {
      assert !Continues(rules, first.threads[0], n);
      assert SameKey(rules, second.threads[0], second.threads[1]);
    }
  }

  /** So a subject is safe to send twice exactly when its prefixes can all be peeled off. */
  lemma SafeToSendTwice(m: Send, n: Send, now: int)
    requires Twins(m, n)
    ensures OneThread(RULES, AfterTwo(RULES, m, n, now)) <==> Subjects.PrefixCount(m.subject) <= Subjects.MAX_STRIPS
  {
    TwoSends(RULES, m, n, now);
    Subjects.DisplayKeepsBase(m.subject);
  }

  // ----- One entry per message ---------------------------------------------------------------------------------

  /** Recording a message that is already recorded changes nothing at all. */
  lemma RecordedAgain(rules: Rules, s: Store, m: Send, now: int, newId: nat, later: int, otherId: nat)
    requires m.messageId.Some?
    ensures var once := Opened(rules, s, m, now, newId);
            Recorded(once, m) && Opened(rules, once, m, later, otherId) == once
  {
    var once := Opened(rules, s, m, now, newId);
    if !Recorded(s, m) {
      var e := once.entries[|once.entries| - 1];
      assert e in once.entries;
      match Existing(rules, s.threads, m) {
        case Some(i) =>
          assert once.threads[i] in once.threads && once.threads[i].id == e.threadId;
        case None =>
          assert once.threads[|s.threads|] in once.threads && once.threads[|s.threads|].id == e.threadId;
      }
      assert Records(once, e, m);
    }
  }

  /** No thread holds two outbound entries for one message. */
  ghost predicate OncePerThread(s: Store) {
    forall i, j :: 0 <= i < j < |s.entries| && s.entries[i].direction == Outbound && s.entries[j].direction == Outbound
                     && s.entries[i].messageId.Some? && s.entries[i].messageId == s.entries[j].messageId ==>
                       s.entries[i].threadId != s.entries[j].threadId
  }
}
