/**
 * Signups whose reads and writes interleave. A signup decides by the tables as it read them; no lock and no
 * transaction stands between its read and its writes, which are taken as one step here.
 */
module WaitlistOverlaps {
  import opened Prelude
  import opened Histories
  import opened Waitlist

  function Activated(contacts: seq<Contact>, id: nat): (r: seq<Contact>)
    ensures |r| == |contacts|
    ensures forall i :: 0 <= i < |r| ==>
                          r[i] == if contacts[i].id == id then contacts[i].(active := true) else contacts[i]
  {
    seq(|contacts|, i requires 0 <= i < |contacts| =>
      if contacts[i].id == id then contacts[i].(active := true) else contacts[i])
  }

  /** The unique index on workspace, client and address, which does not compare rows without a client. */
  predicate IndexRejects(contacts: seq<Contact>, s: Signup) {
    s.client.Some? && FindContact(contacts, s).Some?
  }

  function WithMembership(ms: seq<Membership>, m: Membership): seq<Membership> {
    if m in ms then ms else ms + [m]
  }

  /** What a signup that has read `seen` makes of `t`. A rejected insert throws before anything is written. */
  function SignupWritten(t: Tables, seen: Tables, s: Signup, room: int, now: int, newId: nat): Tables {
    if IsActiveMember(seen, s) then t
    else if TurnedAway(seen, s, room) then t.(events := t.events + [SignupEvent(Waitlisted, s, now)])
    else
      var c := FindContact(seen.contacts, s);
      if c.None? && IndexRejects(t.contacts, s) then t
      else
        var id := if c.Some? then seen.contacts[c.value].id else newId;
        Tables(
          t.events + [SignupEvent(Subscribed, s, now)],
          if c.Some? then Activated(t.contacts, id)
          else t.contacts + [Contact(newId, s.workspace, s.client, Normalized(s.email), true)],
          if AddsMember(seen, s) then WithMembership(t.memberships, Membership(s.list, id)) else t.memberships)
  }

  predicate ContactIdsApart(contacts: seq<Contact>) {
    forall i, j :: 0 <= i < j < |contacts| ==> contacts[i].id != contacts[j].id
  }

  /** With nothing in between, it is the signup in one step. */
  lemma UndisturbedSignup(t: Tables, s: Signup, room: int, now: int, newId: nat)
    requires ContactIdsApart(t.contacts) && Membership(s.list, newId) !in t.memberships
    ensures SignupWritten(t, t, s, room, now, newId) == AfterSignup(t, s, room, now, newId)
  {
    var c := FindContact(t.contacts, s);
    if c.Some? {
      var id := t.contacts[c.value].id;
      assert forall i :: 0 <= i < |t.contacts| && i != c.value ==> t.contacts[i].id != id;
      assert Activated(t.contacts, id) == t.contacts[c.value := t.contacts[c.value].(active := true)];
    }
  }

  /** A signup that makes a second contact: workspace-level, found nobody when it read, somebody when it writes. */
  predicate Doubles(t: Tables, seen: Tables, s: Signup, room: int) {
    && s.client.None? && room >= 1 && FindContact(seen.contacts, s).None? && FindContact(t.contacts, s).Some?
  }

  lemma ActivatedKeeps(contacts: seq<Contact>, id: nat)
    requires OneContactEach(contacts)
    ensures OneContactEach(Activated(contacts, id))
  {
  }

  lemma AppendedKeepsIff(contacts: seq<Contact>, s: Signup, newId: nat)
    requires OneContactEach(contacts)
    ensures OneContactEach(contacts + [Contact(newId, s.workspace, s.client, Normalized(s.email), true)])
            <==> FindContact(contacts, s).None?
  {
    var added := Contact(newId, s.workspace, s.client, Normalized(s.email), true);
    var all := contacts + [added];
    var c := FindContact(contacts, s);
    if c.Some? {
      assert all[c.value] == contacts[c.value] && all[|contacts|] == added;
    }
  }

  /** A signup makes a second contact for an address exactly when it doubles; memberships grow by one at most. */
  lemma SecondContactIff(t: Tables, seen: Tables, s: Signup, room: int, now: int, newId: nat)
    requires OneContactEach(t.contacts)
    ensures var after := SignupWritten(t, seen, s, room, now, newId);
            && (OneContactEach(after.contacts) <==> !Doubles(t, seen, s, room))
            && |t.memberships| <= |after.memberships| <= |t.memberships| + 1
            && (|after.memberships| > |t.memberships| ==> room >= 1)
  {
    var c := FindContact(seen.contacts, s);
    if c.Some? {
      ActivatedKeeps(t.contacts, seen.contacts[c.value].id);
    } else {
      AppendedKeepsIff(t.contacts, s, newId);
    }
  }

  // ----- Every run ----------------------------------------------------------------------------------------------

  datatype Visit = Visit(seen: nat, s: Signup, room: int, now: int, newId: nat)

  /** Signup `k` leads from `h[k]` to `h[k + 1]`. */
  predicate Follows(v: Visit, h: seq<Tables>, k: nat) {
    k + 1 < |h| && v.seen <= k && h[k + 1] == SignupWritten(h[k], h[v.seen], v.s, v.room, v.now, v.newId)
  }

  predicate History(visits: seq<Visit>, h: seq<Tables>) {
    && |h| == |visits| + 1
    && forall k: nat {:trigger Follows(visits[k], h, k)} :: k < |visits| ==> Follows(visits[k], h, k)
  }

  predicate DoublesAt(visits: seq<Visit>, h: seq<Tables>, k: nat) {
    && k < |visits| && k < |h| && visits[k].seen <= k
    && Doubles(h[k], h[visits[k].seen], visits[k].s, visits[k].room)
  }

  lemma ContactsNext(visits: seq<Visit>, h: seq<Tables>, k: nat)
    requires History(visits, h) && k < |visits| && OneContactEach(h[k].contacts)
    ensures OneContactEach(h[k + 1].contacts) <==> !DoublesAt(visits, h, k)
  {
    var v := visits[k];
    assert Follows(v, h, k);
    SecondContactIff(h[k], h[v.seen], v.s, v.room, v.now, v.newId);
  }

  /** However signups interleave, every address has one contact all along exactly when no signup doubles. */
  lemma OneContactIff(visits: seq<Visit>, h: seq<Tables>)
    requires History(visits, h) && OneContactEach(h[0].contacts)
    ensures (forall k: nat :: k < |h| ==> OneContactEach(h[k].contacts))
            <==> forall k: nat :: k < |visits| ==> !DoublesAt(visits, h, k)
  {
    var n := |visits|;
    var one := seq(n + 1, k requires 0 <= k <= n => OneContactEach(h[k].contacts));
    var doubles := seq(n, k requires 0 <= k < n => DoublesAt(visits, h, k));
    forall k | 0 <= k < n && one[k]
      ensures one[k + 1] <==> !doubles[k]
    {
      ContactsNext(visits, h, k);
    }
    StaysUpIff(one, doubles, 0, n);
    assert forall k: nat :: k <= n ==> one[k] == OneContactEach(h[k].contacts);
    assert forall k: nat :: k < n ==> doubles[k] == DoublesAt(visits, h, k);
  }

  /** Two signups of one person that both read before either writes. */
  function Together(start: Tables, s: Signup, room: int, now: int, a: nat, b: nat): seq<Tables> {
    var one := SignupWritten(start, start, s, room, now, a);
    [start, one, SignupWritten(one, start, s, room, now, b)]
  }

  lemma TogetherIsHistory(start: Tables, s: Signup, room: int, now: int, a: nat, b: nat)
    ensures History([Visit(0, s, room, now, a), Visit(0, s, room, now, b)], Together(start, s, room, now, a, b))
  {
    var visits, h := [Visit(0, s, room, now, a), Visit(0, s, room, now, b)], Together(start, s, room, now, a, b);
    assert Follows(visits[0], h, 0) && Follows(visits[1], h, 1);
  }

  lemma NewcomerFound(start: Tables, s: Signup, room: int, now: int, a: nat)
    requires FindContact(start.contacts, s).None? && room >= 1
    ensures FindContact(SignupWritten(start, start, s, room, now, a).contacts, s).Some?
  {
    var contacts := SignupWritten(start, start, s, room, now, a).contacts;
    assert IsFor(contacts[|start.contacts|], s);
  }

  /** For a new address they make two contacts exactly when it signs up with the workspace itself. */
  lemma TwoSignupsDoubleIff(start: Tables, s: Signup, room: int, now: int, a: nat, b: nat)
    requires OneContactEach(start.contacts) && FindContact(start.contacts, s).None? && room >= 1
    ensures History([Visit(0, s, room, now, a), Visit(0, s, room, now, b)], Together(start, s, room, now, a, b))
    ensures OneContactEach(Together(start, s, room, now, a, b)[2].contacts) <==> s.client.Some?
  {
    TogetherIsHistory(start, s, room, now, a, b);
    SecondContactIff(start, start, s, room, now, a);
    NewcomerFound(start, s, room, now, a);
    SecondContactIff(SignupWritten(start, start, s, room, now, a), start, s, room, now, b);
  }
}
