/** Admitting subscribers into an audience, and letting people in from the waitlist as room frees up. */
module Waitlist {
  import opened Prelude
  import opened Texts
  import Subjects

  const MAX_BATCH := 500

  datatype Kind = Waitlisted | Subscribed | Admitted | OtherKind

  /** One line of the append-only event log. */
  datatype Event = Event(kind: Kind, workspace: nat, client: Option<nat>, list: Option<nat>, email: Text, at: int)

  datatype Contact = Contact(id: nat, workspace: nat, client: Option<nat>, email: Text, active: bool)

  datatype Membership = Membership(list: nat, contactId: nat)

  datatype Tables = Tables(events: seq<Event>, contacts: seq<Contact>, memberships: seq<Membership>)

  // ----- The admission door ------------------------------------------------------------------------------

  datatype Signup = Signup(workspace: nat, client: Option<nat>, list: nat, email: Text)

  function Normalized(email: Text): Text {
    Lower(Subjects.Trim(email))
  }

  predicate IsFor(c: Contact, s: Signup) {
    c.workspace == s.workspace && c.client == s.client && c.email == Normalized(s.email)
  }

  function FindContact(contacts: seq<Contact>, s: Signup): (r: Option<nat>)
    ensures r.Some? ==> r.value < |contacts| && IsFor(contacts[r.value], s)
    ensures r.None? ==> forall i :: 0 <= i < |contacts| ==> !IsFor(contacts[i], s)
  {
    if contacts == [] then None
    else
      var before := FindContact(contacts[..|contacts| - 1], s);
      if before.None? && IsFor(contacts[|contacts| - 1], s) then Some(|contacts| - 1) else before
  }

  /** Whether the signup adds somebody to the list. */
  predicate AddsMember(t: Tables, s: Signup) {
    var c := FindContact(t.contacts, s);
    c.None? || Membership(s.list, t.contacts[c.value].id) !in t.memberships
  }

  predicate IsActiveMember(t: Tables, s: Signup) {
    var c := FindContact(t.contacts, s);
    c.Some? && t.contacts[c.value].active && Membership(s.list, t.contacts[c.value].id) in t.memberships
  }

  /** A full house: somebody new, and no slot for them. */
  predicate TurnedAway(t: Tables, s: Signup, room: int) {
    AddsMember(t, s) && room < 1
  }

  function SignupEvent(kind: Kind, s: Signup, now: int): Event {
    Event(kind, s.workspace, s.client, Some(s.list), Normalized(s.email), now)
  }

  /** One subscriber at the door. */
  function AfterSignup(t: Tables, s: Signup, room: int, now: int, newId: nat): Tables {
    if IsActiveMember(t, s) then t
    else if TurnedAway(t, s, room) then t.(events := t.events + [SignupEvent(Waitlisted, s, now)])
    else
      var c := FindContact(t.contacts, s);
      var id := if c.Some? then t.contacts[c.value].id else newId;
      Tables(
        t.events + [SignupEvent(Subscribed, s, now)],
        if c.Some? then t.contacts[c.value := t.contacts[c.value].(active := true)]
        else t.contacts + [Contact(newId, s.workspace, s.client, Normalized(s.email), true)],
        if AddsMember(t, s) then t.memberships + [Membership(s.list, id)] else t.memberships)
  }

  /** Whoever is not turned away is an active member afterwards, and signing up again changes nothing. */
  lemma SignupSticks(t: Tables, s: Signup, room: int, now: int, newId: nat, room': int, later: int, otherId: nat)
    requires !TurnedAway(t, s, room)
    ensures var after := AfterSignup(t, s, room, now, newId);
            IsActiveMember(after, s) && AfterSignup(after, s, room', later, otherId) == after
  {
    var after := AfterSignup(t, s, room, now, newId);
    if !IsActiveMember(t, s) {
      var c := FindContact(t.contacts, s);
      if c.None? {
        assert after.contacts[..|t.contacts|] == t.contacts;
        assert IsFor(after.contacts[|t.contacts|], s);
      } else {
        FindOther(t.contacts, s, c.value);
      }
    }
  }

  /** One contact per workspace, client and address. */
  ghost predicate OneContactEach(contacts: seq<Contact>) {
    forall i, j :: 0 <= i < j < |contacts| ==>
                     !(contacts[i].workspace == contacts[j].workspace && contacts[i].client == contacts[j].client
                       && contacts[i].email == contacts[j].email)
  }

  /** No signup ever makes a second contact for an address, or adds more than one membership. */
  lemma SignupAddsAtMostOne(t: Tables, s: Signup, room: int, now: int, newId: nat)
    requires OneContactEach(t.contacts)
    ensures var after := AfterSignup(t, s, room, now, newId);
            && OneContactEach(after.contacts)
            && |t.memberships| <= |after.memberships| <= |t.memberships| + 1
            && (|after.memberships| > |t.memberships| ==> room >= 1)
  {
    var after := AfterSignup(t, s, room, now, newId);
    var c := FindContact(t.contacts, s);
    if after.contacts != t.contacts && c.None? {
      assert forall i :: 0 <= i < |t.contacts| ==> !IsFor(t.contacts[i], s);
    }
  }

  // ----- The queue ---------------------------------------------------------------------------------------------

  /** A waitlisted event that no admission of the same person to the same list has answered. */
  predicate IsPending(e: Event, events: seq<Event>, org: set<nat>) {
    e.kind == Waitlisted && e.workspace in org && !Answered(e, events)
  }

  predicate Answered(e: Event, events: seq<Event>) {
    exists a :: a in events && a.kind == Admitted && SameKey(a, e) && a.at >= e.at
  }

  /** The pending events among `rows`, oldest first; the log is in time order. */
  function PendingRows(rows: seq<Event>, events: seq<Event>, org: set<nat>): seq<Event> {
    if rows == [] then []
    else (if IsPending(rows[0], events, org) then [rows[0]] else []) + PendingRows(rows[1..], events, org)
  }

  /** The oldest event per key; events without a list are passed over. */
  function Distinct(rows: seq<Event>): seq<Event> {
    if rows == [] then []
    else
      var before := Distinct(rows[..|rows| - 1]);
      var e := rows[|rows| - 1];
      if e.list.None? || Keyed(before, e) then before else before + [e]
  }

  predicate SameKey(a: Event, b: Event) {
    a.workspace == b.workspace && a.list == b.list && a.email == b.email
  }

  predicate Keyed(rows: seq<Event>, e: Event) {
    exists i :: 0 <= i < |rows| && SameKey(rows[i], e)
  }

  function Take(rows: seq<Event>, n: nat): seq<Event> {
    if |rows| <= n then rows else rows[..n]
  }

  /** The whole queue: the first event of each key that still waits, oldest first. */
  function Queue(events: seq<Event>, org: set<nat>): seq<Event> {
    Distinct(PendingRows(events, events, org))
  }

  /** The page of the queue one query gives: at most `limit` keys out of at most `3 * limit` events. */
  function Page(events: seq<Event>, org: set<nat>, limit: nat): seq<Event> {
    Take(Distinct(Take(PendingRows(events, events, org), limit * 3)), limit)
  }

  lemma {:induction false} DistinctGrows(rows: seq<Event>, k: nat)
    requires k <= |rows|
    ensures Distinct(rows[..k]) <= Distinct(rows)
  {
    if k == |rows| {
      assert rows[..k] == rows;
    } else {
      DistinctGrows(rows[..|rows| - 1], k);
      assert rows[..|rows| - 1][..k] == rows[..k];
    }
  }

  /** However many repeats the cut hides, a page is the front of the queue. */
  lemma PageIsFront(events: seq<Event>, org: set<nat>, limit: nat)
    ensures Page(events, org, limit) <= Queue(events, org) && |Page(events, org, limit)| <= limit
  {
    var rows := PendingRows(events, events, org);
    if |rows| > limit * 3 {
      DistinctGrows(rows, limit * 3);
    }
  }

  lemma {:induction false} PendingRowsShape(rows: seq<Event>, events: seq<Event>, org: set<nat>)
    ensures forall e :: e in PendingRows(rows, events, org) <==> e in rows && IsPending(e, events, org)
  {
    if rows != [] {
      PendingRowsShape(rows[1..], events, org);
      assert rows == [rows[0]] + rows[1..];
    }
  }

  lemma {:induction false} DistinctShape(rows: seq<Event>)
    ensures forall e :: e in Distinct(rows) ==> e in rows && e.list.Some?
    ensures forall i, j :: 0 <= i < j < |Distinct(rows)| ==> !SameKey(Distinct(rows)[i], Distinct(rows)[j])
  {
    if rows != [] {
      DistinctShape(rows[..|rows| - 1]);
      assert rows == rows[..|rows| - 1] + [rows[|rows| - 1]];
    }
  }

  // ----- What a batch of admissions does to the queue -------------------------------------------------------------

  /** Events that only admit: they put nobody on the waitlist. */
  predicate OnlyAdmits(added: seq<Event>, done: seq<Event>, now: int) {
    && (forall i :: 0 <= i < |added| ==> added[i].kind == Subscribed || added[i].kind == Admitted)
    && (forall i :: 0 <= i < |added| && added[i].kind == Admitted ==> Keyed(done, added[i]))
    && (forall k {:trigger AdmittedIn(added, done[k], now)} :: 0 <= k < |done| ==> AdmittedIn(added, done[k], now))
  }

  predicate AdmittedIn(added: seq<Event>, e: Event, now: int) {
    exists i :: 0 <= i < |added| && added[i].kind == Admitted && SameKey(added[i], e) && added[i].at == now
  }

  function Without(rows: seq<Event>, done: seq<Event>): seq<Event> {
    if rows == [] then []
    else (if Keyed(done, rows[0]) then [] else [rows[0]]) + Without(rows[1..], done)
  }

  lemma PendingAfter(e: Event, events: seq<Event>, added: seq<Event>, done: seq<Event>, org: set<nat>, now: int)
    requires OnlyAdmits(added, done, now) && e.at <= now
    ensures IsPending(e, events + added, org) <==> IsPending(e, events, org) && !Keyed(done, e)
  {
    var all := events + added;
    if Keyed(done, e) {
      var k :| 0 <= k < |done| && SameKey(done[k], e);
      assert AdmittedIn(added, done[k], now);
      var i :| 0 <= i < |added| && added[i].kind == Admitted && SameKey(added[i], done[k]) && added[i].at == now;
      assert added[i] in all && SameKey(added[i], e);
    }
    if a :| a in events && a.kind == Admitted && SameKey(a, e) && a.at >= e.at {
      assert a in all;
    }
    if a :| a in all && a.kind == Admitted && SameKey(a, e) && a.at >= e.at {
      if a !in events {
        var i :| 0 <= i < |added| && added[i] == a;
        var k :| 0 <= k < |done| && SameKey(done[k], added[i]);
        assert SameKey(done[k], e);
      }
    }
  }

  lemma {:induction false} RowsAfter(rows: seq<Event>, events: seq<Event>, added: seq<Event>, done: seq<Event>,
                                     org: set<nat>, now: int)
    requires OnlyAdmits(added, done, now) && forall i :: 0 <= i < |rows| ==> rows[i].at <= now
    ensures PendingRows(rows, events + added, org) == Without(PendingRows(rows, events, org), done)
  {
    if rows != [] {
      RowsAfter(rows[1..], events, added, done, org, now);
      PendingAfter(rows[0], events, added, done, org, now);
      var rest := PendingRows(rows[1..], events, org);
      assert ([rows[0]] + rest)[1..] == rest;
      var before := PendingRows(rows, events, org);
      if IsPending(rows[0], events, org) {
        assert before == [rows[0]] + rest;
        assert Without(before, done) == (if Keyed(done, rows[0]) then [] else [rows[0]]) + Without(rest, done);
      } else {
        assert before == rest;
      }
    }
  }

  lemma {:induction false} NothingPendingAdded(added: seq<Event>, events: seq<Event>, org: set<nat>)
    requires forall i :: 0 <= i < |added| ==> added[i].kind != Waitlisted
    ensures PendingRows(added, events, org) == []
  {
    if added != [] {
      NothingPendingAdded(added[1..], events, org);
    }
  }

  lemma {:induction false} RowsConcat(a: seq<Event>, b: seq<Event>, events: seq<Event>, org: set<nat>)
    ensures PendingRows(a + b, events, org) == PendingRows(a, events, org) + PendingRows(b, events, org)
  {
    if a == [] {
      assert a + b == b;
    } else {
      RowsConcat(a[1..], b, events, org);
      assert (a + b)[1..] == a[1..] + b;
      var head := if IsPending(a[0], events, org) then [a[0]] else [];
      var x, y := PendingRows(a[1..], events, org), PendingRows(b, events, org);
      assert head + (x + y) == head + x + y;
    }
  }

  lemma {:induction false} WithoutSnoc(rows: seq<Event>, e: Event, done: seq<Event>)
    ensures Without(rows + [e], done) == Without(rows, done) + (if Keyed(done, e) then [] else [e])
  {
    if rows == [] {
      assert (rows + [e])[1..] == [];
    } else {
      WithoutSnoc(rows[1..], e, done);
      assert (rows + [e])[1..] == rows[1..] + [e];
    }
  }

  lemma {:induction false} WithoutKeeps(rows: seq<Event>, done: seq<Event>)
    ensures forall e :: e in Without(rows, done) <==> e in rows && !Keyed(done, e)
  {
    if rows != [] {
      WithoutKeeps(rows[1..], done);
      assert rows == [rows[0]] + rows[1..];
    }
  }

  lemma KeyedWithout(rows: seq<Event>, done: seq<Event>, e: Event)
    requires !Keyed(done, e)
    ensures Keyed(Without(rows, done), e) <==> Keyed(rows, e)
  {
    WithoutKeeps(rows, done);
    if i :| 0 <= i < |rows| && SameKey(rows[i], e) {
      assert rows[i] in Without(rows, done) by {
        forall k | 0 <= k < |done|
          ensures !SameKey(done[k], rows[i])
        {
          assert !SameKey(done[k], e);
        }
      }
      var j :| 0 <= j < |Without(rows, done)| && Without(rows, done)[j] == rows[i];
    }
    if i :| 0 <= i < |Without(rows, done)| && SameKey(Without(rows, done)[i], e) {
      assert Without(rows, done)[i] in rows;
    }
  }

  /** Taking keys out and keeping first occurrences commute. */
  lemma {:induction false} DistinctWithout(rows: seq<Event>, done: seq<Event>)
    ensures Distinct(Without(rows, done)) == Without(Distinct(rows), done)
  {
    if rows != [] {
      var front, e := rows[..|rows| - 1], rows[|rows| - 1];
      DistinctWithout(front, done);
      assert rows == front + [e];
      WithoutSnoc(front, e, done);
      WithoutSnoc(Distinct(front), e, done);
      var w := Without(front, done);
      if Keyed(done, e) {
        assert Without(rows, done) == w;
        assert Distinct(rows) == Distinct(front) || Distinct(rows) == Distinct(front) + [e];
      } else {
        KeyedWithout(Distinct(front), done, e);
        assert Without(rows, done) == w + [e];
        assert (w + [e])[..|w|] == w;
        assert Distinct(w + [e]) == if e.list.None? || Keyed(Distinct(w), e) then Distinct(w) else Distinct(w) + [e];
      }
    }
  }

  lemma {:induction false} WithoutFront(rows: seq<Event>, n: nat)
    requires n <= |rows|
    requires forall i, j :: 0 <= i < j < |rows| ==> !SameKey(rows[i], rows[j])
    ensures Without(rows, rows[..n]) == rows[n..]
  {
    WithoutFrontFrom(rows, n, 0);
    assert rows[0..] == rows;
  }

  lemma {:induction false} WithoutFrontFrom(rows: seq<Event>, n: nat, k: nat)
    requires n <= |rows| && k <= |rows|
    requires forall i, j :: 0 <= i < j < |rows| ==> !SameKey(rows[i], rows[j])
    ensures Without(rows[k..], rows[..n]) == if k <= n then rows[n..] else rows[k..]
    decreases |rows| - k
  {
    if k < |rows| {
      WithoutFrontFrom(rows, n, k + 1);
      assert rows[k..][0] == rows[k] && rows[k..][1..] == rows[k + 1..];
      if k < n {
        assert SameKey(rows[..n][k], rows[k]);
      } else {
        assert !Keyed(rows[..n], rows[k]);
      }
    }
  }

  /** Admitting the front of the queue leaves exactly the rest of the queue. */
  lemma QueueAdvances(events: seq<Event>, added: seq<Event>, done: seq<Event>, org: set<nat>, now: int)
    requires OnlyAdmits(added, done, now) && forall i :: 0 <= i < |events| ==> events[i].at <= now
    requires done <= Queue(events, org)
    ensures Queue(events + added, org) == Queue(events, org)[|done|..]
  {
    var all := events + added;
    var rows := PendingRows(events, events, org);
    RowsConcat(events, added, all, org);
    NothingPendingAdded(added, all, org);
    RowsAfter(events, events, added, done, org, now);
    assert PendingRows(all, all, org) == Without(rows, done);
    DistinctWithout(rows, done);
    DistinctShape(rows);
    WithoutFront(Distinct(rows), |done|);
    assert Distinct(rows)[..|done|] == done;
  }

  // ----- The tables -----------------------------------------------------------------------------------------------

  datatype Outcome = In | Full

  class Growth {
    var events: seq<Event>
    var contacts: seq<Contact>
    var memberships: seq<Membership>
    const lists: set<nat>

    function Contents(): Tables
      reads this
    {
      Tables(events, contacts, memberships)
    }

    /** Events never lie in the future. */
    ghost predicate Dated(now: int)
      reads this
    {
      forall i :: 0 <= i < |events| ==> events[i].at <= now
    }

    constructor (lists: set<nat>)
      ensures this.lists == lists && Contents() == Tables([], [], [])
    {
      this.lists := lists;
      events, contacts, memberships := [], [], [];
    }

    method Emit(e: Event)
      modifies this`events
      ensures events == old(events) + [e]
    {
      events := events + [e];
    }

    method Find(s: Signup) returns (r: Option<nat>)
      ensures r == FindContact(contacts, s)
    {
      r := None;
      for i := 0 to |contacts|
        invariant r == FindContact(contacts[..i], s)
      {
        assert contacts[..i + 1][..i] == contacts[..i];
        if r.None? && IsFor(contacts[i], s) {
          r := Some(i);
        }
      }
      assert contacts[..|contacts|] == contacts;
    }

    /** Admit one subscriber into an audience, or put them on the waitlist. */
    method AdmitSubscriber(s: Signup, room: int, now: int, newId: nat) returns (r: Outcome)
      modifies this
      ensures Contents() == AfterSignup(old(Contents()), s, room, now, newId)
      ensures r == Full <==> TurnedAway(old(Contents()), s, room)
    {
      var found := Find(s);
      var member := found.Some? && Membership(s.list, contacts[found.value].id) in memberships;
      if found.Some? && member && contacts[found.value].active {
        return In;
      }
      if !member && room < 1 {
        Emit(SignupEvent(Waitlisted, s, now));
        return Full;
      }
      var id := newId;
      if found.None? {
        contacts := contacts + [Contact(newId, s.workspace, s.client, Normalized(s.email), true)];
      } else {
        id := contacts[found.value].id;
        contacts := contacts[found.value := contacts[found.value].(active := true)];
      }
      if !member {
        memberships := memberships + [Membership(s.list, id)];
      }
      Emit(SignupEvent(Subscribed, s, now));
      return In;
    }

    method PendingWaitlist(org: set<nat>, limit: nat) returns (page: seq<Event>)
      requires limit > 0
      ensures page == Page(events, org, limit)
    {
      var rows := Take(PendingRows(events, events, org), limit * 3);
      page := [];
      for i := 0 to |rows|
        invariant page == Distinct(rows[..i]) && |page| < limit
      {
        assert rows[..i + 1][..i] == rows[..i];
        if rows[i].list.None? || Keyed(page, rows[i]) {
          continue;
        }
        page := page + [rows[i]];
        if |page| >= limit {
          DistinctGrows(rows, i + 1);
          return;
        }
      }
      assert rows[..|rows|] == rows;
    }

    /** Deal with one waiting person; an audience that is gone only retires the entry. */
    method LetIn(p: Event, room: int, now: int, newId: nat) returns (r: Outcome, counted: bool)
      requires p.list.Some?
      modifies this
      ensures r == Full <==> p.list.value in lists && TurnedAway(old(Contents()), WaitingSignup(p), room)
      ensures r == In ==>
                && Contents() == AfterWaiting(old(Contents()), p, lists, room, now, newId)
                && counted == (p.list.value in lists)
      ensures r == Full ==> !counted && Contents() == AfterSignup(old(Contents()), WaitingSignup(p), room, now, newId)
    {
      r, counted := In, false;
      if p.list.value in lists {
        r := AdmitSubscriber(WaitingSignup(p), room, now, newId);
        if r == Full {
          return;
        }
        counted := true;
      }
      Emit(Event(Admitted, p.workspace, p.client, p.list, p.email, now));
    }

    /** The same, as one step through a page of which `done` has been dealt with since `start`. */
    method LetInNext(p: Event, room: int, now: int, newId: nat, ghost start: seq<Event>, ghost done: seq<Event>)
        returns (counted: bool)
      requires p.list.Some? && room >= 1 && Progress(start, Contents(), done, lists, now)
      modifies this
      ensures Progress(start, Contents(), done + [p], lists, now)
      ensures |memberships| <= |old(memberships)| + if counted then 1 else 0
    {
      ghost var before := Contents();
      var r;
      r, counted := LetIn(p, room, now, newId);
      ProgressMade(start, before, done, p, lists, room, now, newId);
    }

    /** Go through one page of the queue, which is no longer than there is room. */
    method AdmitPage(pending: seq<Event>, capacity: int, now: int, newIds: seq<nat>) returns (admitted: nat)
      requires |pending| <= capacity && |pending| <= |newIds|
      requires forall i :: 0 <= i < |pending| ==> pending[i].list.Some?
      modifies this
      ensures admitted <= |pending| && |memberships| <= |old(memberships)| + admitted
      ensures Progress(old(events), Contents(), pending, lists, now)
    {
      admitted := 0;
      var i := 0;
      while i < |pending| && admitted < capacity
        invariant i <= |pending| && admitted <= i
        invariant |memberships| <= |old(memberships)| + admitted
        invariant Progress(old(events), Contents(), pending[..i], lists, now)
      {
        assert pending[..i + 1] == pending[..i] + [pending[i]];
        var counted := LetInNext(pending[i], capacity - admitted, now, newIds[i], old(events), pending[..i]);
        if counted {
          admitted := admitted + 1;
        }
        i := i + 1;
      }
      assert pending[..i] == pending;
    }

    /**
     * Let in as many waiting people as `capacity` allows, oldest first. Afterwards the queue is the old one
     * without the front that was dealt with; nobody is put back on it, and at most `capacity` people joined.
     */
    method AdmitWaitlisted(org: set<nat>, capacity: int, now: int, newIds: seq<nat>) returns (admitted: nat)
      requires Dated(now) && |newIds| >= MAX_BATCH
      modifies this
      ensures capacity < 1 ==> admitted == 0 && Contents() == old(Contents())
      ensures capacity >= 1 ==>
                && admitted <= capacity && |memberships| <= |old(memberships)| + admitted
                && var done := Page(old(events), org, Min(capacity, MAX_BATCH));
                   Queue(old(events), org) == done + Queue(events, org) && AllIn(Contents(), done, lists)
    {
      if capacity < 1 {
        return 0;
      }
      var limit := Min(capacity, MAX_BATCH);
      var pending := PendingWaitlist(org, limit);
      PageIsFront(events, org, limit);
      PageHasLists(events, org, limit);
      ghost var start := events;
      admitted := AdmitPage(pending, capacity, now, newIds);
      ProgressAdvances(start, Contents(), pending, lists, org, now);
    }
  }

  function Min(a: int, b: int): int {
    if a < b then a else b
  }

  function WaitingSignup(e: Event): Signup
    requires e.list.Some?
  {
    Signup(e.workspace, e.client, e.list.value, e.email)
  }

  function AfterWaiting(t: Tables, p: Event, lists: set<nat>, room: int, now: int, newId: nat): Tables
    requires p.list.Some?
  {
    var u := if p.list.value in lists then AfterSignup(t, WaitingSignup(p), room, now, newId) else t;
    u.(events := u.events + [Event(Admitted, p.workspace, p.client, p.list, p.email, now)])
  }

  /** Those whose audience still exists are active members of it. */
  predicate AllIn(t: Tables, done: seq<Event>, lists: set<nat>) {
    forall j :: 0 <= j < |done| && done[j].list.Some? && done[j].list.value in lists ==>
                  IsActiveMember(t, WaitingSignup(done[j]))
  }

  /** Since `start` only admissions were logged, and the people in `done` have been dealt with. */
  predicate Progress(start: seq<Event>, t: Tables, done: seq<Event>, lists: set<nat>, now: int) {
    start <= t.events && OnlyAdmits(t.events[|start|..], done, now) && AllIn(t, done, lists)
  }

  lemma ProgressMade(start: seq<Event>, t: Tables, done: seq<Event>, p: Event, lists: set<nat>, room: int, now: int,
                     newId: nat)
    requires p.list.Some? && Progress(start, t, done, lists, now)
    requires p.list.value in lists ==> !TurnedAway(t, WaitingSignup(p), room)
    ensures var after := AfterWaiting(t, p, lists, room, now, newId);
            Progress(start, after, done + [p], lists, now)
            && |after.memberships| <= |t.memberships| + if p.list.value in lists then 1 else 0
  {
    var u := if p.list.value in lists then AfterSignup(t, WaitingSignup(p), room, now, newId) else t;
    var after := AfterWaiting(t, p, lists, room, now, newId);
    var e := Event(Admitted, p.workspace, p.client, p.list, p.email, now);
    if p.list.value in lists {
      StaysActive(t, done, lists, WaitingSignup(p), room, now, newId);
    }
    SameActive(u, after, done + [p], lists);
    assert after.events[|start|..] == u.events[|start|..] + [e];
    OneMoreAdmitted(t.events[|start|..], u.events[|start|..], done, p, e, now);
  }

  lemma ProgressAdvances(start: seq<Event>, t: Tables, done: seq<Event>, lists: set<nat>, org: set<nat>, now: int)
    requires Progress(start, t, done, lists, now) && forall i :: 0 <= i < |start| ==> start[i].at <= now
    requires done <= Queue(start, org)
    ensures Queue(start, org) == done + Queue(t.events, org)
  {
    QueueAdvances(start, t.events[|start|..], done, org, now);
    assert t.events == start + t.events[|start|..];
  }

  lemma SameActive(u: Tables, after: Tables, done: seq<Event>, lists: set<nat>)
    requires u.contacts == after.contacts && u.memberships == after.memberships && AllIn(u, done, lists)
    ensures AllIn(after, done, lists)
  {
    forall j | 0 <= j < |done| && done[j].list.Some? && done[j].list.value in lists
      ensures IsActiveMember(after, WaitingSignup(done[j]))
    {
      assert IsActiveMember(u, WaitingSignup(done[j]));
    }
  }

  lemma PageHasLists(events: seq<Event>, org: set<nat>, limit: nat)
    ensures forall i :: 0 <= i < |Page(events, org, limit)| ==> Page(events, org, limit)[i].list.Some?
  {
    var rows := Distinct(Take(PendingRows(events, events, org), limit * 3));
    DistinctShape(Take(PendingRows(events, events, org), limit * 3));
    forall i | 0 <= i < |Take(rows, limit)|
      ensures Take(rows, limit)[i].list.Some?
    {
      assert Take(rows, limit)[i] == rows[i] && rows[i] in rows;
    }
  }

  lemma OneMoreAdmitted(added: seq<Event>, more: seq<Event>, done: seq<Event>, p: Event, e: Event, now: int)
    requires OnlyAdmits(added, done, now) && SameKey(e, p) && e.kind == Admitted && e.at == now
    requires more == added || (|more| == |added| + 1 && more[..|added|] == added && more[|added|].kind == Subscribed)
    ensures OnlyAdmits(more + [e], done + [p], now)
  {
    var all, keys := more + [e], done + [p];
    assert forall j :: 0 <= j < |added| ==> all[j] == added[j];
    forall j | 0 <= j < |all| && all[j].kind == Admitted
      ensures Keyed(keys, all[j])
    {
      if j < |added| {
        var k :| 0 <= k < |done| && SameKey(done[k], added[j]);
        assert SameKey(keys[k], all[j]);
      } else {
        assert SameKey(keys[|done|], all[j]);
      }
    }
    forall k | 0 <= k < |keys|
      ensures AdmittedIn(all, keys[k], now)
    {
      if k < |done| {
        assert AdmittedIn(added, done[k], now);
        var j :| 0 <= j < |added| && added[j].kind == Admitted && SameKey(added[j], done[k]) && added[j].at == now;
        assert all[j].kind == Admitted && SameKey(all[j], keys[k]) && all[j].at == now;
      } else {
        assert all[|more|].kind == Admitted && SameKey(all[|more|], keys[k]) && all[|more|].at == now;
      }
    }
  }

  /** Admitting one person leaves those admitted before as they are. */
  lemma StaysActive(t: Tables, done: seq<Event>, lists: set<nat>, s: Signup, room: int, now: int, newId: nat)
    requires !TurnedAway(t, s, room) && AllIn(t, done, lists)
    ensures var after := AfterSignup(t, s, room, now, newId);
            IsActiveMember(after, s) && AllIn(after, done, lists)
  {
    var after := AfterSignup(t, s, room, now, newId);
    SignupSticks(t, s, room, now, newId, room, now, newId);
    forall j | 0 <= j < |done| && done[j].list.Some? && done[j].list.value in lists
      ensures IsActiveMember(after, WaitingSignup(done[j]))
    {
      OtherStaysActive(t, WaitingSignup(done[j]), s, room, now, newId);
    }
  }

  lemma OtherStaysActive(t: Tables, o: Signup, s: Signup, room: int, now: int, newId: nat)
    requires !TurnedAway(t, s, room) && IsActiveMember(t, o)
    ensures IsActiveMember(AfterSignup(t, s, room, now, newId), o)
  {
    var after := AfterSignup(t, s, room, now, newId);
    var c, mine := FindContact(t.contacts, s), FindContact(t.contacts, o);
    if after != t {
      if c.None? {
        assert after.contacts[..|t.contacts|] == t.contacts;
      } else {
        FindOther(t.contacts, o, c.value);
      }
      assert FindContact(after.contacts, o) == mine;
    }
  }

  lemma {:induction false} FindOther(contacts: seq<Contact>, o: Signup, i: nat)
    requires i < |contacts|
    ensures FindContact(contacts[i := contacts[i].(active := true)], o) == FindContact(contacts, o)
  {
    var n := |contacts| - 1;
    var updated := contacts[i := contacts[i].(active := true)];
    if i == n {
      assert updated[..n] == contacts[..n];
    } else {
      FindOther(contacts[..n], o, i);
      assert updated[..n] == contacts[..n][i := contacts[i].(active := true)];
    }
  }
}
