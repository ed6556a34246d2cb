/**
 * The same events when reads and writes of different visits interleave: a sweep or a route acts on the row as it
 * read it, however much has happened to the row since.
 */
module TenantOverlaps {
  import opened Prelude
  import opened Histories
  import opened Reputation
  import opened TenantControl
  import opened TenantRuns

  /** An event that acts on the row as it stood, at time `readAt`, after the first `seen` writes. */
  datatype Visit = Visit(seen: nat, readAt: int, event: Event)

  predicate Causal(visits: seq<Visit>) {
    forall k :: 0 <= k < |visits| ==> visits[k].seen <= k
  }

  /** The row after `n` writes. */
  function After(start: Tenant, visits: seq<Visit>, n: nat): Tenant
    requires Causal(visits) && n <= |visits|
  {
    if n == 0 then start
    else
      var v := visits[n - 1];
      Act(After(start, visits, n - 1), After(start, visits, v.seen), v.readAt, v.event)
  }

  function SeenBy(start: Tenant, visits: seq<Visit>, k: nat): Tenant
    requires Causal(visits) && k < |visits|
  {
    After(start, visits, visits[k].seen)
  }

  lemma AfterVisit(start: Tenant, visits: seq<Visit>, k: nat)
    requires Causal(visits) && k < |visits|
    ensures After(start, visits, k + 1)
         == Act(After(start, visits, k), SeenBy(start, visits, k), visits[k].readAt, visits[k].event)
  {
  }

  // ----- What a late visit does to a pause --------------------------------------------------------------------

  /** Paused by reputation, and not sending. */
  predicate Held(t: Tenant) {
    t.level == Paused && t.status == Disabled
  }

  /** A check that would switch sending back on. */
  predicate Restores(seen: Tenant, published: set<Record>) {
    AllResolve(seen, published) && seen.failingSince.Some? && seen.status == Failed && seen.level != Paused
  }

  /** A check that would suspend. */
  predicate Suspends(seen: Tenant, published: set<Record>, now: int) {
    && !AllResolve(seen, published) && seen.failingSince.Some? && seen.status == Verified
    && now - seen.failingSince.value >= GRACE
  }

  /** Whether a visit that read `seen` ends a pause that is in force when it writes. */
  predicate EndsPause(seen: Tenant, readAt: int, e: Event) {
    match e
    case DnsCheck(now, published, _, _) =>
      DueForDns(seen, readAt) && (Restores(seen, published) || Suspends(seen, published, now))
    case Judgement(_, counts) =>
      var d := Evaluate(SampleFromCounts(counts), seen.level);
      seen.status == Verified && d.changed && d.level != Paused
    case Resumed(_, recent) => MayResume(seen, recent)
    case ManualVerify(_, _, _, _) => seen.level != Paused
    case ManualStart(_, _) => false
    case ManualCancel(_) => false
  }

  /** A check writes over a pause exactly when the row it read called for restoring or for suspending. */
  lemma CheckOverPause(row: Tenant, seen: Tenant, published: set<Record>, now: int, autoStart: bool, newKey: nat)
    requires Held(row)
    ensures var next := Checked(row, seen, published, now, autoStart, newKey);
            && next.level == Paused
            && next.status == (if Restores(seen, published) then Verified
                               else if Suspends(seen, published, now) then Failed else Disabled)
  {
  }

  lemma VisitOverPause(row: Tenant, seen: Tenant, readAt: int, e: Event)
    requires Held(row)
    ensures Held(Act(row, seen, readAt, e)) <==> !EndsPause(seen, readAt, e)
  {
    if e.DnsCheck? {
      CheckOverPause(row, seen, e.published, e.now, e.autoStart, e.newKey);
    }
  }

  predicate HeldAt(start: Tenant, visits: seq<Visit>, k: nat)
    requires Causal(visits) && k <= |visits|
  {
    Held(After(start, visits, k))
  }

  predicate EndsAt(start: Tenant, visits: seq<Visit>, k: nat)
    requires Causal(visits) && k < |visits|
  {
    EndsPause(SeenBy(start, visits, k), visits[k].readAt, visits[k].event)
  }

  lemma PauseStep(start: Tenant, visits: seq<Visit>, k: nat)
    requires Causal(visits) && k < |visits| && HeldAt(start, visits, k)
    ensures HeldAt(start, visits, k + 1) <==> !EndsAt(start, visits, k)
  {
    AfterVisit(start, visits, k);
    VisitOverPause(After(start, visits, k), SeenBy(start, visits, k), visits[k].readAt, visits[k].event);
  }

  /** A pause in force after `i` writes lasts through write `j` exactly when no visit in between ends it. */
  lemma PauseLastsIff(start: Tenant, visits: seq<Visit>, i: nat, j: nat)
    requires Causal(visits) && i <= j <= |visits| && HeldAt(start, visits, i)
    ensures (forall k: nat :: i <= k <= j ==> HeldAt(start, visits, k))
            <==> forall k: nat :: i <= k < j ==> !EndsAt(start, visits, k)
  {
    var held := seq(|visits| + 1, k requires 0 <= k <= |visits| => HeldAt(start, visits, k));
    var ends := seq(|visits|, k requires 0 <= k < |visits| => EndsAt(start, visits, k));
    forall k | i <= k < j && held[k]
      ensures held[k + 1] <==> !ends[k]
    {
      PauseStep(start, visits, k);
    }
    StaysUpIff(held, ends, i, j);
    assert forall k: nat :: i <= k <= j ==> held[k] == HeldAt(start, visits, k);
    assert forall k: nat :: i <= k < j ==> ends[k] == EndsAt(start, visits, k);
  }

  /** A visit that read a paused row changes nothing about the pause, unless it is a resume. */
  lemma HeldSeesHeld(seen: Tenant, readAt: int, e: Event)
    requires Held(seen) && !e.Resumed?
    ensures !EndsPause(seen, readAt, e)
  {
  }

  /** Only a resume ends a pause, as long as whoever writes during it has also read during it. */
  lemma {:induction false} PauseIsSticky(start: Tenant, visits: seq<Visit>, i: nat, j: nat)
    requires Causal(visits) && i <= j <= |visits| && HeldAt(start, visits, i)
    requires forall k :: i <= k < j ==> !visits[k].event.Resumed? && i <= visits[k].seen
    ensures forall k: nat :: i <= k <= j ==> HeldAt(start, visits, k)
    decreases j
  {
    if i < j {
      PauseIsSticky(start, visits, i, j - 1);
      assert HeldAt(start, visits, visits[j - 1].seen);
      HeldSeesHeld(SeenBy(start, visits, j - 1), visits[j - 1].readAt, visits[j - 1].event);
      PauseStep(start, visits, j - 1);
    }
  }

  // ----- Paused means not sending --------------------------------------------------------------------------------

  predicate Consistent(t: Tenant) {
    t.verifiedAt.Some? && t.status != Unverified && (t.level == Paused <==> t.status == Disabled)
  }

  /** A visit that tears level and status apart: over a pause, or disabling a tenant that is paused no more. */
  predicate Tears(row: Tenant, seen: Tenant, readAt: int, e: Event) {
    if row.level == Paused then !e.Resumed? && EndsPause(seen, readAt, e)
    else e.ManualVerify? && seen.level == Paused
  }

  lemma ConsistentStep(row: Tenant, seen: Tenant, readAt: int, e: Event)
    requires Consistent(row) && seen.verifiedAt.Some?
    ensures Consistent(Act(row, seen, readAt, e)) <==> !Tears(row, seen, readAt, e)
  {
    if row.level == Paused {
      VisitOverPause(row, seen, readAt, e);
    }
  }

  lemma {:induction false} StaysVerified(start: Tenant, visits: seq<Visit>, n: nat)
    requires Causal(visits) && n <= |visits| && start.verifiedAt.Some?
    ensures After(start, visits, n).verifiedAt.Some?
    decreases n
  {
    if n > 0 {
      StaysVerified(start, visits, n - 1);
      StaysVerified(start, visits, visits[n - 1].seen);
    }
  }

  predicate TearsAt(start: Tenant, visits: seq<Visit>, k: nat)
    requires Causal(visits) && k < |visits|
  {
    Tears(After(start, visits, k), SeenBy(start, visits, k), visits[k].readAt, visits[k].event)
  }

  predicate ConsistentAt(start: Tenant, visits: seq<Visit>, k: nat)
    requires Causal(visits) && k <= |visits|
  {
    Consistent(After(start, visits, k))
  }

  lemma ConsistentNext(start: Tenant, visits: seq<Visit>, k: nat)
    requires Causal(visits) && start.verifiedAt.Some? && k < |visits| && ConsistentAt(start, visits, k)
    ensures ConsistentAt(start, visits, k + 1) <==> !TearsAt(start, visits, k)
  {
    AfterVisit(start, visits, k);
    StaysVerified(start, visits, visits[k].seen);
    ConsistentStep(After(start, visits, k), SeenBy(start, visits, k), visits[k].readAt, visits[k].event);
  }

  /** However reads and writes interleave, paused means disabled all along exactly when no visit tears them apart. */
  lemma PausedMeansDisabledIff(start: Tenant, visits: seq<Visit>)
    requires Causal(visits) && Consistent(start)
    ensures (forall k: nat :: k <= |visits| ==> ConsistentAt(start, visits, k))
            <==> forall k: nat :: k < |visits| ==> !TearsAt(start, visits, k)
  {
    var n := |visits|;
    var consistent := seq(n + 1, k requires 0 <= k <= n => ConsistentAt(start, visits, k));
    var tears := seq(n, k requires 0 <= k < n => TearsAt(start, visits, k));
    forall k | 0 <= k < n && consistent[k]
      ensures consistent[k + 1] <==> !tears[k]
    {
      ConsistentNext(start, visits, k);
    }
    assert ConsistentAt(start, visits, 0);
    StaysUpIff(consistent, tears, 0, n);
    assert forall k: nat :: k <= n ==> consistent[k] == ConsistentAt(start, visits, k);
    assert forall k: nat :: k < n ==> tears[k] == TearsAt(start, visits, k);
  }

  // ----- What a late visit does to an older selector ----------------------------------------------------------------

  /** Whether a visit that read `seen` takes the previous selector `former` away: it retires it or replaces it. */
  predicate Drops(seen: Tenant, readAt: int, e: Event, former: nat) {
    && e.DnsCheck? && DueForDns(seen, readAt)
    && (if seen.previousRetireAt.Some? && e.now >= seen.previousRetireAt.value then true
        else seen.nextKey.Some? && DkimNext(seen.nextKey.value) in e.published && seen.key != former)
  }

  lemma VisitOverPrevious(row: Tenant, seen: Tenant, readAt: int, e: Event, former: nat)
    requires row.previousKey == Some(former)
    ensures Act(row, seen, readAt, e).previousKey == Some(former) <==> !Drops(seen, readAt, e, former)
  {
    if e.DnsCheck? {
      PendingResolvesMeans(seen, e.published);
    }
  }

  predicate PreviousAt(start: Tenant, visits: seq<Visit>, k: nat, former: nat)
    requires Causal(visits) && k <= |visits|
  {
    After(start, visits, k).previousKey == Some(former)
  }

  predicate DropsAt(start: Tenant, visits: seq<Visit>, k: nat, former: nat)
    requires Causal(visits) && k < |visits|
  {
    Drops(SeenBy(start, visits, k), visits[k].readAt, visits[k].event, former)
  }

  lemma PreviousStep(start: Tenant, visits: seq<Visit>, k: nat, former: nat)
    requires Causal(visits) && k < |visits| && PreviousAt(start, visits, k, former)
    ensures PreviousAt(start, visits, k + 1, former) <==> !DropsAt(start, visits, k, former)
  {
    AfterVisit(start, visits, k);
    VisitOverPrevious(After(start, visits, k), SeenBy(start, visits, k), visits[k].readAt, visits[k].event, former);
  }

  /** A previous selector stays published over any interleaving exactly when no visit in between drops it. */
  lemma PreviousLastsIff(start: Tenant, visits: seq<Visit>, i: nat, j: nat, former: nat)
    requires Causal(visits) && i <= j <= |visits| && PreviousAt(start, visits, i, former)
    ensures (forall k: nat :: i <= k <= j ==> PreviousAt(start, visits, k, former))
            <==> forall k: nat :: i <= k < j ==> !DropsAt(start, visits, k, former)
  {
    var kept := seq(|visits| + 1, k requires 0 <= k <= |visits| => PreviousAt(start, visits, k, former));
    var drops := seq(|visits|, k requires 0 <= k < |visits| => DropsAt(start, visits, k, former));
    forall k | i <= k < j && kept[k]
      ensures kept[k + 1] <==> !drops[k]
    {
      PreviousStep(start, visits, k, former);
    }
    StaysUpIff(kept, drops, i, j);
    assert forall k: nat :: i <= k <= j ==> kept[k] == PreviousAt(start, visits, k, former);
    assert forall k: nat :: i <= k < j ==> drops[k] == DropsAt(start, visits, k, former);
  }

  // ----- Suspensions, by the visits that wrote them --------------------------------------------------------------

  /** What a visit writes to the status, whatever the row holds by then. */
  function StatusWrite(seen: Tenant, readAt: int, e: Event): Option<Status> {
    match e
    case DnsCheck(now, published, _, _) =>
      if DueForDns(seen, readAt) && Restores(seen, published) then Some(Verified)
      else if DueForDns(seen, readAt) && Suspends(seen, published, now) then Some(Failed)
      else None
    case Judgement(_, counts) =>
      var d := Evaluate(SampleFromCounts(counts), seen.level);
      if seen.status == Verified && d.changed && d.level == Paused then Some(Disabled) else None
    case Resumed(_, recent) => if MayResume(seen, recent) then Some(Verified) else None
    case ManualVerify(_, published, sesAgrees, _) =>
      Some(if seen.level == Paused then Disabled else if PassesByHand(seen, published, sesAgrees) then Verified
           else Failed)
    case ManualStart(_, _) => None
    case ManualCancel(_) => None
  }

  /** What a visit writes to `failingSince`. */
  function FailingWrite(seen: Tenant, readAt: int, e: Event): Option<Option<int>> {
    if !e.DnsCheck? || !DueForDns(seen, readAt) then None
    else if AllResolve(seen, e.published) then (if seen.failingSince.Some? then Some(None) else None)
    else if seen.failingSince.None? then Some(Some(e.now))
    else None
  }

  lemma VisitWrites(row: Tenant, seen: Tenant, readAt: int, e: Event, next: Tenant)
    requires next == Act(row, seen, readAt, e)
    ensures var w := StatusWrite(seen, readAt, e); next.status == if w.Some? then w.value else row.status
    ensures var w := FailingWrite(seen, readAt, e); next.failingSince == if w.Some? then w.value else row.failingSince
  {
  }

  function StatusWriteAt(start: Tenant, visits: seq<Visit>, k: nat): Option<Status>
    requires Causal(visits) && k < |visits|
  {
    StatusWrite(SeenBy(start, visits, k), visits[k].readAt, visits[k].event)
  }

  function FailingWriteAt(start: Tenant, visits: seq<Visit>, k: nat): Option<Option<int>>
    requires Causal(visits) && k < |visits|
  {
    FailingWrite(SeenBy(start, visits, k), visits[k].readAt, visits[k].event)
  }

  function StatusWrites(start: Tenant, visits: seq<Visit>): (r: seq<Option<Status>>)
    requires Causal(visits)
    ensures |r| == |visits| && forall k: nat :: k < |r| ==> r[k] == StatusWriteAt(start, visits, k)
  {
    seq(|visits|, k requires 0 <= k < |visits| => StatusWriteAt(start, visits, k))
  }

  function FailingWrites(start: Tenant, visits: seq<Visit>): (r: seq<Option<Option<int>>>)
    requires Causal(visits)
    ensures |r| == |visits| && forall k: nat :: k < |r| ==> r[k] == FailingWriteAt(start, visits, k)
  {
    seq(|visits|, k requires 0 <= k < |visits| => FailingWriteAt(start, visits, k))
  }

  function StatusAt(start: Tenant, visits: seq<Visit>, k: nat): Status
    requires Causal(visits) && k <= |visits|
  {
    After(start, visits, k).status
  }

  function FailingAt(start: Tenant, visits: seq<Visit>, k: nat): Option<int>
    requires Causal(visits) && k <= |visits|
  {
    After(start, visits, k).failingSince
  }

  lemma WritesAt(start: Tenant, visits: seq<Visit>, k: nat)
    requires Causal(visits) && k < |visits|
    ensures var w := StatusWriteAt(start, visits, k);
            StatusAt(start, visits, k + 1) == if w.Some? then w.value else StatusAt(start, visits, k)
    ensures var w := FailingWriteAt(start, visits, k);
            FailingAt(start, visits, k + 1) == if w.Some? then w.value else FailingAt(start, visits, k)
  {
    AfterVisit(start, visits, k);
    VisitWrites(After(start, visits, k), SeenBy(start, visits, k), visits[k].readAt, visits[k].event,
                After(start, visits, k + 1));
  }

  /** After `n` visits the status is `st` exactly when the last visit that wrote it wrote that. */
  lemma StatusIff(start: Tenant, visits: seq<Visit>, n: nat, st: Status)
    requires Causal(visits) && n <= |visits|
    ensures var writes := StatusWrites(start, visits);
            StatusAt(start, visits, n) == st <==>
              || (exists k: nat :: LastWrite(writes, k, n) && writes[k] == Some(st))
              || (start.status == st && forall j :: 0 <= j < n ==> writes[j].None?)
  {
    var values := seq(|visits| + 1, k requires 0 <= k <= |visits| => StatusAt(start, visits, k));
    var writes := StatusWrites(start, visits);
    forall k | 0 <= k < n
      ensures values[k + 1] == if writes[k].Some? then writes[k].value else values[k]
    {
      WritesAt(start, visits, k);
    }
    HoldsLastWrite(values, writes, n, st);
  }

  /** The same for the date of the failure on record. */
  lemma FailingSinceIff(start: Tenant, visits: seq<Visit>, n: nat, since: Option<int>)
    requires Causal(visits) && n <= |visits|
    ensures var writes := FailingWrites(start, visits);
            FailingAt(start, visits, n) == since <==>
              || (exists k: nat :: LastWrite(writes, k, n) && writes[k] == Some(since))
              || (start.failingSince == since && forall j :: 0 <= j < n ==> writes[j].None?)
  {
    var values := seq(|visits| + 1, k requires 0 <= k <= |visits| => FailingAt(start, visits, k));
    var writes := FailingWrites(start, visits);
    forall k | 0 <= k < n
      ensures values[k + 1] == if writes[k].Some? then writes[k].value else values[k]
    {
      WritesAt(start, visits, k);
    }
    HoldsLastWrite(values, writes, n, since);
  }

  /** Visit `n` is a press of the verify button that fails. */
  predicate FailsByHand(start: Tenant, visits: seq<Visit>, n: nat)
    requires Causal(visits) && n < |visits|
  {
    var seen, e := SeenBy(start, visits, n), visits[n].event;
    e.ManualVerify? && seen.level != Paused && !PassesByHand(seen, e.published, e.sesAgrees)
  }

  /** Visit `n` is a failed check of a row read as verified and due. */
  predicate FailsVerified(start: Tenant, visits: seq<Visit>, n: nat)
    requires Causal(visits) && n < |visits|
  {
    var seen, e := SeenBy(start, visits, n), visits[n].event;
    e.DnsCheck? && DueForDns(seen, visits[n].readAt) && seen.status == Verified && !AllResolve(seen, e.published)
  }

  /** When visit `n` read the row, visit `k` was the last to touch the failure on record, six hours before `n`. */
  ghost predicate DriftedBefore(start: Tenant, visits: seq<Visit>, n: nat, k: nat)
    requires Causal(visits) && n < |visits|
  {
    var writes := FailingWrites(start, visits);
    && LastWrite(writes, k, visits[n].seen) && writes[k].value.Some?
    && visits[n].event.now - writes[k].value.value >= GRACE
  }

  lemma FailedWriteIff(start: Tenant, visits: seq<Visit>, n: nat)
    requires Causal(visits) && n < |visits|
    ensures StatusWriteAt(start, visits, n) == Some(Failed) <==>
              || FailsByHand(start, visits, n)
              || (FailsVerified(start, visits, n) && FailingAt(start, visits, visits[n].seen).Some?
                  && visits[n].event.now - FailingAt(start, visits, visits[n].seen).value >= GRACE)
  {
  }

  /**
   * However visits interleave, one suspends exactly when it is a failing press of the verify button, or a failed check
   * of a row it had read as verified, at least six hours after the failed check that, up to that reading, was the last
   * to touch the failure on record.
   */
  lemma SuspensionEarnedIff(start: Tenant, visits: seq<Visit>, n: nat)
    requires Fresh(start) && Causal(visits) && n < |visits| && StatusAt(start, visits, n) != Failed
    ensures StatusAt(start, visits, n + 1) == Failed <==>
              || FailsByHand(start, visits, n)
              || (FailsVerified(start, visits, n) && exists k: nat :: DriftedBefore(start, visits, n, k))
  {
    WritesAt(start, visits, n);
    FailedWriteIff(start, visits, n);
    var seen := visits[n].seen;
    var since := FailingAt(start, visits, seen);
    FailingSinceIff(start, visits, seen, since);
    var writes := FailingWrites(start, visits);
    if since.Some? {
      var k: nat :| LastWrite(writes, k, seen) && writes[k] == Some(since);
      forall j: nat | DriftedBefore(start, visits, n, j)
        ensures j == k
      {
        OneLastWrite(writes, j, k, seen);
      }
      assert writes[k].value.value == since.value;
      assert DriftedBefore(start, visits, n, k) <==> visits[n].event.now - since.value >= GRACE;
    } else if k: nat :| DriftedBefore(start, visits, n, k) {
      FailingSinceIff(start, visits, seen, writes[k].value);
      assert false;
    }
  }

  /**
   * However visits interleave, a tenant is suspended without a failure on record exactly when the last write of its
   * status was a suspension, and the last write of the failure on record, if any, cleared it.
   */
  lemma StrandedIff(start: Tenant, visits: seq<Visit>, n: nat)
    requires Fresh(start) && Causal(visits) && n <= |visits|
    ensures var status, failing := StatusWrites(start, visits), FailingWrites(start, visits);
            Stranded(After(start, visits, n)) <==>
              && (exists k: nat :: LastWrite(status, k, n) && status[k] == Some(Failed))
              && (|| (exists k: nat :: LastWrite(failing, k, n) && failing[k] == Some(None))
                  || forall j :: 0 <= j < n ==> failing[j].None?)
  {
    StatusIff(start, visits, n, Failed);
    FailingSinceIff(start, visits, n, None);
    assert Stranded(After(start, visits, n))
           <==> StatusAt(start, visits, n) == Failed && FailingAt(start, visits, n) == None;
  }

  // ----- Visits that do tear them apart ---------------------------------------------------------------------------

  const PAUSING := Outcomes(10, 10, 0, 0, 0)
  const WARNING := Outcomes(94, 6, 0, 0, 0)

  lemma PausingPauses(row: Tenant, seen: Tenant, readAt: int, now: int)
    requires seen.status == Verified && seen.level == Ok
    ensures Act(row, seen, readAt, Judgement(now, PAUSING)) == row.(level := Paused, status := Disabled)
  {
    assert Rate(10, 20) == 0.5;
  }

  lemma WarningWarns(row: Tenant, seen: Tenant, readAt: int, now: int)
    requires seen.status == Verified && seen.level == Ok
    ensures Act(row, seen, readAt, Judgement(now, WARNING)) == row.(level := Warned)
  {
    assert Rate(6, 100) == 0.06;
  }

  /** The verify button, pressed just before a pause: its answer comes after it and switches sending back on. */
  lemma LateVerifyRevives(start: Tenant, now: int, published: set<Record>)
    requires Fresh(start) && AllResolve(start, published)
    ensures var visits := [Visit(0, now, Judgement(now, PAUSING)),
                           Visit(0, now, ManualVerify(now, published, true, None))];
            && Causal(visits) && Held(After(start, visits, 1))
            && After(start, visits, 2).level == Paused && After(start, visits, 2).status == Verified
  {
    PausingPauses(start, start, now, now);
  }

  /** One DNS sweep is enough: it read a row failing for six hours, and suspends it after the pause. */
  lemma LateCheckFailsPaused(start: Tenant, now: int)
    requires Fresh(start) && DueForDns(start, now)
    ensures var later := now + GRACE;
            var visits := [Visit(0, now, DnsCheck(now, {}, false, 0)), Visit(1, later, Judgement(later, PAUSING)),
                           Visit(1, later, DnsCheck(later, {}, false, 0))];
            && Causal(visits) && Held(After(start, visits, 2))
            && After(start, visits, 3).level == Paused && After(start, visits, 3).status == Failed
  {
    var later := now + GRACE;
    var visits := [Visit(0, now, DnsCheck(now, {}, false, 0)), Visit(1, later, Judgement(later, PAUSING)),
                   Visit(1, later, DnsCheck(later, {}, false, 0))];
    AllResolveMeans(start, {});
    var failing := After(start, visits, 1);
    AfterVisit(start, visits, 0);
    assert SeenBy(start, visits, 0) == start == After(start, visits, 0);
    assert failing.failingSince == Some(now) && failing.status == Verified && failing.level == Ok;
    PausingPauses(failing, failing, later, later);
    AllResolveMeans(failing, {});
    CheckOverPause(After(start, visits, 2), failing, {}, later, false, 0);
  }

  /** Two reputation sweeps that read the same row: the milder verdict, written last, leaves nobody to resume. */
  lemma LateWarningHidesPause(start: Tenant, now: int, e: Event)
    requires Fresh(start)
    ensures var visits := [Visit(0, now, Judgement(now, PAUSING)), Visit(0, now, Judgement(now, WARNING))];
            var t := After(start, visits, 2);
            && Causal(visits) && Held(After(start, visits, 1)) && t.level == Warned && t.status == Disabled
            && (!e.ManualVerify? ==> Step(t, e).status == Disabled)
  {
    PausingPauses(start, start, now, now);
    WarningWarns(start.(level := Paused, status := Disabled), start, now, now);
  }
}
