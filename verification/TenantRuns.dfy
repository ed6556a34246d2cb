/** What holds over every run of the three control loops and the dashboard's routes on one tenant. */
module TenantRuns {
  import opened Prelude
  import opened Histories
  import opened Reputation
  import opened TenantControl

  /** A sweep's visit to the tenant, or a call of one of the routes that write its row. */
  datatype Event =
    | DnsCheck(now: int, published: set<Record>, autoStart: bool, newKey: nat)
    | Judgement(now: int, counts: Outcomes)
    | Resumed(now: int, recent: nat)
    | ManualStart(now: int, newKey: nat)
    | ManualCancel(now: int)
    | ManualVerify(now: int, published: set<Record>, sesAgrees: bool, registered: Option<seq<nat>>)

  /** Which tenants the DNS sweep selects. */
  predicate DueForDns(t: Tenant, now: int) {
    && t.verifiedAt.Some?
    && (t.status == Verified || t.status == Failed)
    && (t.lastChecked.None? || t.lastChecked.value < now - RECHECK)
  }

  /** The row after an event that acts on the row as it was read at `readAt`. */
  function Act(row: Tenant, seen: Tenant, readAt: int, e: Event): Tenant {
    match e
    case DnsCheck(now, published, autoStart, newKey) =>
      if DueForDns(seen, readAt) then Checked(row, seen, published, now, autoStart, newKey) else row
    case Judgement(now, counts) =>
      if seen.status == Verified then Judged(row, seen, SampleFromCounts(counts)) else row
    case Resumed(now, recent) => ResumedBy(row, seen, recent)
    case ManualStart(now, newKey) => StartedByHand(row, seen, now, newKey)
    case ManualCancel(now) => CancelledByHand(row, seen)
    case ManualVerify(now, published, sesAgrees, registered) =>
      VerifiedByHand(row, seen, published, sesAgrees, registered, now)
  }

  /** An event that reads and writes the row without another write in between. */
  function Step(t: Tenant, e: Event): Tenant {
    Act(t, t, e.now, e)
  }

  function Run(start: Tenant, events: seq<Event>): Tenant {
    if events == [] then start else Step(Run(start, events[..|events| - 1]), events[|events| - 1])
  }

  /** A tenant whose domain just verified, with its first key. */
  predicate Fresh(t: Tenant) {
    && t.status == Verified && t.level == Ok && t.verifiedAt.Some? && t.failingSince.None?
    && t.nextKey.None? && t.previousKey.None? && t.previousRetireAt.None?
    && t.rotationStartedAt.None? && t.rotatedAt.None?
  }

  lemma RunStep(start: Tenant, events: seq<Event>, k: nat)
    requires k < |events|
    ensures Run(start, events[..k + 1]) == Step(Run(start, events[..k]), events[k])
  {
    assert events[..k + 1][..k] == events[..k];
  }

  lemma RunThen(start: Tenant, events: seq<Event>, e: Event)
    ensures Run(start, events + [e]) == Step(Run(start, events), e)
  {
    assert (events + [e])[..|events|] == events;
  }

  // ----- Rotation ------------------------------------------------------------------------------------

  predicate RotationInv(t: Tenant) {
    && (t.previousKey.Some? <==> t.previousRetireAt.Some?)
    && (t.nextKey.Some? <==> t.rotationStartedAt.Some?)
    && (t.previousRetireAt.Some? ==> t.rotatedAt.Some? && t.previousRetireAt.value == t.rotatedAt.value + RETIRE_AFTER)
    && t.verifiedAt.Some?
  }

  lemma RotatedKeepsInv(t: Tenant, published: set<Record>, now: int, autoStart: bool, newKey: nat)
    requires RotationInv(t)
    ensures RotationInv(Rotated(t, t, published, now, autoStart, newKey))
  {
  }

  lemma DriftKeepsInv(row: Tenant, seen: Tenant, ok: bool, now: int)
    requires RotationInv(row)
    ensures RotationInv(DriftApplied(row, seen, ok, now))
  {
  }

  lemma RotationInvStep(t: Tenant, e: Event)
    requires RotationInv(t)
    ensures RotationInv(Step(t, e))
  {
    if e.DnsCheck? {
      RotatedKeepsInv(t, e.published, e.now, e.autoStart, e.newKey);
      DriftKeepsInv(Rotated(t, t, e.published, e.now, e.autoStart, e.newKey), t, AllResolve(t, e.published), e.now);
    }
  }

  lemma {:induction false} RotationInvRun(start: Tenant, events: seq<Event>)
    requires RotationInv(start)
    ensures RotationInv(Run(start, events))
  {
    if events != [] {
      RotationInvRun(start, events[..|events| - 1]);
      RotationInvStep(Run(start, events[..|events| - 1]), events[|events| - 1]);
    }
  }

  /** A key waits while an older selector is still published. */
  predicate BothHeld(t: Tenant) {
    t.nextKey.Some? && t.previousKey.Some?
  }

  /** A rotation started by hand before the older selector retired. */
  predicate StartsEarly(t: Tenant, e: Event) {
    e.ManualStart? && MayStart(t) && t.previousKey.Some?
  }

  lemma BothHeldStep(t: Tenant, e: Event)
    requires RotationInv(t) && !BothHeld(t)
    ensures BothHeld(Step(t, e)) <==> StartsEarly(t, e)
  {
  }

  lemma {:induction false} FirstEarlyStart(start: Tenant, events: seq<Event>) returns (k: nat)
    requires Fresh(start) && BothHeld(Run(start, events))
    ensures k < |events| && StartsEarly(Run(start, events[..k]), events[k])
  {
    var n := |events| - 1;
    RotationInvRun(start, events[..n]);
    if BothHeld(Run(start, events[..n])) {
      k := FirstEarlyStart(start, events[..n]);
      assert events[..n][..k] == events[..k];
    } else {
      BothHeldStep(Run(start, events[..n]), events[n]);
      k := n;
    }
  }

  /**
   * In a run no key ever waits beside a previous selector, unless a rotation is started by hand before that
   * selector retired; then one does.
   */
  lemma PendingWithPreviousIff(start: Tenant, events: seq<Event>)
    requires Fresh(start)
    ensures (exists k: nat :: k <= |events| && BothHeld(Run(start, events[..k])))
            <==> exists k: nat :: k < |events| && StartsEarly(Run(start, events[..k]), events[k])
  {
    if k: nat :| k <= |events| && BothHeld(Run(start, events[..k])) {
      var j := FirstEarlyStart(start, events[..k]);
      assert events[..k][..j] == events[..j];
    }
    if k: nat :| k < |events| && StartsEarly(Run(start, events[..k]), events[k]) {
      RunStep(start, events, k);
      assert BothHeld(Run(start, events[..k + 1]));
    }
  }

  /**
   * The signing key changes only in a check that saw the new key's own record; the one it signed with, as far as
   * the check knew, stays published. This holds for a check of any age.
   */
  lemma KeyChangesOnlyOnceResolved(row: Tenant, seen: Tenant, readAt: int, e: Event)
    requires Act(row, seen, readAt, e).key != row.key
    ensures var next := Act(row, seen, readAt, e);
            && e.DnsCheck? && seen.nextKey == Some(next.key) && DkimNext(next.key) in e.published
            && next.previousKey == Some(seen.key) && next.previousRetireAt == Some(e.now + RETIRE_AFTER)
  {
    PendingResolvesMeans(seen, e.published);
  }

  /** A check that promotes the waiting key. */
  predicate Promotes(t: Tenant, e: Event) {
    && e.DnsCheck? && DueForDns(t, e.now) && t.nextKey.Some? && DkimNext(t.nextKey.value) in e.published
  }

  /** Before its seven days are over, exactly a promotion takes an older selector away. */
  lemma PreviousDroppedIff(t: Tenant, e: Event, former: nat, retireAt: int)
    requires t.previousKey == Some(former) && t.previousRetireAt == Some(retireAt) && e.now < retireAt
    requires former != t.key
    ensures Step(t, e).previousKey != Some(former) <==> Promotes(t, e)
    ensures !Promotes(t, e) ==> Step(t, e).previousRetireAt == Some(retireAt) && Step(t, e).key == t.key
  {
    if e.DnsCheck? {
      PendingResolvesMeans(t, e.published);
    }
  }

  lemma PreviousSetByStep(t: Tenant, e: Event, next: Tenant)
    requires next == Step(t, e) && next.key != t.key
    ensures next.previousKey == Some(t.key) && next.previousRetireAt == Some(e.now + RETIRE_AFTER)
  {
    KeyChangesOnlyOnceResolved(t, t, e.now, e);
  }

  /** `former` is still published until `retireAt`, and mail is still signed with `key`. */
  predicate StillHeld(t: Tenant, former: nat, retireAt: int, key: nat) {
    t.previousKey == Some(former) && t.previousRetireAt == Some(retireAt) && t.key == key
  }

  lemma StillHeldStep(t: Tenant, e: Event, former: nat, retireAt: int, key: nat)
    requires StillHeld(t, former, retireAt, key) && former != key && e.now < retireAt
    ensures StillHeld(Step(t, e), former, retireAt, key) <==> !Promotes(t, e)
    ensures Step(t, e).previousKey == Some(former) <==> !Promotes(t, e)
  {
    PreviousDroppedIff(t, e, former, retireAt);
  }

  predicate StillHeldAt(s: Tenant, later: seq<Event>, k: nat, former: nat, retireAt: int)
    requires k <= |later|
  {
    StillHeld(Run(s, later[..k]), former, retireAt, s.key)
  }

  predicate PublishedAt(s: Tenant, later: seq<Event>, k: nat, former: nat)
    requires k <= |later|
  {
    Run(s, later[..k]).previousKey == Some(former)
  }

  predicate PromotesAt(s: Tenant, later: seq<Event>, k: nat)
    requires k < |later|
  {
    Promotes(Run(s, later[..k]), later[k])
  }

  lemma StillHeldNext(s: Tenant, later: seq<Event>, k: nat, former: nat, retireAt: int)
    requires former != s.key && k < |later| && later[k].now < retireAt && StillHeldAt(s, later, k, former, retireAt)
    ensures StillHeldAt(s, later, k + 1, former, retireAt) <==> !PromotesAt(s, later, k)
    ensures PublishedAt(s, later, k + 1, former) <==> !PromotesAt(s, later, k)
  {
    RunStep(s, later, k);
    StillHeldStep(Run(s, later[..k]), later[k], former, retireAt, s.key);
  }

  lemma HeldIsPublished(s: Tenant, later: seq<Event>, k: nat, former: nat, retireAt: int)
    requires k <= |later| && StillHeldAt(s, later, k, former, retireAt)
    ensures PublishedAt(s, later, k, former)
  {
  }

  lemma HeldWithoutPromotion(s: Tenant, later: seq<Event>, former: nat, retireAt: int)
    requires StillHeld(s, former, retireAt, s.key) && former != s.key
    requires forall k :: 0 <= k < |later| ==> later[k].now < retireAt
    ensures (forall k: nat :: k <= |later| ==> PublishedAt(s, later, k, former))
            <==> forall k: nat :: k < |later| ==> !PromotesAt(s, later, k)
  {
    var n := |later|;
    assert later[..0] == [];
    var held := seq(n + 1, k requires 0 <= k <= n => StillHeldAt(s, later, k, former, retireAt));
    var lost := seq(n, k requires 0 <= k < n => PromotesAt(s, later, k));
    forall k | 0 <= k < n && held[k]
      ensures held[k + 1] <==> !lost[k]
      ensures lost[k] ==> !PublishedAt(s, later, k + 1, former)
    {
      StillHeldNext(s, later, k, former, retireAt);
    }
    StaysUpIff(held, lost, 0, n);
    if k :| 0 <= k <= n && !held[k] {
      var m := GoesDown(held, 0, k);
      assert !PublishedAt(s, later, m + 1, former);
    } else {
      forall k: nat | k <= n
        ensures PublishedAt(s, later, k, former)
      {
        assert held[k] == StillHeldAt(s, later, k, former, retireAt);
        HeldIsPublished(s, later, k, former, retireAt);
      }
    }
    assert forall k: nat :: k < n ==> lost[k] == PromotesAt(s, later, k);
  }

  /**
   * From the check that replaced a key on, its selector stays published through every event of seven days exactly
   * when none of them promotes a further key.
   */
  lemma PreviousKeptIff(t: Tenant, e: Event, later: seq<Event>)
    requires Step(t, e).key != t.key
    requires forall k :: 0 <= k < |later| ==> later[k].now < e.now + RETIRE_AFTER
    ensures (forall k: nat :: k <= |later| ==> PublishedAt(Step(t, e), later, k, t.key))
            <==> forall k: nat :: k < |later| ==> !PromotesAt(Step(t, e), later, k)
  {
    PreviousSetByStep(t, e, Step(t, e));
    HeldWithoutPromotion(Step(t, e), later, t.key, e.now + RETIRE_AFTER);
  }

  predicate Automatic(events: seq<Event>) {
    forall k :: 0 <= k < |events| ==> !events[k].ManualStart?
  }

  lemma {:induction false} NeverBoth(t: Tenant, events: seq<Event>)
    requires RotationInv(t) && !BothHeld(t) && Automatic(events)
    ensures !BothHeld(Run(t, events))
  {
    if events != [] {
      var front := events[..|events| - 1];
      NeverBoth(t, front);
      RotationInvRun(t, front);
      BothHeldStep(Run(t, front), events[|events| - 1]);
    }
  }

  lemma NoPromotionAt(s: Tenant, later: seq<Event>, k: nat, former: nat, retireAt: int)
    requires RotationInv(s) && !BothHeld(s) && Automatic(later) && k < |later|
    requires StillHeldAt(s, later, k, former, retireAt)
    ensures !PromotesAt(s, later, k)
  {
    NeverBoth(s, later[..k]);
  }

  lemma HeldWhileAutomatic(s: Tenant, later: seq<Event>, former: nat, retireAt: int)
    requires StillHeld(s, former, retireAt, s.key) && former != s.key
    requires RotationInv(s) && !BothHeld(s) && Automatic(later)
    requires forall k :: 0 <= k < |later| ==> later[k].now < retireAt
    ensures forall k: nat :: k <= |later| ==> PublishedAt(s, later, k, former)
  {
    assert later[..0] == [];
    var held := seq(|later| + 1, k requires 0 <= k <= |later| => StillHeldAt(s, later, k, former, retireAt));
    forall k: nat | k <= |later|
      ensures PublishedAt(s, later, k, former)
    {
      if !held[k] {
        var m := GoesDown(held, 0, k);
        NoPromotionAt(s, later, m, former, retireAt);
        StillHeldNext(s, later, m, former, retireAt);
        assert false;
      }
      HeldIsPublished(s, later, k, former, retireAt);
    }
  }

  /** With automatic starts only, a replaced selector stays published for all of its seven days. */
  lemma PreviousKept(start: Tenant, events: seq<Event>, e: Event, later: seq<Event>)
    requires Fresh(start) && Automatic(events) && Automatic(later)
    requires Step(Run(start, events), e).key != Run(start, events).key
    requires forall k :: 0 <= k < |later| ==> later[k].now < e.now + RETIRE_AFTER
    ensures var t := Run(start, events);
            forall k: nat :: k <= |later| ==> PublishedAt(Step(t, e), later, k, t.key)
  {
    var t := Run(start, events);
    PreviousSetByStep(t, e, Step(t, e));
    AutomaticKeyChange(start, events, e);
    HeldWhileAutomatic(Step(t, e), later, t.key, e.now + RETIRE_AFTER);
  }

  lemma AutomaticKeyChange(start: Tenant, events: seq<Event>, e: Event)
    requires Fresh(start) && Automatic(events) && Step(Run(start, events), e).key != Run(start, events).key
    ensures RotationInv(Step(Run(start, events), e)) && !BothHeld(Step(Run(start, events), e))
  {
    var t := Run(start, events);
    RotationInvRun(start, events);
    RotationInvStep(t, e);
    NeverBoth(start, events);
    BothHeldStep(t, e);
    KeyChangesOnlyOnceResolved(t, t, e.now, e);
  }

  /** Two rotations started by hand within seven days, each promoted as soon as its record is there. */
  function HastyRotations(at: int, first: nat, second: nat): seq<Event> {
    [ManualStart(at, first), DnsCheck(at, {DkimNext(first)}, false, 0),
     ManualStart(at + 2 * HOUR, second), DnsCheck(at + 2 * HOUR, {DkimNext(second)}, false, 0)]
  }

  lemma RunFour(start: Tenant, a: Event, b: Event, c: Event, d: Event)
    ensures Run(start, [a, b]) == Step(Step(start, a), b)
    ensures Run(start, [a, b, c, d]) == Step(Step(Step(Step(start, a), b), c), d)
  {
    var es := [a, b, c, d];
    assert es[..3] == [a, b, c] && es[..3][..2] == [a, b] && [a, b][..1] == [a] && [a][..0] == [];
    assert Run(start, [a]) == Step(start, a) && Run(start, [a, b]) == Step(Step(start, a), b);
    assert Run(start, es[..3]) == Step(Run(start, [a, b]), c);
  }

  lemma PromotionByHand(t: Tenant, at: int, newKey: nat, next: Tenant)
    requires MayStart(t) && DueForDns(t, at) && (t.previousRetireAt.Some? ==> at < t.previousRetireAt.value)
    requires next == Step(Step(t, ManualStart(at, newKey)), DnsCheck(at, {DkimNext(newKey)}, false, 0))
    ensures next.key == newKey && next.previousKey == Some(t.key) && next.previousRetireAt == Some(at + RETIRE_AFTER)
    ensures next.nextKey.None? && next.status in {Verified, Failed} && next.verifiedAt == t.verifiedAt
    ensures next.lastChecked == Some(at)
  {
    PendingResolvesMeans(Step(t, ManualStart(at, newKey)), {DkimNext(newKey)});
    AllResolveMeans(Step(t, ManualStart(at, newKey)), {DkimNext(newKey)});
  }

  /** They take the first selector away two hours after mail was last signed with it. */
  lemma HastyRotationsLoseSelector(start: Tenant, at: int, first: nat, second: nat)
    requires Fresh(start) && DueForDns(start, at) && first != start.key
    ensures var es := HastyRotations(at, first, second);
            && Run(start, es[..2]).previousKey == Some(start.key)
            && Run(start, es[..2]).previousRetireAt == Some(at + RETIRE_AFTER)
            && Run(start, es).previousKey == Some(first) && Run(start, es).previousKey != Some(start.key)
            && es[3].now < at + RETIRE_AFTER
  {
    var es := HastyRotations(at, first, second);
    RunFour(start, es[0], es[1], es[2], es[3]);
    assert es[..2] == [es[0], es[1]];
    var half := Run(start, es[..2]);
    PromotionByHand(start, at, first, half);
    PromotionByHand(half, at + 2 * HOUR, second, Run(start, es));
  }

  predicate Clock(events: seq<Event>) {
    forall i, j :: 0 <= i < j < |events| ==> events[i].now <= events[j].now
  }

  /** A waiting key was generated when the one in use was old enough. */
  predicate AgeInv(t: Tenant, now: int) {
    && (t.rotationStartedAt.Some? ==> t.rotationStartedAt.value <= now)
    && (t.nextKey.Some? && t.rotatedAt.Some? && t.rotationStartedAt.Some? ==>
          t.rotatedAt.value + ROTATION_AGE <= t.rotationStartedAt.value)
  }

  lemma AgeRotated(t: Tenant, published: set<Record>, at: int, autoStart: bool, newKey: nat, now: int)
    requires RotationInv(t) && AgeInv(t, now) && now <= at
    ensures var next := Rotated(t, t, published, at, autoStart, newKey);
            && AgeInv(next, at)
            && (next.key != t.key && t.rotatedAt.Some? ==> t.rotatedAt.value + ROTATION_AGE <= at)
  {
  }

  lemma AgeDrifted(row: Tenant, seen: Tenant, ok: bool, at: int)
    requires AgeInv(row, at)
    ensures AgeInv(DriftApplied(row, seen, ok, at), at) && DriftApplied(row, seen, ok, at).key == row.key
  {
  }

  lemma AgeInvStep(t: Tenant, e: Event, now: int)
    requires RotationInv(t) && AgeInv(t, now) && now <= e.now && !e.ManualStart?
    ensures AgeInv(Step(t, e), e.now)
    ensures Step(t, e).key != t.key && t.rotatedAt.Some? ==> t.rotatedAt.value + ROTATION_AGE <= e.now
  {
    if e.DnsCheck? {
      AgeRotated(t, e.published, e.now, e.autoStart, e.newKey, now);
      AgeDrifted(Rotated(t, t, e.published, e.now, e.autoStart, e.newKey), t, AllResolve(t, e.published), e.now);
    }
  }

  lemma {:induction false} AgeInvRun(start: Tenant, events: seq<Event>, now: int)
    requires Fresh(start) && Clock(events) && Automatic(events)
    requires forall i :: 0 <= i < |events| ==> events[i].now <= now
    ensures AgeInv(Run(start, events), now)
  {
    if events != [] {
      var n := |events| - 1;
      var front, e := events[..n], events[n];
      AgeInvRun(start, front, e.now);
      RotationInvRun(start, front);
      AgeInvStep(Run(start, front), e, e.now);
    }
  }

  /** Left to itself, the platform changes a tenant's key at most once every 180 days. */
  lemma KeyChangesFarApart(start: Tenant, events: seq<Event>, e: Event)
    requires Fresh(start) && Clock(events + [e]) && Automatic(events)
    requires Run(start, events).rotatedAt.Some? && Step(Run(start, events), e).key != Run(start, events).key
    ensures Run(start, events).rotatedAt.value + ROTATION_AGE <= e.now
  {
    var all := events + [e];
    assert forall i :: 0 <= i < |events| ==> all[i] == events[i];
    assert all[|events|] == e;
    KeyChangesOnlyOnceResolved(Run(start, events), Run(start, events), e.now, e);
    AgeInvRun(start, events, e.now);
    RotationInvRun(start, events);
    AgeInvStep(Run(start, events), e, e.now);
  }

  // ----- Sending status --------------------------------------------------------------------------------

  predicate StatusInv(t: Tenant) {
    && t.verifiedAt.Some? && t.status != Unverified
    && (t.level == Paused <==> t.status == Disabled)
  }

  lemma StatusInvStep(t: Tenant, e: Event)
    requires StatusInv(t)
    ensures StatusInv(Step(t, e))
  {
  }

  lemma {:induction false} StatusInvRun(start: Tenant, events: seq<Event>)
    requires StatusInv(start)
    ensures StatusInv(Run(start, events))
  {
    if events != [] {
      StatusInvRun(start, events[..|events| - 1]);
      StatusInvStep(Run(start, events[..|events| - 1]), events[|events| - 1]);
    }
  }

  /** Suspended without a failure on record: no check gives such a tenant its sending back. */
  predicate Stranded(t: Tenant) {
    t.status == Failed && t.failingSince.None?
  }

  /** A check by hand that fails while no sweep has seen a failure. */
  predicate Strands(t: Tenant, e: Event) {
    && e.ManualVerify? && !PassesByHand(t, e.published, e.sesAgrees)
    && t.level != Paused && t.failingSince.None?
  }

  /** A sweep that sees the failure too, or a check by hand that passes. */
  predicate Rescues(t: Tenant, e: Event) {
    || LookAt(t, e).Missing?
    || (e.ManualVerify? && PassesByHand(t, e.published, e.sesAgrees))
  }

  lemma StrandedStep(t: Tenant, e: Event)
    requires StatusInv(t)
    ensures Stranded(Step(t, e)) <==> Strands(t, e) || (Stranded(t) && !Rescues(t, e))
  {
  }

  predicate StrandedAt(start: Tenant, events: seq<Event>, k: nat)
    requires k <= |events|
  {
    Stranded(Run(start, events[..k]))
  }

  predicate StrandsAt(start: Tenant, events: seq<Event>, k: nat)
    requires k < |events|
  {
    Strands(Run(start, events[..k]), events[k])
  }

  predicate RescuesAt(start: Tenant, events: seq<Event>, k: nat)
    requires k < |events|
  {
    Rescues(Run(start, events[..k]), events[k])
  }

  /** Event `k` stranded the tenant and nothing since has rescued it. */
  ghost predicate StrandedSince(start: Tenant, events: seq<Event>, k: nat) {
    k < |events| && StrandsAt(start, events, k) && forall j: nat :: k < j < |events| ==> !RescuesAt(start, events, j)
  }

  lemma StrandedNext(start: Tenant, events: seq<Event>, k: nat)
    requires Fresh(start) && k < |events|
    ensures StrandedAt(start, events, k + 1)
            <==> StrandsAt(start, events, k) || (StrandedAt(start, events, k) && !RescuesAt(start, events, k))
  {
    RunStep(start, events, k);
    StatusInvRun(start, events[..k]);
    StrandedStep(Run(start, events[..k]), events[k]);
  }

  lemma StrandedEnds(start: Tenant, events: seq<Event>)
    requires Fresh(start)
    ensures !StrandedAt(start, events, 0) && StrandedAt(start, events, |events|) == Stranded(Run(start, events))
  {
    assert events[..|events|] == events && events[..0] == [];
  }

  lemma StrandedLatch(start: Tenant, events: seq<Event>) returns (strands: seq<bool>, rescues: seq<bool>)
    requires Fresh(start)
    ensures |strands| == |rescues| == |events|
    ensures forall j: nat :: j < |events| ==> strands[j] == StrandsAt(start, events, j)
    ensures forall j: nat :: j < |events| ==> rescues[j] == RescuesAt(start, events, j)
    ensures Stranded(Run(start, events)) <==> exists k: nat :: LatchedSince(strands, rescues, k, |events|)
  {
    var n := |events|;
    StrandedEnds(start, events);
    var stranded := seq(n + 1, k requires 0 <= k <= n => StrandedAt(start, events, k));
    strands := seq(n, k requires 0 <= k < n => StrandsAt(start, events, k));
    rescues := seq(n, k requires 0 <= k < n => RescuesAt(start, events, k));
    forall k | 0 <= k < n
      ensures stranded[k + 1] <==> strands[k] || (stranded[k] && !rescues[k])
    {
      StrandedNext(start, events, k);
    }
    LatchIff(stranded, strands, rescues, n);
  }

  /**
   * A run leaves a tenant suspended without a failure on record exactly when a check by hand failed on it before
   * any sweep did, and since then no sweep failed and no check by hand passed.
   */
  lemma StrandedIff(start: Tenant, events: seq<Event>)
    requires Fresh(start)
    ensures Stranded(Run(start, events)) <==> exists k: nat :: StrandedSince(start, events, k)
  {
    var strands, rescues := StrandedLatch(start, events);
    forall k: nat
      ensures StrandedSince(start, events, k) <==> LatchedSince(strands, rescues, k, |events|)
    {
      SameLatch(start, events, strands, rescues, k);
    }
  }

  lemma SameLatch(start: Tenant, events: seq<Event>, strands: seq<bool>, rescues: seq<bool>, k: nat)
    requires |strands| == |rescues| == |events|
    requires forall j: nat :: j < |events| ==> strands[j] == StrandsAt(start, events, j)
    requires forall j: nat :: j < |events| ==> rescues[j] == RescuesAt(start, events, j)
    ensures StrandedSince(start, events, k) <==> LatchedSince(strands, rescues, k, |events|)
  {
    if LatchedSince(strands, rescues, k, |events|) {
      forall j: nat | k < j < |events|
        ensures !RescuesAt(start, events, j)
      {
        assert !rescues[j];
      }
    }
  }

  lemma GoodCheckStep(t: Tenant, e: Event)
    requires StatusInv(t) && t.status == Failed && e.DnsCheck? && DueForDns(t, e.now) && AllResolve(t, e.published)
    ensures Step(t, e).status == Verified <==> !Stranded(t)
  {
  }

  /** The next good check gives a suspended tenant its sending back exactly when the tenant is not stranded. */
  lemma GoodCheckRestoresIff(start: Tenant, events: seq<Event>, e: Event)
    requires Fresh(start) && e.DnsCheck?
    requires var t := Run(start, events); t.status == Failed && DueForDns(t, e.now) && AllResolve(t, e.published)
    ensures Run(start, events + [e]).status == Verified <==> !exists k: nat :: StrandedSince(start, events, k)
  {
    StatusInvRun(start, events);
    StrandedIff(start, events);
    GoodCheckStep(Run(start, events), e);
    RunThen(start, events, e);
  }

  // ----- Suspensions are earned --------------------------------------------------------------------------

  /** What a DNS sweep saw: nothing when the tenant was not due. */
  datatype Look = NotDue | Passing | Missing(at: int)

  function LookAt(t: Tenant, e: Event): Look {
    if !e.DnsCheck? || !DueForDns(t, e.now) then NotDue
    else if AllResolve(t, e.published) then Passing
    else Missing(e.now)
  }

  function Looks(start: Tenant, events: seq<Event>): (r: seq<Look>)
    ensures |r| == |events|
  {
    if events == [] then []
    else
      var front := events[..|events| - 1];
      Looks(start, front) + [LookAt(Run(start, front), events[|events| - 1])]
  }

  /** Look `k` was a failed check at `since`, and no check after it passed. */
  predicate FailingFrom(looks: seq<Look>, k: nat, since: int) {
    k < |looks| && looks[k] == Missing(since) && forall j :: k <= j < |looks| ==> looks[j] != Passing
  }

  /** How one event can touch `failingSince`. */
  lemma FailingSinceStep(t: Tenant, e: Event, next: Tenant)
    requires next == Step(t, e) && next.failingSince.Some?
    ensures LookAt(t, e) != Passing
    ensures next.failingSince == t.failingSince || LookAt(t, e) == Missing(next.failingSince.value)
  {
  }

  /** `failingSince` dates the first failed sweep since the last good one. */
  lemma {:induction false} FailingSinceIsTrue(start: Tenant, events: seq<Event>) returns (k: nat)
    requires Fresh(start) && Run(start, events).failingSince.Some?
    ensures FailingFrom(Looks(start, events), k, Run(start, events).failingSince.value)
  {
    var n := |events| - 1;
    var front, e := events[..n], events[n];
    var before, after := Run(start, front), Run(start, events);
    FailingSinceStep(before, e, after);
    if before.failingSince == after.failingSince {
      k := FailingSinceIsTrue(start, front);
    } else {
      k := n;
    }
  }

  lemma SuspendingStep(t: Tenant, e: Event, next: Tenant)
    requires next == Step(t, e) && t.status == Verified && next.status == Failed && !e.ManualVerify?
    ensures LookAt(t, e) == Missing(e.now)
    ensures t.failingSince.Some? && t.failingSince.value + GRACE <= e.now
  {
  }

  /**
   * Unless someone presses the verify button, sending is suspended only by a failed sweep, after six hours of
   * failed sweeps with no good one in between.
   */
  lemma SuspensionEarned(start: Tenant, events: seq<Event>, e: Event) returns (k: nat, since: int)
    requires Fresh(start) && Run(start, events).status == Verified && Step(Run(start, events), e).status == Failed
    requires !e.ManualVerify?
    ensures LookAt(Run(start, events), e) == Missing(e.now)
    ensures FailingFrom(Looks(start, events), k, since) && since + GRACE <= e.now
  {
    SuspendingStep(Run(start, events), e, Step(Run(start, events), e));
    k := FailingSinceIsTrue(start, events);
    since := Run(start, events).failingSince.value;
  }

  /** A check by hand that passes does not restart those six hours. */
  lemma HandCheckKeepsGrace(t: Tenant, pass: Event, fail: Event)
    requires StatusInv(t) && t.status == Verified && t.failingSince.Some?
    requires pass.ManualVerify? && PassesByHand(t, pass.published, pass.sesAgrees)
    requires fail.DnsCheck? && !AllResolve(Step(t, pass), fail.published) && pass.now + RECHECK < fail.now
    ensures Step(Step(t, pass), fail).status == Failed <==> t.failingSince.value + GRACE <= fail.now
  {
  }
}
