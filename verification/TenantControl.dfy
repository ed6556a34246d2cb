/**
 * One tenant row under three control loops: DKIM key rotation, DNS drift and reputation enforcement.
 * Times are in milliseconds.
 */
module TenantControl {
  import opened Prelude
  import opened Reputation

  const HOUR := 3_600_000
  const DAY := 86_400_000
  const GRACE := 6 * HOUR
  const RECHECK := 60 * 60_000
  const ROTATION_AGE := 180 * DAY
  const RETIRE_AFTER := 7 * DAY
  const STALL_AFTER := 14 * DAY

  datatype Status = Unverified | Verified | Failed | Disabled

  /** A key stands for its selector and its key pair. */
  datatype Tenant = Tenant(
    status: Status,
    level: Level,
    verifiedAt: Option<int>,
    failingSince: Option<int>,
    lastChecked: Option<int>,
    key: nat,
    nextKey: Option<nat>,
    previousKey: Option<nat>,
    previousRetireAt: Option<int>,
    rotationStartedAt: Option<int>,
    rotatedAt: Option<int>,
    sesTokens: seq<nat>)

  // ----- The records a domain publishes --------------------------------------------------------------

  datatype Record = Ownership | Dkim(key: nat) | SesDkim(token: nat) | DkimNext(key: nat) | Spf | Dmarc

  predicate Required(r: Record) {
    r.Ownership? || r.Dkim? || r.SesDkim?
  }

  function SesRecords(tokens: seq<nat>): (r: seq<Record>)
    ensures |r| == |tokens| && forall i :: 0 <= i < |tokens| ==> r[i] == SesDkim(tokens[i])
  {
    seq(|tokens|, i requires 0 <= i < |tokens| => SesDkim(tokens[i]))
  }

  function BuildRecords(t: Tenant): seq<Record> {
    (match t.nextKey case Some(k) => [DkimNext(k)] case None => [])
    + [Ownership] + (if t.sesTokens == [] then [Dkim(t.key)] else SesRecords(t.sesTokens)) + [Spf, Dmarc]
  }

  /** Every required record resolves; `published` holds the records that do. */
  predicate IsVerified(records: seq<Record>, published: set<Record>) {
    forall i :: 0 <= i < |records| && Required(records[i]) ==> records[i] in published
  }

  predicate PendingResolves(records: seq<Record>, published: set<Record>) {
    exists i :: 0 <= i < |records| && records[i].DkimNext? && records[i] in published
  }

  predicate AllResolve(t: Tenant, published: set<Record>) {
    IsVerified(BuildRecords(t), published)
  }

  /** A pending key never makes a domain read as failing, or as healthy. */
  lemma PendingKeyIrrelevant(t: Tenant, published: set<Record>)
    ensures AllResolve(t, published) <==> AllResolve(t.(nextKey := None), published)
  {
    var bare := BuildRecords(t.(nextKey := None));
    if t.nextKey.Some? {
      assert BuildRecords(t) == [DkimNext(t.nextKey.value)] + bare;
      assert forall i :: 0 <= i < |bare| ==> BuildRecords(t)[i + 1] == bare[i];
      if AllResolve(t, published) {
        forall i | 0 <= i < |bare| && Required(bare[i])
          ensures bare[i] in published
        {
          assert BuildRecords(t)[i + 1] == bare[i];
        }
      }
    } else {
      assert t == t.(nextKey := None);
    }
  }

  /** What verification asks for. */
  lemma AllResolveMeans(t: Tenant, published: set<Record>)
    ensures AllResolve(t, published) <==>
              && Ownership in published
              && (t.sesTokens == [] ==> Dkim(t.key) in published)
              && forall i :: 0 <= i < |t.sesTokens| ==> SesDkim(t.sesTokens[i]) in published
  {
    PendingKeyIrrelevant(t, published);
    var keys := if t.sesTokens == [] then [Dkim(t.key)] else SesRecords(t.sesTokens);
    assert [] + [Ownership] + keys + [Spf, Dmarc] == [Ownership] + keys + [Spf, Dmarc];
    KeyRecordsResolve(keys, published);
    if t.sesTokens == [] {
      assert keys[0] == Dkim(t.key);
    } else {
      assert forall i :: 0 <= i < |t.sesTokens| ==> keys[i] == SesDkim(t.sesTokens[i]);
    }
  }

  lemma KeyRecordsResolve(keys: seq<Record>, published: set<Record>)
    requires forall i :: 0 <= i < |keys| ==> Required(keys[i])
    ensures IsVerified([Ownership] + keys + [Spf, Dmarc], published)
            <==> Ownership in published && forall i :: 0 <= i < |keys| ==> keys[i] in published
  {
    var rs := [Ownership] + keys + [Spf, Dmarc];
    assert rs[0] == Ownership && rs[1 + |keys|] == Spf && rs[2 + |keys|] == Dmarc;
    forall i | 0 <= i < |keys| && IsVerified(rs, published)
      ensures keys[i] in published
    {
      assert rs[1 + i] == keys[i];
    }
    forall i | 0 <= i < |rs| && Required(rs[i]) && Ownership in published
                 && forall k :: 0 <= k < |keys| ==> keys[k] in published
      ensures rs[i] in published
    {
      if 1 <= i <= |keys| {
        assert rs[i] == keys[i - 1];
      }
    }
  }

  lemma PendingResolvesMeans(t: Tenant, published: set<Record>)
    ensures PendingResolves(BuildRecords(t), published)
            <==> t.nextKey.Some? && DkimNext(t.nextKey.value) in published
  {
    var rs := BuildRecords(t);
    if t.nextKey.Some? {
      assert rs[0] == DkimNext(t.nextKey.value);
      assert forall i :: 0 < i < |rs| ==> !rs[i].DkimNext?;
    }
  }

  // ----- Deciders ---------------------------------------------------------------------------------------

  datatype Rotation = Keep | Start | Promote | Stalled | Retire

  function DecideRotation(t: Tenant, pendingResolves: bool, now: int, autoStart: bool): Rotation {
    if t.previousRetireAt.Some? && now >= t.previousRetireAt.value then Retire
    else if t.nextKey.Some? then
      if pendingResolves then Promote
      else if t.rotationStartedAt.Some? && now - t.rotationStartedAt.value >= STALL_AFTER then Stalled
      else Keep
    else if !autoStart then Keep
    else
      var born := if t.rotatedAt.Some? then t.rotatedAt else t.verifiedAt;
      if born.Some? && now - born.value >= ROTATION_AGE then Start else Keep
  }

  datatype Drift = Steady | Recovered(restore: bool) | Drifted | Grace | Suspend

  function DecideDrift(t: Tenant, ok: bool, now: int): Drift {
    if ok then
      if t.failingSince.None? then Steady else Recovered(t.status == Failed && t.level != Paused)
    else if t.failingSince.None? then Drifted
    else if t.status != Verified || now - t.failingSince.value < GRACE then Grace
    else Suspend
  }

  // ----- What a check writes; `seen` is the row as the sweep selected it ---------------------------------

  function Rotated(row: Tenant, seen: Tenant, published: set<Record>, now: int, autoStart: bool, newKey: nat): Tenant {
    match DecideRotation(seen, PendingResolves(BuildRecords(seen), published), now, autoStart)
    case Keep => row
    case Retire => row.(previousKey := None, previousRetireAt := None)
    case Stalled => row.(rotationStartedAt := Some(now))
    case Start => row.(nextKey := Some(newKey), rotationStartedAt := Some(now))
    case Promote =>
      row.(key := if seen.nextKey.Some? then seen.nextKey.value else row.key, nextKey := None,
           rotationStartedAt := None, rotatedAt := Some(now), previousKey := Some(seen.key),
           previousRetireAt := Some(now + RETIRE_AFTER))
  }

  function DriftApplied(row: Tenant, seen: Tenant, ok: bool, now: int): Tenant {
    match DecideDrift(seen, ok, now)
    case Steady => row.(lastChecked := Some(now))
    case Grace => row.(lastChecked := Some(now))
    case Recovered(restore) =>
      var r := row.(failingSince := None, lastChecked := Some(now));
      if restore then r.(status := Verified, verifiedAt := Some(now)) else r
    case Drifted => row.(failingSince := Some(now), lastChecked := Some(now))
    case Suspend => row.(status := Failed, lastChecked := Some(now))
  }

  function Checked(row: Tenant, seen: Tenant, published: set<Record>, now: int, autoStart: bool, newKey: nat): Tenant {
    DriftApplied(Rotated(row, seen, published, now, autoStart, newKey), seen, AllResolve(seen, published), now)
  }

  function Judged(row: Tenant, seen: Tenant, sample: Sample): Tenant {
    var d := Evaluate(sample, seen.level);
    if !d.changed then row
    else if d.level == Paused then row.(level := Paused, status := Disabled)
    else row.(level := d.level)
  }

  // ----- What the routes of the dashboard write -------------------------------------------------------------

  const MAX_SELF_RESUMES := 2

  predicate MayResume(seen: Tenant, recent: nat) {
    seen.level == Paused && recent < MAX_SELF_RESUMES
  }

  /** `recent` counts the resumes of the last thirty days. */
  function ResumedBy(row: Tenant, seen: Tenant, recent: nat): Tenant {
    if MayResume(seen, recent) then row.(level := Ok, status := Verified) else row
  }

  predicate MayStart(seen: Tenant) {
    seen.verifiedAt.Some? && seen.nextKey.None?
  }

  function StartedByHand(row: Tenant, seen: Tenant, now: int, newKey: nat): Tenant {
    if MayStart(seen) then row.(nextKey := Some(newKey), rotationStartedAt := Some(now)) else row
  }

  function CancelledByHand(row: Tenant, seen: Tenant): Tenant {
    if seen.nextKey.Some? then row.(nextKey := None, rotationStartedAt := None) else row
  }

  /** A check by hand passes when all records resolve and, where SES sends the mail, SES agrees. */
  predicate PassesByHand(seen: Tenant, published: set<Record>, sesAgrees: bool) {
    AllResolve(seen, published) && sesAgrees
  }

  /** `registered` holds the SES tokens of a registration that was missing; the records checked are still without. */
  function VerifiedByHand(row: Tenant, seen: Tenant, published: set<Record>, sesAgrees: bool,
                          registered: Option<seq<nat>>, now: int): Tenant {
    var ok := PassesByHand(seen, published, sesAgrees);
    row.(status := if seen.level == Paused then Disabled else if ok then Verified else Failed,
         lastChecked := Some(now),
         verifiedAt := if ok then Some(now) else seen.verifiedAt,
         sesTokens := if seen.sesTokens == [] && registered.Some? then registered.value else row.sesTokens)
  }

  // ----- The row ------------------------------------------------------------------------------------------

  class TenantRow {
    var status: Status
    var level: Level
    var verifiedAt: Option<int>
    var failingSince: Option<int>
    var lastChecked: Option<int>
    var key: nat
    var nextKey: Option<nat>
    var previousKey: Option<nat>
    var previousRetireAt: Option<int>
    var rotationStartedAt: Option<int>
    var rotatedAt: Option<int>
    var sesTokens: seq<nat>

    function Row(): Tenant
      reads this
    {
      Tenant(status, level, verifiedAt, failingSince, lastChecked, key, nextKey, previousKey, previousRetireAt,
             rotationStartedAt, rotatedAt, sesTokens)
    }

    method ApplyDkimRotation(seen: Tenant, records: seq<Record>, published: set<Record>, now: int, autoStart: bool,
                             newKey: nat)
      requires records == BuildRecords(seen)
      modifies this
      ensures Row() == Rotated(old(Row()), seen, published, now, autoStart, newKey)
    {
      match DecideRotation(seen, PendingResolves(records, published), now, autoStart) {
        case Keep =>
        case Retire =>
          previousKey := None;
          previousRetireAt := None;
        case Stalled =>
          rotationStartedAt := Some(now);
        case Start =>
          nextKey := Some(newKey);
          rotationStartedAt := Some(now);
        case Promote =>
          key := seen.nextKey.value;
          nextKey := None;
          rotationStartedAt := None;
          rotatedAt := Some(now);
          previousKey := Some(seen.key);
          previousRetireAt := Some(now + RETIRE_AFTER);
      }
    }

    /** Re-check the tenant's DNS and act on what changed; `moved` says whether anyone is told. */
    method CheckTenantDns(seen: Tenant, published: set<Record>, now: int, autoStart: bool, newKey: nat)
        returns (moved: bool)
      modifies this
      ensures Row() == Checked(old(Row()), seen, published, now, autoStart, newKey)
      ensures moved <==>
                (seen.failingSince.Some? <==> AllResolve(seen, published))
                || (!AllResolve(seen, published) && seen.failingSince.Some? && seen.status == Verified
                    && now - seen.failingSince.value >= GRACE)
    {
      var records := BuildRecords(seen);
      ApplyDkimRotation(seen, records, published, now, autoStart, newKey);
      var decision := DecideDrift(seen, IsVerified(records, published), now);
      lastChecked := Some(now);
      moved := !decision.Steady? && !decision.Grace?;
      match decision {
        case Steady =>
        case Grace =>
        case Recovered(restore) =>
          failingSince := None;
          if restore {
            status := Verified;
            verifiedAt := Some(now);
          }
        case Drifted =>
          failingSince := Some(now);
        case Suspend =>
          status := Failed;
      }
    }

    method EvaluateTenant(seen: Tenant, counts: Outcomes) returns (moved: bool)
      modifies this
      ensures Row() == Judged(old(Row()), seen, SampleFromCounts(counts))
      ensures moved <==> Evaluate(SampleFromCounts(counts), seen.level).changed
    {
      var decision := Evaluate(SampleFromCounts(counts), seen.level);
      moved := decision.changed;
      if moved {
        level := decision.level;
        if decision.level == Paused {
          status := Disabled;
        }
      }
    }

    /** The parent workspace lets a paused tenant send again. */
    method Resume(seen: Tenant, recent: nat) returns (ok: bool)
      modifies this
      ensures ok <==> MayResume(seen, recent)
      ensures Row() == ResumedBy(old(Row()), seen, recent)
    {
      ok := seen.level == Paused && recent < MAX_SELF_RESUMES;
      if ok {
        level := Ok;
        status := Verified;
      }
    }

    /** The parent workspace asks for a new key; nothing is switched over yet. */
    method Rotate(seen: Tenant, now: int, newKey: nat) returns (ok: bool)
      modifies this
      ensures ok <==> MayStart(seen)
      ensures Row() == StartedByHand(old(Row()), seen, now, newKey)
    {
      ok := seen.nextKey.None? && seen.verifiedAt.Some?;
      if ok {
        nextKey := Some(newKey);
        rotationStartedAt := Some(now);
      }
    }

    method CancelRotation(seen: Tenant) returns (ok: bool)
      modifies this
      ensures ok <==> seen.nextKey.Some?
      ensures Row() == CancelledByHand(old(Row()), seen)
    {
      ok := seen.nextKey.Some?;
      if ok {
        nextKey := None;
        rotationStartedAt := None;
      }
    }

    /** The verify button. It registers the domain with SES where that is still missing. */
    method Verify(seen: Tenant, published: set<Record>, sesAgrees: bool, registered: Option<seq<nat>>, now: int)
        returns (verified: bool)
      modifies this
      ensures verified <==> PassesByHand(seen, published, sesAgrees)
      ensures Row() == VerifiedByHand(old(Row()), seen, published, sesAgrees, registered, now)
    {
      var records := BuildRecords(seen);
      if seen.sesTokens == [] && registered.Some? {
        sesTokens := registered.value;
      }
      verified := IsVerified(records, published) && sesAgrees;
      status := if seen.level == Paused then Disabled else if verified then Verified else Failed;
      lastChecked := Some(now);
      verifiedAt := if verified then Some(now) else seen.verifiedAt;
    }
  }
}
