/** Fanning a campaign out to its audience, with a cancellation check every so often. */
module Campaigns {
  import opened Prelude

  const CHECK_EVERY := 25

  /** How one send ended. */
  datatype Outcome = Delivered | Suppressed | Failed

  /** The status column; `Open` stands for every status before the job has started. */
  datatype Status = Open | Sending | Sent | Cancelled

  /** A moment in the life of the job that sends a campaign. */
  datatype Moment =
    | BeforeRead
    | BeforeStart           // after the job's first read of the row, before its write of "sending"
    | After(members: nat)   // after "sending" was written and so many members were dealt with
    | AfterEnd              // after the job's last write

  datatype Report = Report(recipients: nat, sent: nat, suppressed: nat, failed: nat, notSent: Option<nat>)

  function Count(os: seq<Outcome>, o: Outcome): nat {
    if os == [] then 0 else Count(os[..|os| - 1], o) + if os[|os| - 1] == o then 1 else 0
  }

  // ----- What the job does, given when the cancel route writes -----------------------------------------------

  /** A call has cancelled the row by the time member `idx` is up. */
  predicate CancelledBy(idx: nat, calls: set<Moment>) {
    exists n | 0 <= n <= idx :: After(n) in calls
  }

  /** The check before member `idx` sees a cancellation. */
  predicate StopsAt(idx: nat, calls: set<Moment>) {
    idx > 0 && idx % CHECK_EVERY == 0 && CancelledBy(idx, calls)
  }

  /** How many of `total` members a started job deals with: all, or up to the first check that stops it. */
  function Reached(total: nat, calls: set<Moment>, idx: nat): (r: nat)
    requires idx <= total
    ensures idx <= r <= total && (r < total ==> StopsAt(r, calls))
    ensures forall i: nat :: idx <= i < r ==> !StopsAt(i, calls)
    decreases total - idx
  {
    if idx == total || StopsAt(idx, calls) then idx else Reached(total, calls, idx + 1)
  }

  /** The job runs at all. */
  predicate Starts(status: Status, calls: set<Moment>) {
    status != Sent && status != Cancelled && BeforeRead !in calls
  }

  function Mailed(status: Status, total: nat, calls: set<Moment>): nat {
    if Starts(status, calls) then Reached(total, calls, 0) else 0
  }

  /** The status in the end. */
  function Final(status: Status, total: nat, calls: set<Moment>): Status {
    if AfterEnd in calls || BeforeRead in calls || status == Cancelled then Cancelled
    else if status != Sent && Reached(total, calls, 0) < total then Cancelled
    else Sent
  }

  /** What the cancel route does not turn down. */
  predicate Accepted(read: Status) {
    read != Sent && read != Cancelled
  }

  class CampaignRow {
    var status: Status

    /** The cancel route writes without looking again. */
    method Land(due: bool)
      modifies this
      ensures status == if due then Cancelled else old(status)
    {
      if due {
        status := Cancelled;
      }
    }

    /** `outcomes[i]` is how the send to member `i` would end; `calls` says when accepted calls of the route land. */
    method ProcessCampaignSend(outcomes: seq<Outcome>, calls: set<Moment>) returns (r: Option<Report>)
      modifies this
      ensures status == Final(old(status), |outcomes|, calls)
      ensures r.Some? <==> Starts(old(status), calls)
      ensures r.Some? ==>
                var n := Mailed(old(status), |outcomes|, calls);
                && r.value.recipients == |outcomes|
                && r.value.sent == Count(outcomes[..n], Delivered)
                && r.value.suppressed == Count(outcomes[..n], Suppressed)
                && r.value.failed == Count(outcomes[..n], Failed)
                && r.value.notSent == if n < |outcomes| then Some(|outcomes| - n) else None
    {
      Land(BeforeRead in calls);
      var read := status;
      if read == Sent || read == Cancelled {
        Land(AfterEnd in calls);
        return None;
      }
      Land(BeforeStart in calls);
      status := Sending;
      var sent, suppressed, failed := 0, 0, 0;
      var cancelled := false;
      var idx := 0;
      while idx < |outcomes|
        invariant idx <= |outcomes| && !cancelled
        invariant Reached(|outcomes|, calls, idx) == Reached(|outcomes|, calls, 0)
        invariant status == if idx > 0 && CancelledBy(idx - 1, calls) then Cancelled else Sending
        invariant sent == Count(outcomes[..idx], Delivered) && suppressed == Count(outcomes[..idx], Suppressed)
        invariant failed == Count(outcomes[..idx], Failed) && sent + suppressed + failed == idx
      {
        Land(After(idx) in calls);
        if idx > 0 && idx % CHECK_EVERY == 0 && status == Cancelled {
          cancelled := true;
          break;
        }
        assert outcomes[..idx + 1][..idx] == outcomes[..idx];
        match outcomes[idx] {
          case Delivered => sent := sent + 1;
          case Suppressed => suppressed := suppressed + 1;
          case Failed => failed := failed + 1;
        }
        idx := idx + 1;
      }
      Land(After(|outcomes|) in calls);
      status := if cancelled then Cancelled else Sent;
      Land(AfterEnd in calls);
      r := Some(Report(|outcomes|, sent, suppressed, failed,
                       if cancelled then Some(|outcomes| - sent - suppressed - failed) else None));
    }
  }

  lemma {:induction false} CountsCover(os: seq<Outcome>)
    ensures Count(os, Delivered) + Count(os, Suppressed) + Count(os, Failed) == |os|
  {
    if os != [] {
      CountsCover(os[..|os| - 1]);
    }
  }

  /** Everybody is accounted for. */
  lemma ReportConserves(status: Status, outcomes: seq<Outcome>, calls: set<Moment>)
    ensures var n := Mailed(status, |outcomes|, calls);
            && n <= |outcomes|
            && Count(outcomes[..n], Delivered) + Count(outcomes[..n], Suppressed) + Count(outcomes[..n], Failed)
               + (|outcomes| - n) == |outcomes|
  {
    CountsCover(outcomes[..Mailed(status, |outcomes|, calls)]);
  }

  /** The first check at or after `n` members. */
  function FirstCheck(n: nat): nat {
    if n == 0 then CHECK_EVERY else (n + CHECK_EVERY - 1) / CHECK_EVERY * CHECK_EVERY
  }

  lemma FirstCheckIsFirst(n: nat)
    ensures FirstCheck(n) > 0 && FirstCheck(n) % CHECK_EVERY == 0 && n <= FirstCheck(n) <= n + CHECK_EVERY
    ensures forall i: nat :: n <= i && i > 0 && i % CHECK_EVERY == 0 ==> FirstCheck(n) <= i
  {
    forall i: nat | n <= i && i > 0 && i % CHECK_EVERY == 0
      ensures FirstCheck(n) <= i
    {
      var k := i / CHECK_EVERY;
      assert i == k * CHECK_EVERY && n <= k * CHECK_EVERY;
      assert (n + CHECK_EVERY - 1) / CHECK_EVERY <= k;
    }
  }

  /** Whatever else is called, at most 25 members are mailed after a call that lands once the job has started. */
  lemma AtMost25AfterCancel(status: Status, total: nat, calls: set<Moment>, n: nat)
    requires After(n) in calls && n <= total
    ensures Mailed(status, total, calls) <= n + CHECK_EVERY
    ensures Mailed(status, total, calls) < total || FirstCheck(n) >= total || !Starts(status, calls)
  {
    FirstCheckIsFirst(n);
    assert CancelledBy(FirstCheck(n), calls);
    assert StopsAt(FirstCheck(n), calls);
  }

  // ----- One call of the cancel route -------------------------------------------------------------------------

  /** When the route read the row and when it wrote it. */
  datatype Call = Call(asked: Moment, landed: Moment)

  predicate NotAfter(a: Moment, b: Moment) {
    match (a, b)
    case (BeforeRead, _) => true
    case (_, AfterEnd) => true
    case (BeforeStart, _) => b != BeforeRead
    case (After(m), After(n)) => m <= n
    case _ => false
  }

  /** What the route reads at a moment of a job that nobody has cancelled before. */
  function ReadAt(status: Status, total: nat, m: Moment): Status {
    match m
    case BeforeRead => status
    case BeforeStart => status
    case After(_) => Sending
    case AfterEnd => Final(status, total, {})
  }

  function Landings(status: Status, total: nat, c: Call): set<Moment> {
    if Accepted(ReadAt(status, total, c.asked)) then {c.landed} else {}
  }

  /** A cancellation that stops the job: before the job reads, or after its first write with a check still to come. */
  predicate Effective(m: Moment, total: nat) {
    match m
    case BeforeRead => true
    case BeforeStart => false
    case After(n) => FirstCheck(n) < total
    case AfterEnd => false
  }

  lemma StopsAtOnly(idx: nat, m: Moment)
    ensures StopsAt(idx, {m}) <==> m.After? && m.members <= idx && idx > 0 && idx % CHECK_EVERY == 0
  {
    if m.After? && m.members <= idx {
      assert After(m.members) in {m};
    }
  }

  lemma StopsNever(total: nat)
    ensures Reached(total, {}, 0) == total
  {
    var r := Reached(total, {}, 0);
    assert forall i: nat :: !StopsAt(i, {});
  }

  lemma OneLanding(total: nat, m: Moment)
    requires m != BeforeRead
    ensures Reached(total, {m}, 0) == if Effective(m, total) then FirstCheck(m.members) else total
  {
    var r := Reached(total, {m}, 0);
    StopsAtOnly(r, m);
    if m.After? {
      FirstCheckIsFirst(m.members);
      StopsAtOnly(FirstCheck(m.members), m);
    }
  }

  /**
   * A call of the cancel route stops a campaign exactly when it was accepted and is effective; otherwise everybody is
   * mailed. The row ends as cancelled then, and also when an accepted call writes after the job's last write: that
   * campaign reads as cancelled although everybody was mailed.
   */
  lemma CancelTakesEffectIff(status: Status, total: nat, c: Call)
    requires status != Sent && status != Cancelled && NotAfter(c.asked, c.landed)
    ensures var calls := Landings(status, total, c);
            var stopped := c.asked != AfterEnd && Effective(c.landed, total);
            && Mailed(status, total, calls) == (if !stopped then total
                                                else if c.landed == BeforeRead then 0 else FirstCheck(c.landed.members))
            && (Final(status, total, calls) == Cancelled
                <==> stopped || (c.asked != AfterEnd && c.landed == AfterEnd))
  {
    StopsNever(total);
    if c.asked != AfterEnd && c.landed != BeforeRead {
      OneLanding(total, c.landed);
    }
  }

  /** And a call that was erased can be repeated: the row says "sending" again. */
  lemma ErasedCallCanBeRepeated(status: Status, total: nat, n: nat)
    requires status != Sent && status != Cancelled && n <= total
    ensures Mailed(status, total, {BeforeStart, After(n)}) == Mailed(status, total, {After(n)})
  {
    forall i: nat
      ensures StopsAt(i, {BeforeStart, After(n)}) <==> StopsAt(i, {After(n)})
    {
      assert forall k :: After(k) in {BeforeStart, After(n)} <==> After(k) in {After(n)};
    }
    var a, b := Reached(total, {BeforeStart, After(n)}, 0), Reached(total, {After(n)}, 0);
    assert a < b ==> StopsAt(a, {After(n)});
    assert b < a ==> StopsAt(b, {After(n)});
  }
}
