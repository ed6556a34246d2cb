/**
 * The hourly send meter of one throttled tenant, kept in Redis, and the deferral loop around it.
 * Times are in milliseconds.
 */
module Throttle {
  import opened Prelude

  const WINDOW := 3_600_000
  const SLACK := 60_000
  const LIMIT := 60
  const MAX_DEFERRALS := 26

  function WindowOf(now: nat): nat {
    now / WINDOW
  }

  function Start(window: nat): nat {
    window * WINDOW
  }

  /** How long a refused send waits. */
  function RetryIn(now: nat): nat {
    WINDOW - now % WINDOW
  }

  /** A refused send comes back exactly when the next window opens. */
  lemma RetryAtNextWindow(now: nat)
    ensures 0 < RetryIn(now) <= WINDOW && now + RetryIn(now) == Start(WindowOf(now) + 1)
  {
  }

  // ----- The meter as a state machine -----------------------------------------------------------------

  /** A counter and the time it expires at, once a time to live is set. */
  datatype Counter = Counter(count: nat, expiresAt: Option<nat>)

  /** A worker between its commands: it has chosen a window, or was first in one and must still set the TTL. */
  datatype Worker = Idle | Chosen(window: nat) | First(window: nat)

  /** `granted` counts the sends let through per window since its counter was last cleared. */
  datatype State = State(now: nat, counters: map<nat, Counter>, workers: map<nat, Worker>, granted: map<nat, nat>)

  datatype Event =
    | Pass(time: nat)
    | Choose(worker: nat)
    | Increment(worker: nat)
    | SetExpiry(worker: nat)
    | Crash(worker: nat)
    | Clear(window: nat)

  function WorkerOf(s: State, w: nat): Worker {
    if w in s.workers then s.workers[w] else Idle
  }

  function GrantedIn(s: State, window: nat): nat {
    if window in s.granted then s.granted[window] else 0
  }

  function CountIn(s: State, window: nat): nat {
    if window in s.counters then s.counters[window].count else 0
  }

  predicate Expired(c: Counter, now: nat) {
    c.expiresAt.Some? && c.expiresAt.value <= now
  }

  /** Which events can happen. */
  predicate Enabled(s: State, e: Event) {
    match e
    case Pass(time) => s.now <= time
    case Choose(w) => WorkerOf(s, w).Idle?
    case Increment(w) => WorkerOf(s, w).Chosen?
    case SetExpiry(w) => WorkerOf(s, w).First?
    case Crash(_) => true
    case Clear(_) => true
  }

  function Step(s: State, limit: nat, e: Event): State
    requires Enabled(s, e)
  {
    match e
    case Pass(time) =>
      s.(now := time, counters := map k | k in s.counters && !Expired(s.counters[k], time) :: s.counters[k])
    case Choose(w) => s.(workers := s.workers[w := Chosen(WindowOf(s.now))])
    case Increment(w) =>
      var k := WorkerOf(s, w).window;
      var used := CountIn(s, k) + 1;
      var ttl := if k in s.counters then s.counters[k].expiresAt else None;
      s.(counters := s.counters[k := Counter(used, ttl)],
         workers := s.workers[w := if used == 1 then First(k) else Idle],
         granted := if used <= limit then s.granted[k := GrantedIn(s, k) + 1] else s.granted)
    case SetExpiry(w) =>
      var k := WorkerOf(s, w).window;
      s.(workers := s.workers[w := Idle],
         counters := if k in s.counters
                     then s.counters[k := s.counters[k].(expiresAt := Some(s.now + WINDOW + SLACK))]
                     else s.counters)
    case Crash(w) => s.(workers := s.workers[w := Idle])
    case Clear(k) => s.(counters := s.counters - {k}, granted := s.granted - {k})
  }

  /** An increment lands less than `d` after the end of the window it was chosen for. */
  predicate LandsBy(s: State, e: Event, d: int) {
    e.Increment? && WorkerOf(s, e.worker).Chosen? ==> s.now < Start(WorkerOf(s, e.worker).window + 1) + d
  }

  predicate CanRun(s: State, limit: nat, es: seq<Event>)
    decreases |es|
  {
    es == [] || (Enabled(s, es[0]) && CanRun(Step(s, limit, es[0]), limit, es[1..]))
  }

  predicate AllLandBy(s: State, limit: nat, es: seq<Event>, d: int)
    requires CanRun(s, limit, es)
    decreases |es|
  {
    es == [] || (LandsBy(s, es[0], d) && AllLandBy(Step(s, limit, es[0]), limit, es[1..], d))
  }

  function Run(s: State, limit: nat, es: seq<Event>): State
    requires CanRun(s, limit, es)
    decreases |es|
  {
    if es == [] then s else Run(Step(s, limit, es[0]), limit, es[1..])
  }

  ghost predicate Inv(s: State, limit: nat) {
    && (forall w :: w in s.workers && !s.workers[w].Idle? ==> Start(s.workers[w].window) <= s.now)
    && (forall k :: k in s.counters && s.counters[k].expiresAt.Some? ==>
                      Start(k + 1) + SLACK <= s.counters[k].expiresAt.value)
    && (forall k :: GrantedIn(s, k) <= limit && WithinCount(s, k))
  }

  /** What was granted is still counted, unless the window is long over. */
  ghost predicate WithinCount(s: State, k: nat) {
    if k in s.counters then GrantedIn(s, k) <= s.counters[k].count
    else GrantedIn(s, k) == 0 || Start(k + 1) + SLACK <= s.now
  }

  lemma StepKeepsInv(s: State, limit: nat, e: Event)
    requires Inv(s, limit) && Enabled(s, e) && LandsBy(s, e, SLACK)
    ensures Inv(Step(s, limit, e), limit)
  {
    var t := Step(s, limit, e);
    forall k
      ensures GrantedIn(t, k) <= limit && WithinCount(t, k)
    {
      assert GrantedIn(s, k) <= limit && WithinCount(s, k);
    }
    if e.Choose? {
      assert Start(WindowOf(s.now)) <= s.now;
    }
    if e.SetExpiry? {
      var k := WorkerOf(s, e.worker).window;
      assert Start(k + 1) == Start(k) + WINDOW;
    }
  }

  lemma {:induction false} RunKeepsInv(s: State, limit: nat, es: seq<Event>, d: int)
    requires d <= SLACK && Inv(s, limit) && CanRun(s, limit, es) && AllLandBy(s, limit, es, d)
    ensures Inv(Run(s, limit, es), limit)
    decreases |es|
  {
    if es != [] {
      StepKeepsInv(s, limit, es[0]);
      RunKeepsInv(Step(s, limit, es[0]), limit, es[1..], d);
    }
  }

  function Initial(now: nat): State {
    State(now, map[], map[], map[])
  }

  /** However the workers interleave or crash, no window grants more than the limit between two clears. */
  lemma AtMostLimitPerWindow(now: nat, limit: nat, es: seq<Event>, window: nat, d: int)
    requires d <= SLACK && CanRun(Initial(now), limit, es) && AllLandBy(Initial(now), limit, es, d)
    ensures GrantedIn(Run(Initial(now), limit, es), window) <= limit
  {
    RunKeepsInv(Initial(now), limit, es, d);
  }

  // ----- Later increments go over --------------------------------------------------------------------------

  const EXPIRY := WINDOW + SLACK

  /** Worker 1 takes `n` more tokens, the counter expires, and worker 2 increments for the window it chose before. */
  function Overrun(n: nat): seq<Event> {
    if n == 0 then [Pass(EXPIRY), Increment(2)] else [Choose(1), Increment(1)] + Overrun(n - 1)
  }

  /** `count` tokens of window 0 are taken, and worker 2 is about to take one more. */
  predicate Taken(s: State, count: nat) {
    && s.now == 0 && 0 in s.counters && s.counters[0] == Counter(count, Some(EXPIRY))
    && WorkerOf(s, 1).Idle? && WorkerOf(s, 2) == Chosen(0) && GrantedIn(s, 0) == count
  }

  lemma LateIncrement(s: State, limit: nat, d: int)
    requires Taken(s, limit) && limit >= 1 && d > SLACK
    ensures CanRun(s, limit, Overrun(0)) && AllLandBy(s, limit, Overrun(0), d)
    ensures GrantedIn(Run(s, limit, Overrun(0)), 0) == limit + 1
  {
    var es := Overrun(0);
    var s1 := Step(s, limit, es[0]);
    assert es[1..] == [Increment(2)] && es[1..][1..] == [];
    assert 0 !in s1.counters && WorkerOf(s1, 2) == Chosen(0) && GrantedIn(s1, 0) == limit;
    var s2 := Step(s1, limit, Increment(2));
    assert CanRun(s2, limit, []) && Run(s1, limit, [Increment(2)]) == s2;
    assert CanRun(s1, limit, [Increment(2)]) && AllLandBy(s1, limit, [Increment(2)], d);
  }

  lemma OneMoreToken(s: State, limit: nat, count: nat)
    requires Taken(s, count) && 1 <= count < limit
    ensures Enabled(s, Choose(1)) && Enabled(Step(s, limit, Choose(1)), Increment(1))
    ensures Taken(Step(Step(s, limit, Choose(1)), limit, Increment(1)), count + 1)
  {
  }

  lemma RunTwo(s: State, limit: nat, a: Event, b: Event, es: seq<Event>, d: int)
    requires Enabled(s, a) && Enabled(Step(s, limit, a), b) && LandsBy(s, a, d) && LandsBy(Step(s, limit, a), b, d)
    requires var t := Step(Step(s, limit, a), limit, b); CanRun(t, limit, es) && AllLandBy(t, limit, es, d)
    ensures CanRun(s, limit, [a, b] + es) && AllLandBy(s, limit, [a, b] + es, d)
    ensures Run(s, limit, [a, b] + es) == Run(Step(Step(s, limit, a), limit, b), limit, es)
  {
    assert ([a, b] + es)[1..] == [b] + es && ([b] + es)[1..] == es;
    assert CanRun(Step(s, limit, a), limit, [b] + es);
  }

  lemma {:induction false} OverrunRuns(s: State, limit: nat, count: nat, d: int)
    requires Taken(s, count) && 1 <= count <= limit && d > SLACK
    ensures CanRun(s, limit, Overrun(limit - count)) && AllLandBy(s, limit, Overrun(limit - count), d)
    ensures GrantedIn(Run(s, limit, Overrun(limit - count)), 0) == limit + 1
    decreases limit - count
  {
    if count == limit {
      LateIncrement(s, limit, d);
    } else {
      OneMoreToken(s, limit, count);
      OverrunRuns(Step(Step(s, limit, Choose(1)), limit, Increment(1)), limit, count + 1, d);
      RunTwo(s, limit, Choose(1), Increment(1), Overrun(limit - count - 1), d);
    }
  }

  /** The whole run: worker 2 chooses its window, worker 1 takes the first token and sets the time to live. */
  function Overtaking(limit: nat): seq<Event>
    requires limit >= 1
  {
    [Choose(2), Choose(1)] + ([Increment(1), SetExpiry(1)] + Overrun(limit - 1))
  }

  lemma OvertakingGoesOver(limit: nat, d: int)
    requires limit >= 1 && d > SLACK
    ensures CanRun(Initial(0), limit, Overtaking(limit)) && AllLandBy(Initial(0), limit, Overtaking(limit), d)
    ensures GrantedIn(Run(Initial(0), limit, Overtaking(limit)), 0) == limit + 1
  {
    var s0 := Initial(0);
    var s2 := Step(Step(s0, limit, Choose(2)), limit, Choose(1));
    assert WorkerOf(s2, 1) == Chosen(0) && WorkerOf(s2, 2) == Chosen(0);
    var s3 := Step(s2, limit, Increment(1));
    assert WorkerOf(s3, 1) == First(0) && GrantedIn(s3, 0) == 1;
    assert Taken(Step(s3, limit, SetExpiry(1)), 1);
    OverrunRuns(Step(s3, limit, SetExpiry(1)), limit, 1, d);
    RunTwo(s2, limit, Increment(1), SetExpiry(1), Overrun(limit - 1), d);
    RunTwo(s0, limit, Choose(2), Choose(1), [Increment(1), SetExpiry(1)] + Overrun(limit - 1), d);
  }

  /** No run whose increments land within `d` after their window's end grants more than the limit. */
  ghost predicate LimitHolds(limit: nat, d: int) {
    forall now: nat, es: seq<Event>, window: nat ::
      CanRun(Initial(now), limit, es) && AllLandBy(Initial(now), limit, es, d) ==>
        GrantedIn(Run(Initial(now), limit, es), window) <= limit
  }

  /** The meter keeps its limit, whatever it is, exactly as long as no increment is later than the slack of its TTL. */
  lemma LimitHoldsIff(limit: nat, d: int)
    requires limit >= 1
    ensures LimitHolds(limit, d) <==> d <= SLACK
  {
    if d <= SLACK {
      forall now: nat, es: seq<Event>, window: nat |
          CanRun(Initial(now), limit, es) && AllLandBy(Initial(now), limit, es, d)
        ensures GrantedIn(Run(Initial(now), limit, es), window) <= limit
      {
        AtMostLimitPerWindow(now, limit, es, window, d);
      }
    } else {
      OvertakingGoesOver(limit, d);
    }
  }

  /** So it is for the sixty sends an hour that the gate asks for. */
  lemma GateLimitHoldsIff(d: int)
    ensures LimitHolds(LIMIT, d) <==> d <= SLACK
  {
    LimitHoldsIff(LIMIT, d);
  }

  // ----- One message at the gate --------------------------------------------------------------------------

  datatype Level = Fine | Throttled | Paused

  /** What the gate sees when a job of the message comes up. */
  datatype Sight = Sight(now: nat, verified: bool, suspended: bool, level: Level, allowed: bool)

  datatype Verdict =
    | Go
    | Suspended
    | Blocked
    | Requeue(deferrals: nat, at: nat)
    | Expired
    | HeldTooLong

  /** `authExpiresAt` is set on auth mail only; `margin` is what a send needs before that. */
  function Gate(sight: Sight, deferrals: nat, authExpiresAt: Option<nat>, margin: nat): Verdict {
    if !sight.verified || sight.suspended then Suspended
    else if sight.level == Paused then Blocked
    else if sight.level != Throttled || sight.allowed then Go
    else if authExpiresAt.Some? && sight.now + RetryIn(sight.now) + margin >= authExpiresAt.value then Verdict.Expired
    else if deferrals + 1 > MAX_DEFERRALS then HeldTooLong
    else Requeue(deferrals + 1, sight.now + RetryIn(sight.now))
  }

  /** The deferral count a message reaches, going through the gate again each time it is put back. */
  function Deferrals(sights: seq<Sight>, deferrals: nat, authExpiresAt: Option<nat>, margin: nat): nat {
    if sights == [] then deferrals
    else
      match Gate(sights[0], deferrals, authExpiresAt, margin)
      case Requeue(n, _) => Deferrals(sights[1..], n, authExpiresAt, margin)
      case _ => deferrals
  }

  /** How often a message is looked at before it passes or fails. */
  function Visits(sights: seq<Sight>, deferrals: nat, authExpiresAt: Option<nat>, margin: nat): nat {
    if sights == [] then 0
    else
      match Gate(sights[0], deferrals, authExpiresAt, margin)
      case Requeue(n, _) => 1 + Visits(sights[1..], n, authExpiresAt, margin)
      case _ => 1
  }

  /** A message is put back at most 26 times: by its 27th visit it has passed or failed. */
  lemma {:induction false} DeferralsBounded(sights: seq<Sight>, deferrals: nat, authExpiresAt: Option<nat>, margin: nat)
    requires deferrals <= MAX_DEFERRALS
    ensures Deferrals(sights, deferrals, authExpiresAt, margin) <= MAX_DEFERRALS
    ensures Visits(sights, deferrals, authExpiresAt, margin) <= MAX_DEFERRALS - deferrals + 1
    decreases |sights|
  {
    if sights != [] {
      var v := Gate(sights[0], deferrals, authExpiresAt, margin);
      if v.Requeue? {
        DeferralsBounded(sights[1..], v.deferrals, authExpiresAt, margin);
      }
    }
  }

  /** A deferred auth message still has time to be sent when it comes back, and comes back as a window opens. */
  lemma RequeueIsUseful(sight: Sight, deferrals: nat, authExpiresAt: Option<nat>, margin: nat)
    requires Gate(sight, deferrals, authExpiresAt, margin).Requeue?
    ensures var at := Gate(sight, deferrals, authExpiresAt, margin).at;
            && at == Start(WindowOf(sight.now) + 1)
            && (authExpiresAt.Some? ==> at + margin < authExpiresAt.value)
  {
    RetryAtNextWindow(sight.now);
  }
}
