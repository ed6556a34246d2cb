/** The drip-sequence interpreter: one enrollment advances through its steps, a tick at a time. */
module Sequences {
  import opened Prelude

  const MAX_ITERATIONS := 50
  const HOUR := 3_600_000.0

  datatype StepDef =
    | Wait(hours: real)
    | Send(template: nat)
    | Branch(goto: nat, withinHours: real)

  datatype Status = Active | Completed | Failed | Exited

  datatype Sent = Sent(step: nat, template: nat, messageId: nat)

  /** One enrollment row, with everything it has sent. */
  datatype Enrollment = Enrollment(step: nat, nextRunAt: real, status: Status, lastMessageId: Option<nat>,
                                   sends: seq<Sent>)

  datatype Capacity = Free | Full(retryAt: Option<real>)

  /** What the outside says during one iteration: clock, template lookup, capacity, mail events. */
  datatype Answer = Answer(now: real, template: bool, capacity: Capacity, messageId: nat, occurred: bool,
                           sentAt: Option<real>)

  // ----- One iteration ---------------------------------------------------------------------------

  /** Whether the loop goes on after an iteration at this state. */
  predicate GoesOn(steps: seq<StepDef>, e: Enrollment, a: Answer) {
    e.step < |steps| &&
    match steps[e.step]
    case Wait(hours) => hours <= 0.0
    case Send(_) => a.template && a.capacity.Free?
    case Branch(_, within) => e.lastMessageId.None? || a.occurred || a.now >= WindowEnd(a, within)
  }

  function WindowEnd(a: Answer, within: real): real {
    (if a.sentAt.Some? then a.sentAt.value else a.now) + within * HOUR
  }

  function Micro(steps: seq<StepDef>, e: Enrollment, a: Answer): Enrollment {
    if e.step >= |steps| then e.(status := Completed)
    else
      match steps[e.step]
      case Wait(hours) =>
        if hours > 0.0 then e.(step := e.step + 1, nextRunAt := a.now + hours * HOUR) else e.(step := e.step + 1)
      case Send(template) =>
        if !a.template then e.(status := Failed)
        else if a.capacity.Full? then
          e.(nextRunAt := if a.capacity.retryAt.Some? then a.capacity.retryAt.value else a.now + HOUR)
        else e.(step := e.step + 1, lastMessageId := Some(a.messageId),
                sends := e.sends + [Sent(e.step, template, a.messageId)])
      case Branch(goto, within) =>
        if e.lastMessageId.None? then e.(step := e.step + 1)
        else if a.occurred then e.(step := goto)
        else if a.now < WindowEnd(a, within) then e.(nextRunAt := a.now)
        else e.(step := e.step + 1)
  }

  /** The uncut run: one iteration after the other until the enrollment is no longer active. */
  function Uncut(steps: seq<StepDef>, e: Enrollment, answers: seq<Answer>): Enrollment
    decreases |answers|
  {
    if answers == [] || e.status != Active then e
    else Uncut(steps, Micro(steps, e, answers[0]), answers[1..])
  }

  /** How many iterations one tick takes when cut after `limit`. */
  function TickLength(steps: seq<StepDef>, e: Enrollment, answers: seq<Answer>, limit: nat): (n: nat)
    ensures n <= limit && n <= |answers|
    ensures limit > 0 && answers != [] ==> n > 0
    decreases limit
  {
    if limit == 0 || answers == [] then 0
    else if !GoesOn(steps, e, answers[0]) then 1
    else 1 + TickLength(steps, Micro(steps, e, answers[0]), answers[1..], limit - 1)
  }

  // ----- One tick -----------------------------------------------------------------------------------

  class EnrollmentRow {
    var step: nat
    var nextRunAt: real
    var status: Status
    var lastMessageId: Option<nat>
    var sends: seq<Sent>

    function Row(): Enrollment
      reads this
    {
      Enrollment(step, nextRunAt, status, lastMessageId, sends)
    }

    /** One tick. */
    method Advance(steps: seq<StepDef>, answers: seq<Answer>) returns (used: nat)
      requires status == Active && |answers| >= MAX_ITERATIONS
      modifies this
      ensures used == TickLength(steps, old(Row()), answers, MAX_ITERATIONS)
      ensures Row() == Uncut(steps, old(Row()), answers[..used])
    {
      used := AdvanceUpTo(steps, answers, MAX_ITERATIONS);
    }

    /** Advance through as many steps as this tick allows. `answers` is what the outside would say. */
    method AdvanceUpTo(steps: seq<StepDef>, answers: seq<Answer>, limit: nat) returns (used: nat)
      requires status == Active && |answers| >= limit
      modifies this
      ensures used == TickLength(steps, old(Row()), answers, limit)
      ensures Row() == Uncut(steps, old(Row()), answers[..used])
    {
      var at: nat := step;
      var next, state, last, out := nextRunAt, Active, lastMessageId, sends;
      ghost var start := Row();
      ghost var now: Enrollment := start;
      used := 0;
      while used < limit
        invariant used <= limit && state == Active && start.status == Active
        invariant now == Enrollment(at, next, state, last, out)
        invariant TickLength(steps, start, answers, limit)
               == used + TickLength(steps, now, answers[used..], limit - used)
        invariant Uncut(steps, start, answers[..used]) == now
      {
        var a := answers[used];
        ghost var before := now;
        OneIteration(steps, start, now, answers, used, limit);
        now := Micro(steps, before, a);
        used := used + 1;
        if at >= |steps| {
          state := Completed;
          break;
        }
        match steps[at] {
          case Wait(hours) =>
            at := at + 1;
            if hours > 0.0 {
              next := a.now + hours * HOUR;
              break;
            }
          case Send(template) =>
            if !a.template {
              state := Failed;
              break;
            }
            if a.capacity.Full? {
              next := if a.capacity.retryAt.Some? then a.capacity.retryAt.value else a.now + HOUR;
              break;
            }
            out := out + [Sent(at, template, a.messageId)];
            last := Some(a.messageId);
            at := at + 1;
          case Branch(goto, within) =>
            if last.None? {
              at := at + 1;
            } else if a.occurred {
              at := goto;
            } else if a.now < WindowEnd(a, within) {
              next := a.now;
              break;
            } else {
              at := at + 1;
            }
        }
      }
      step, nextRunAt, status, lastMessageId, sends := at, next, state, last, out;
    }
  }

  /** One more iteration, for a loop that has come to `now` after `used` of them. */
  lemma OneIteration(steps: seq<StepDef>, start: Enrollment, now: Enrollment, answers: seq<Answer>,
                     used: nat, limit: nat)
    requires used < limit <= |answers| && now.status == Active && Uncut(steps, start, answers[..used]) == now
    ensures Uncut(steps, start, answers[..used + 1]) == Micro(steps, now, answers[used])
    ensures TickLength(steps, now, answers[used..], limit - used)
         == if GoesOn(steps, now, answers[used])
            then 1 + TickLength(steps, Micro(steps, now, answers[used]), answers[used + 1..], limit - used - 1) else 1
  {
    var rest := answers[used..];
    assert rest[0] == answers[used] && rest[1..] == answers[used + 1..];
    UncutSnoc(steps, start, answers[..used], answers[used]);
    assert answers[..used + 1] == answers[..used] + [answers[used]];
  }

  lemma {:induction false} UncutSnoc(steps: seq<StepDef>, e: Enrollment, answers: seq<Answer>, a: Answer)
    ensures Uncut(steps, e, answers + [a])
         == (var m := Uncut(steps, e, answers); if m.status == Active then Micro(steps, m, a) else m)
    decreases |answers|
  {
    if answers == [] {
      assert (answers + [a])[1..] == [];
    } else if e.status == Active {
      assert (answers + [a])[1..] == answers[1..] + [a];
      UncutSnoc(steps, Micro(steps, e, answers[0]), answers[1..], a);
    }
  }

  lemma {:induction false} UncutConcat(steps: seq<StepDef>, e: Enrollment, a: seq<Answer>, b: seq<Answer>)
    ensures Uncut(steps, e, a + b) == Uncut(steps, Uncut(steps, e, a), b)
    decreases |a|
  {
    if a == [] {
      assert a + b == b;
    } else if e.status == Active {
      assert (a + b)[1..] == a[1..] + b;
      UncutConcat(steps, Micro(steps, e, a[0]), a[1..], b);
    }
  }

  // ----- A life of ticks ----------------------------------------------------------------------------------

  function AfterTick(steps: seq<StepDef>, e: Enrollment, answers: seq<Answer>, limit: nat): Enrollment {
    if e.status != Active then e else Uncut(steps, e, answers[..TickLength(steps, e, answers, limit)])
  }

  function AfterTicks(steps: seq<StepDef>, e: Enrollment, ticks: seq<seq<Answer>>, limit: nat): Enrollment
    decreases |ticks|
  {
    if ticks == [] then e else AfterTicks(steps, AfterTick(steps, e, ticks[0], limit), ticks[1..], limit)
  }

  /** The answers the ticks really used, in order. */
  function Consumed(steps: seq<StepDef>, e: Enrollment, ticks: seq<seq<Answer>>, limit: nat): seq<Answer>
    decreases |ticks|
  {
    if ticks == [] then []
    else
      (if e.status != Active then [] else ticks[0][..TickLength(steps, e, ticks[0], limit)])
      + Consumed(steps, AfterTick(steps, e, ticks[0], limit), ticks[1..], limit)
  }

  /** Any run of ticks is the uncut run under the answers it used. */
  lemma {:induction false} TicksAreUncut(steps: seq<StepDef>, e: Enrollment, ticks: seq<seq<Answer>>, limit: nat)
    ensures AfterTicks(steps, e, ticks, limit) == Uncut(steps, e, Consumed(steps, e, ticks, limit))
    decreases |ticks|
  {
    if ticks != [] {
      var used := if e.status != Active then [] else ticks[0][..TickLength(steps, e, ticks[0], limit)];
      var next := AfterTick(steps, e, ticks[0], limit);
      TicksAreUncut(steps, next, ticks[1..], limit);
      UncutConcat(steps, e, used, Consumed(steps, next, ticks[1..], limit));
    }
  }

  /** A deferred send stays where it is: it is neither dropped nor skipped. */
  lemma DeferralKeepsPlace(steps: seq<StepDef>, e: Enrollment, a: Answer)
    requires e.status == Active && e.step < |steps| && steps[e.step].Send? && a.template && a.capacity.Full?
    ensures !GoesOn(steps, e, a) && Micro(steps, e, a) == e.(nextRunAt := Micro(steps, e, a).nextRunAt)
    ensures a.capacity.retryAt.Some? ==> Micro(steps, e, a).nextRunAt == a.capacity.retryAt.value
  {
  }

  /** The tick finds no capacity for the send that is up. */
  predicate Defers(tick: seq<Answer>) {
    tick != [] && tick[0].template && tick[0].capacity.Full?
  }

  lemma DeferringTick(steps: seq<StepDef>, e: Enrollment, tick: seq<Answer>, limit: nat)
    requires e.status == Active && e.step < |steps| && steps[e.step].Send? && limit > 0 && Defers(tick)
    ensures AfterTick(steps, e, tick, limit) == e.(nextRunAt := AfterTick(steps, e, tick, limit).nextRunAt)
    ensures tick[0].capacity.retryAt.Some? ==>
              AfterTick(steps, e, tick, limit).nextRunAt == tick[0].capacity.retryAt.value
  {
    DeferralKeepsPlace(steps, e, tick[0]);
    assert tick[..1] == [tick[0]] && [tick[0]][1..] == [];
    assert TickLength(steps, e, tick, limit) == 1;
    assert Uncut(steps, Micro(steps, e, tick[0]), []) == Micro(steps, e, tick[0]);
  }

  /** However many ticks in a row find no capacity, the send stays up and nothing is sent, skipped or forgotten. */
  lemma {:induction false} DeferralsKeepPlace(steps: seq<StepDef>, e: Enrollment, ticks: seq<seq<Answer>>, limit: nat)
    requires e.status == Active && e.step < |steps| && steps[e.step].Send? && limit > 0
    requires forall k :: 0 <= k < |ticks| ==> Defers(ticks[k])
    ensures var after := AfterTicks(steps, e, ticks, limit);
            && after == e.(nextRunAt := after.nextRunAt)
            && (ticks == [] ==> after == e)
            && (ticks != [] ==>
                  var last := ticks[|ticks| - 1];
                  && Defers(last)
                  && (last[0].capacity.retryAt.Some? ==> after.nextRunAt == last[0].capacity.retryAt.value))
    decreases |ticks|
  {
    if ticks != [] {
      DeferringTick(steps, e, ticks[0], limit);
      var next := AfterTick(steps, e, ticks[0], limit);
      DeferralsKeepPlace(steps, next, ticks[1..], limit);
      if |ticks| > 1 {
        assert ticks[1..][|ticks| - 2] == ticks[|ticks| - 1];
      }
    }
  }

  /** A tick that was cut short is due again at once: it leaves the time of its next run alone. */
  lemma {:induction false} CutTickStaysDue(steps: seq<StepDef>, e: Enrollment, answers: seq<Answer>, limit: nat)
    requires e.status == Active && |answers| >= limit
    requires forall k :: 0 <= k < limit ==> GoesOn(steps, Uncut(steps, e, answers[..k]), answers[k])
    ensures TickLength(steps, e, answers, limit) == limit
    ensures AfterTick(steps, e, answers, limit).nextRunAt == e.nextRunAt
    ensures AfterTick(steps, e, answers, limit).status == Active
    decreases limit
  {
    if limit > 0 {
      assert answers[..0] == [];
      assert GoesOn(steps, Uncut(steps, e, answers[..0]), answers[0]);
      var next := Micro(steps, e, answers[0]);
      forall k | 0 <= k < limit - 1
        ensures GoesOn(steps, Uncut(steps, next, answers[1..][..k]), answers[1..][k])
      {
        assert answers[..k + 1][1..] == answers[1..][..k];
        assert GoesOn(steps, Uncut(steps, e, answers[..k + 1]), answers[k + 1]);
      }
      CutTickStaysDue(steps, next, answers[1..], limit - 1);
      assert answers[..limit][1..] == answers[1..][..limit - 1];
    } else {
      assert answers[..0] == [];
    }
  }

  // ----- Nothing in the way --------------------------------------------------------------------------------

  /** Every send goes through and no branch is taken or waits. */
  predicate Smooth(steps: seq<StepDef>, a: Answer) {
    && a.template && a.capacity.Free? && !a.occurred
    && forall i :: 0 <= i < |steps| && steps[i].Branch? ==> a.now >= WindowEnd(a, steps[i].withinHours)
  }

  /** The send steps from `from` on, in order. */
  function SendSteps(steps: seq<StepDef>, from: nat): seq<(nat, nat)>
    decreases |steps| - from
  {
    if from >= |steps| then []
    else (if steps[from].Send? then [(from, steps[from].template)] else []) + SendSteps(steps, from + 1)
  }

  function Done(sends: seq<Sent>): seq<(nat, nat)> {
    seq(|sends|, i requires 0 <= i < |sends| => (sends[i].step, sends[i].template))
  }

  /** With nothing in the way an enrollment sends exactly the remaining send steps, in order, and completes. */
  lemma {:induction false} SmoothRunSendsAll(steps: seq<StepDef>, e: Enrollment, answers: seq<Answer>)
    requires e.status == Active && e.step <= |steps| && |answers| > |steps| - e.step
    requires forall i :: 0 <= i < |answers| ==> Smooth(steps, answers[i])
    ensures var r := Uncut(steps, e, answers);
            r.status == Completed && Done(r.sends) == Done(e.sends) + SendSteps(steps, e.step)
    decreases |steps| - e.step
  {
    var next := Micro(steps, e, answers[0]);
    assert Smooth(steps, answers[0]);
    if e.step < |steps| {
      SmoothRunSendsAll(steps, next, answers[1..]);
      assert Done(next.sends)
          == Done(e.sends) + if steps[e.step].Send? then [(e.step, steps[e.step].template)] else [];
    } else {
      assert Uncut(steps, next, answers[1..]) == next;
    }
  }

  // ----- Sequences that only jump forward ------------------------------------------------------------------

  predicate Forward(steps: seq<StepDef>) {
    forall i :: 0 <= i < |steps| && steps[i].Branch? ==> i < steps[i].goto
  }

  /** Everything sent so far came from earlier steps, in order. */
  predicate SendsAscend(e: Enrollment) {
    && (forall i :: 0 <= i < |e.sends| ==> e.sends[i].step < e.step)
    && forall i, j :: 0 <= i < j < |e.sends| ==> e.sends[i].step < e.sends[j].step
  }

  lemma MicroAscends(steps: seq<StepDef>, e: Enrollment, a: Answer)
    requires Forward(steps) && SendsAscend(e)
    ensures SendsAscend(Micro(steps, e, a)) && Micro(steps, e, a).step >= e.step
    ensures GoesOn(steps, e, a) ==> Micro(steps, e, a).step > e.step && Micro(steps, e, a).status == e.status
  {
    if e.step < |steps| && steps[e.step].Branch? {
      assert e.step < steps[e.step].goto;
    }
  }

  /** Over its whole life an enrollment runs each send step at most once. */
  lemma {:induction false} EachSendOnce(steps: seq<StepDef>, e: Enrollment, answers: seq<Answer>)
    requires Forward(steps) && SendsAscend(e)
    ensures SendsAscend(Uncut(steps, e, answers))
    ensures e.sends <= Uncut(steps, e, answers).sends
    decreases |answers|
  {
    if answers != [] && e.status == Active {
      MicroAscends(steps, e, answers[0]);
      EachSendOnce(steps, Micro(steps, e, answers[0]), answers[1..]);
    }
  }

  /** The steps that are left bound the iterations of a tick. */
  lemma {:induction false} WorkBounded(steps: seq<StepDef>, e: Enrollment, answers: seq<Answer>, limit: nat)
    requires Forward(steps) && SendsAscend(e)
    ensures e.step <= |steps| ==> TickLength(steps, e, answers, limit) <= |steps| - e.step + 1
    ensures e.step > |steps| ==> TickLength(steps, e, answers, limit) <= 1
    decreases limit
  {
    if limit > 0 && answers != [] && GoesOn(steps, e, answers[0]) {
      MicroAscends(steps, e, answers[0]);
      WorkBounded(steps, Micro(steps, e, answers[0]), answers[1..], limit - 1);
    }
  }

  /** A forward sequence of fewer than fifty steps never meets the cut: every tick ends by waiting or finishing. */
  lemma {:induction false} ShortSequencesNeverCut(steps: seq<StepDef>, e: Enrollment, answers: seq<Answer>, limit: nat)
    requires Forward(steps) && SendsAscend(e) && e.status == Active
    requires limit > 0 && |answers| >= limit && (if e.step <= |steps| then |steps| - e.step + 1 else 1) <= limit
    ensures var n := TickLength(steps, e, answers, limit);
            n > 0 && !GoesOn(steps, Uncut(steps, e, answers[..n - 1]), answers[n - 1])
    decreases limit
  {
    assert answers[..0] == [];
    if GoesOn(steps, e, answers[0]) {
      MicroAscends(steps, e, answers[0]);
      var next := Micro(steps, e, answers[0]);
      ShortSequencesNeverCut(steps, next, answers[1..], limit - 1);
      var n := TickLength(steps, next, answers[1..], limit - 1);
      assert answers[..n][1..] == answers[1..][..n - 1];
    }
  }
}
