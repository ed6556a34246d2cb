/**
 * Ticks that throw, and enrollments that are exited while a tick is at work. A tick reads the row at its start and
 * writes it at its end; the mail it sends on the way is out at once.
 */
module SequenceOverlaps {
  import opened Prelude
  import opened Histories
  import opened Sequences

  /** `TickThrow` has gone through `done` iterations when it throws; `Exit` is a reply or an unsubscription. */
  datatype Write =
    | TickEnd(answers: seq<Answer>)
    | TickThrow(answers: seq<Answer>, done: nat)
    | Exit

  datatype Visit = Visit(seen: nat, write: Write)

  /** What `n` iterations make of a row read as `seen`; its sends are the new ones. */
  function Worked(steps: seq<StepDef>, seen: Enrollment, answers: seq<Answer>, n: nat): Enrollment {
    Uncut(steps, seen.(sends := []), if n <= |answers| then answers[..n] else answers)
  }

  function Iterations(steps: seq<StepDef>, seen: Enrollment, answers: seq<Answer>): nat {
    TickLength(steps, seen.(sends := []), answers, MAX_ITERATIONS)
  }

  function Act(steps: seq<StepDef>, row: Enrollment, seen: Enrollment, w: Write): Enrollment {
    if seen.status != Active then row
    else
      match w
      case TickEnd(answers) =>
        var r := Worked(steps, seen, answers, Iterations(steps, seen, answers));
        r.(sends := row.sends + r.sends)
      case TickThrow(answers, done) => row.(sends := row.sends + Worked(steps, seen, answers, done).sends)
      case Exit => row.(status := Exited)
  }

  predicate Follows(steps: seq<StepDef>, v: Visit, h: seq<Enrollment>, k: nat) {
    k + 1 < |h| && v.seen <= k && h[k + 1] == Act(steps, h[k], h[v.seen], v.write)
  }

  /** `h[n]` is the row after the first `n` of the writes, with everything sent by then. */
  predicate History(steps: seq<StepDef>, visits: seq<Visit>, h: seq<Enrollment>) {
    && |h| == |visits| + 1
    && forall k: nat {:trigger Follows(steps, visits[k], h, k)} :: k < |visits| ==> Follows(steps, visits[k], h, k)
  }

  // ----- How long an exit lasts ------------------------------------------------------------------------------------

  lemma {:induction false} UncutNeverExits(steps: seq<StepDef>, e: Enrollment, answers: seq<Answer>)
    requires e.status != Exited
    ensures Uncut(steps, e, answers).status != Exited
    decreases |answers|
  {
    if answers != [] && e.status == Active {
      UncutNeverExits(steps, Micro(steps, e, answers[0]), answers[1..]);
    }
  }

  /** A tick that read the row while it was active. */
  predicate Revives(visits: seq<Visit>, h: seq<Enrollment>, k: nat) {
    && k < |visits| && k < |h| && visits[k].seen <= k
    && visits[k].write.TickEnd? && h[visits[k].seen].status == Active
  }

  lemma ExitedNext(steps: seq<StepDef>, visits: seq<Visit>, h: seq<Enrollment>, k: nat)
    requires History(steps, visits, h) && k < |visits| && h[k].status == Exited
    ensures h[k + 1].status == Exited <==> !Revives(visits, h, k)
  {
    var v := visits[k];
    assert Follows(steps, v, h, k);
    if Revives(visits, h, k) {
      var n := Iterations(steps, h[v.seen], v.write.answers);
      UncutNeverExits(steps, h[v.seen].(sends := []), v.write.answers[..n]);
    }
  }

  /** An enrollment that was exited stays exited exactly until a tick ends that had read it as active. */
  lemma ExitLastsIff(steps: seq<StepDef>, visits: seq<Visit>, h: seq<Enrollment>, a: nat, b: nat)
    requires History(steps, visits, h) && a <= b < |h| && h[a].status == Exited
    ensures (forall k: nat :: a <= k <= b ==> h[k].status == Exited)
            <==> forall k: nat :: a <= k < b ==> !Revives(visits, h, k)
  {
    var n := |visits|;
    var exited := seq(n + 1, k requires 0 <= k <= n => h[k].status == Exited);
    var revives := seq(n, k requires 0 <= k < n => Revives(visits, h, k));
    forall k | a <= k < b && exited[k]
      ensures exited[k + 1] <==> !revives[k]
    {
      ExitedNext(steps, visits, h, k);
    }
    StaysUpIff(exited, revives, a, b);
    assert forall k: nat :: a <= k <= b ==> exited[k] == (h[k].status == Exited);
    assert forall k: nat :: a <= k < b ==> revives[k] == Revives(visits, h, k);
  }

  // ----- Ticks one after the other ---------------------------------------------------------------------------------

  predicate IsTick(w: Write) {
    w.TickEnd? || w.TickThrow?
  }

  /** Ticks do not overlap: each reads what the ones before it have written. */
  predicate Serial(visits: seq<Visit>) {
    forall j, k :: 0 <= j < k < |visits| && IsTick(visits[j].write) && IsTick(visits[k].write) ==> j < visits[k].seen
  }

  lemma {:induction false} OnlyTicksMove(steps: seq<StepDef>, visits: seq<Visit>, h: seq<Enrollment>, v: nat, n: nat)
    requires History(steps, visits, h) && v <= n < |h|
    requires forall j :: v <= j < n ==> !IsTick(visits[j].write)
    ensures h[n].step == h[v].step && h[n].sends == h[v].sends
    decreases n
  {
    if v < n {
      OnlyTicksMove(steps, visits, h, v, n - 1);
      assert Follows(steps, visits[n - 1], h, n - 1);
    }
  }

  lemma {:induction false} UncutOffset(steps: seq<StepDef>, e: Enrollment, answers: seq<Answer>, before: seq<Sent>)
    ensures Uncut(steps, e.(sends := before + e.sends), answers)
         == Uncut(steps, e, answers).(sends := before + Uncut(steps, e, answers).sends)
    decreases |answers|
  {
    if answers != [] && e.status == Active {
      var next := Micro(steps, e, answers[0]);
      UncutOffset(steps, next, answers[1..], before);
      assert Micro(steps, e.(sends := before + e.sends), answers[0]).sends == before + next.sends;
      assert Micro(steps, e.(sends := before + e.sends), answers[0]) == next.(sends := before + next.sends);
    }
  }

  predicate AllFrom(sends: seq<Sent>, from: nat) {
    forall i :: 0 <= i < |sends| ==> from <= sends[i].step
  }

  /** What is sent from a step on comes from that step or later ones. */
  lemma {:induction false} SentFrom(steps: seq<StepDef>, e: Enrollment, answers: seq<Answer>, from: nat)
    requires Forward(steps) && from <= e.step && AllFrom(e.sends, from)
    ensures AllFrom(Uncut(steps, e, answers).sends, from)
    decreases |answers|
  {
    if answers != [] && e.status == Active {
      MicroMoves(steps, e, answers[0]);
      SentFrom(steps, Micro(steps, e, answers[0]), answers[1..], from);
    }
  }

  lemma MicroMoves(steps: seq<StepDef>, e: Enrollment, a: Answer)
    requires Forward(steps)
    ensures var next := Micro(steps, e, a);
            && e.step <= next.step
            && (next.sends == e.sends || exists x: Sent :: x.step == e.step && next.sends == e.sends + [x])
  {
    if e.step < |steps| && steps[e.step].Send? && a.template && a.capacity.Free? {
      var x := Sent(e.step, steps[e.step].template, a.messageId);
      assert x.step == e.step && Micro(steps, e, a).sends == e.sends + [x];
    } else if e.step < |steps| && steps[e.step].Branch? {
      assert e.step < steps[e.step].goto;
    }
  }

  /** A tick that has sent something and then throws: the row stays where it was. */
  predicate LosesPlace(steps: seq<StepDef>, visits: seq<Visit>, h: seq<Enrollment>, k: nat) {
    && k < |visits| && k < |h| && visits[k].seen <= k
    && visits[k].write.TickThrow? && h[visits[k].seen].status == Active
    && Worked(steps, h[visits[k].seen], visits[k].write.answers, visits[k].write.done).sends != []
  }

  lemma TickEndAscends(steps: seq<StepDef>, row: Enrollment, seen: Enrollment, answers: seq<Answer>)
    requires Forward(steps) && SendsAscend(row) && seen.step == row.step && seen.sends == row.sends
    requires seen.status == Active
    ensures SendsAscend(Act(steps, row, seen, TickEnd(answers)))
  {
    var n := Iterations(steps, seen, answers);
    var bare := seen.(sends := []);
    assert bare.(sends := seen.sends + bare.sends) == seen;
    UncutOffset(steps, bare, answers[..n], seen.sends);
    EachSendOnce(steps, seen, answers[..n]);
    assert Act(steps, row, seen, TickEnd(answers)) == Uncut(steps, seen, answers[..n]);
  }

  lemma TickThrowAscendsIff(steps: seq<StepDef>, row: Enrollment, seen: Enrollment, answers: seq<Answer>, done: nat)
    requires Forward(steps) && SendsAscend(row) && seen.step == row.step && seen.status == Active
    ensures SendsAscend(Act(steps, row, seen, TickThrow(answers, done)))
            <==> Worked(steps, seen, answers, done).sends == []
  {
    var r := Worked(steps, seen, answers, done);
    SentFrom(steps, seen.(sends := []), if done <= |answers| then answers[..done] else answers, seen.step);
    var next := Act(steps, row, seen, TickThrow(answers, done));
    if r.sends == [] {
      assert next == row;
    } else {
      assert AllFrom(r.sends, seen.step);
      assert next.sends[|row.sends|] == r.sends[0] && seen.step <= r.sends[0].step;
    }
  }

  lemma PlaceNext(steps: seq<StepDef>, visits: seq<Visit>, h: seq<Enrollment>, k: nat)
    requires Forward(steps) && History(steps, visits, h) && Serial(visits) && k < |visits| && SendsAscend(h[k])
    ensures SendsAscend(h[k + 1]) <==> !LosesPlace(steps, visits, h, k)
  {
    var v := visits[k];
    assert Follows(steps, v, h, k);
    if IsTick(v.write) && h[v.seen].status == Active {
      forall j | v.seen <= j < k
        ensures !IsTick(visits[j].write)
      {
      }
      OnlyTicksMove(steps, visits, h, v.seen, k);
      match v.write
      case TickEnd(answers) => TickEndAscends(steps, h[k], h[v.seen], answers);
      case TickThrow(answers, done) => TickThrowAscendsIff(steps, h[k], h[v.seen], answers, done);
    }
  }

  /**
   * With forward jumps and ticks one after the other, all that was ever sent comes from steps already passed, each at
   * most once, exactly as long as no tick throws after it has sent something. Exits do not matter.
   */
  lemma SendsOnceIff(steps: seq<StepDef>, visits: seq<Visit>, h: seq<Enrollment>)
    requires Forward(steps) && History(steps, visits, h) && Serial(visits) && SendsAscend(h[0])
    ensures (forall k: nat :: k < |h| ==> SendsAscend(h[k]))
            <==> forall k: nat :: k < |visits| ==> !LosesPlace(steps, visits, h, k)
  {
    var n := |visits|;
    var ascends := seq(n + 1, k requires 0 <= k <= n => SendsAscend(h[k]));
    var loses := seq(n, k requires 0 <= k < n => LosesPlace(steps, visits, h, k));
    forall k | 0 <= k < n && ascends[k]
      ensures ascends[k + 1] <==> !loses[k]
    {
      PlaceNext(steps, visits, h, k);
    }
    StaysUpIff(ascends, loses, 0, n);
    assert forall k: nat :: k <= n ==> ascends[k] == SendsAscend(h[k]);
    assert forall k: nat :: k < n ==> loses[k] == LosesPlace(steps, visits, h, k);
  }

  /** After such a throw the next tick sends the same step again. */
  lemma ThrowSendsAgain(steps: seq<StepDef>, e: Enrollment, a: Answer, b: Answer)
    requires e.status == Active && e.step < |steps| && steps[e.step].Send?
    requires a.template && a.capacity.Free? && b.template && b.capacity.Free?
    ensures var thrown := Act(steps, e, e, TickThrow([a], 1));
            var after := Act(steps, thrown, thrown, TickEnd([b]));
            var n := |e.sends|;
            && |after.sends| == n + 2
            && after.sends[n].step == after.sends[n + 1].step == e.step
  {
    OneSend(steps, e, a);
    var thrown := Act(steps, e, e, TickThrow([a], 1));
    assert [a][..1] == [a];
    OneSend(steps, thrown, b);
    assert [b][..1] == [b];
    assert Iterations(steps, thrown, [b]) == 1;
  }

  lemma OneSend(steps: seq<StepDef>, e: Enrollment, a: Answer)
    requires e.status == Active && e.step < |steps| && steps[e.step].Send? && a.template && a.capacity.Free?
    ensures Uncut(steps, e.(sends := []), [a]).sends == [Sent(e.step, steps[e.step].template, a.messageId)]
  {
    assert [a][1..] == [];
  }
}
