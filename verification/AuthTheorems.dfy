/** What the authentication-mail protocol guarantees in every state any run can reach. */
module AuthTheorems {
  import opened Prelude
  import opened AuthProtocol
  import opened AuthSafety

  ghost predicate Reachable(s: State) {
    exists now: int, steps: seq<Step> :: s == Run(Initial(s.expiresAt, s.body, now), steps)
  }

  lemma ReachableInv(s: State)
    requires Reachable(s)
    ensures Inv(s)
  {
    var now: int, steps: seq<Step> :| s == Run(Initial(s.expiresAt, s.body, now), steps);
    RunKeepsInv(Initial(s.expiresAt, s.body, now), steps);
  }

  lemma NextReachable(s: State, step: Step)
    requires Reachable(s)
    ensures Reachable(Next(s, step))
  {
    var now: int, steps: seq<Step> :| s == Run(Initial(s.expiresAt, s.body, now), steps);
    RunThen(Initial(s.expiresAt, s.body, now), steps, step);
    var t := Next(s, step);
    assert t == Run(Initial(t.expiresAt, t.body, now), steps + [step]);
  }

  lemma RunThen(s: State, steps: seq<Step>, step: Step)
    ensures Run(s, steps + [step]) == Next(Run(s, steps), step)
  {
    assert (steps + [step])[..|steps|] == steps;
  }

  /**
   * In every run the provider receives at most one request; it carries the admitted content, is
   * made by the job whose compare-and-set won, after that job's GETDEL returned the content, and
   * more than fifteen seconds before the credential expires. Content that was taken is gone.
   */
  lemma AtMostOneSubmission(s: State)
    requires Reachable(s)
    ensures |s.submissions| <= 1 && |s.takes| <= 1 && (s.takes != [] ==> s.vault == None)
    ensures forall x <- s.submissions ::
              && x.content == s.body && s.takes == [Take(x.w, s.body)]
              && Write(Worker(x.w), Queued, Sending) in s.writes
              && x.at + AUTH_SEND_MARGIN_MS < s.expiresAt
  {
    ReachableInv(s);
    SubmissionsOk(s);
  }

  lemma SubmissionsOk(s: State)
    requires SharedOk(s)
    ensures |s.submissions| <= 1 && |s.takes| <= 1 && (s.takes != [] ==> s.vault == None)
    ensures forall x <- s.submissions ::
              && x.content == s.body && s.takes == [Take(x.w, s.body)]
              && Write(Worker(x.w), Queued, Sending) in s.writes
              && x.at + AUTH_SEND_MARGIN_MS < s.expiresAt
  {
    if s.submissions != [] {
      assert s.writes[1] == Write(Worker(s.submissions[0].w), Queued, Sending);
    }
  }

  lemma OnlySettingsSubmits(s: State, w: nat, o: Outcome, v: Verdict)
    requires w in s.workers && WorkerStep(s, w, o, v).submissions != s.submissions
    ensures s.workers[w].Settings? && LifetimeOk(s.expiresAt, s.now)
  {
  }

  lemma OnlyJobsSubmit(s: State, step: Step)
    requires Next(s, step).submissions != s.submissions
    ensures step.Work? && step.w in s.workers
  {
  }

  /** A request reaches the provider only in a step of the claim's owner, which holds the content. */
  lemma SubmissionNeedsClaimAndContent(s: State, step: Step)
    requires Reachable(s) && Next(s, step).submissions != s.submissions
    ensures step.Work? && s.submissions == []
    ensures Owner(s.writes) == Some(step.w) && Unfinished(s.writes)
    ensures s.takes == [Take(step.w, s.body)] && LifetimeOk(s.expiresAt, s.now)
  {
    ReachableInv(s);
    OnlyJobsSubmit(s, step);
    OnlySettingsSubmits(s, step.w, step.o, step.v);
    assert PcOk(s, step.w, s.workers[step.w]);
  }

  /**
   * The status history of every run: nothing returns to queued, sent and suppressed are final,
   * and the one terminal status that can change is the reconciler's failure, once, to what the
   * claim's owner observed. At most one "failed" audit exists, and its author wrote the failure.
   */
  lemma StatusHistory(s: State)
    requires Reachable(s)
    ensures LegalHistory(s.writes) && s.status == LastStatus(s.writes)
    ensures forall k | 0 <= k < |s.writes| ::
              && (s.writes[k].to == Queued ==> k == 0)
              && s.writes[k].from !in {Sent, Suppressed}
              && (s.writes[k].from == Failed ==>
                    && k == |s.writes| - 1 == 3 && s.writes[k - 1].actor.Reconciler?
                    && s.writes[k].actor == s.writes[1].actor && s.writes[1].to == Sending
                    && s.writes[k].to in {Sent, Suppressed})
    ensures |FailureAudits(s.audits)| <= 1
    ensures forall a <- FailureAudits(s.audits) :: exists x <- s.writes :: x.actor == a && x.to == Failed
  {
    ReachableInv(s);
  }

  /** What each final status says about the provider. */
  lemma OutcomeEvidence(s: State)
    requires Reachable(s)
    ensures s.status == Sent ==> |s.submissions| == 1
    ensures s.status == Suppressed ==> s.submissions == [] && s.takes == []
    ensures s.status == Failed && Owner(s.writes) == None ==> s.submissions == [] && s.takes == []
  {
    ReachableInv(s);
  }

  /**
   * When the reconciler changes the row no provider call is in flight, no job is between its
   * lifetime check and the provider's answer, and every request was made over 75 seconds before.
   */
  lemma ReconcilerNeverMeetsACall(s: State, r: nat, o: Outcome)
    requires Reachable(s) && Next(s, Sweep(r, o)).writes != s.writes
    ensures s.calls == map[]
    ensures forall w <- s.workers :: !s.workers[w].Settings? && s.workers[w] != Await
    ensures forall x <- s.submissions :: x.at + AUTH_SEND_MARGIN_MS + RECONCILE_GRACE_MS < s.now
  {
    ReachableInv(s);
    OnlyPickedWrites(s, r, o);
    QuietWhenPicked(s, r);
  }

  lemma OnlyPickedWrites(s: State, r: nat, o: Outcome)
    requires Next(s, Sweep(r, o)).writes != s.writes
    ensures r in s.sweeps && s.sweeps[r].Picked?
  {
  }

  lemma QuietWhenPicked(s: State, r: nat)
    requires Inv(s) && r in s.sweeps && s.sweeps[r].Picked?
    ensures s.calls == map[]
    ensures forall w <- s.workers :: !s.workers[w].Settings? && s.workers[w] != Await
    ensures forall x <- s.submissions :: x.at + AUTH_SEND_MARGIN_MS + RECONCILE_GRACE_MS < s.now
  {
    assert SweepOk(s.expiresAt, s.now, s.sweeps[r]);
    NoLateCalls(s.expiresAt, s.now, s.calls, s.sweeps[r]);
    forall w | w in s.workers ensures !s.workers[w].Settings? && s.workers[w] != Await {
      assert PcOk(s, w, s.workers[w]);
    }
  }

  lemma NoLateCalls(expiresAt: int, now: int, calls: map<nat, int>, pc: SweepPc)
    requires pc.Picked? && SweepOk(expiresAt, now, pc)
    requires forall w <- calls :: CallOk(expiresAt, now, calls[w])
    ensures calls == map[]
  {
    assert forall w <- calls :: !CallOk(expiresAt, now, calls[w]);
  }

  // ----- When a terminal status changes ------------------------------------------------------------------

  /** A reconciler fails the row only once its grace period is over. */
  ghost predicate FailedLate(s: State) {
    FailedBy(s.writes).Some? && FailedBy(s.writes).value.Reconciler? ==> s.expiresAt + RECONCILE_GRACE_MS <= s.now
  }

  predicate WritesStatus(pc: Pc) {
    pc in {Claim, WriteSuppressed, WriteSent} || pc.FailCas?
  }

  lemma MostStepsWriteNothing(s: State, w: nat, o: Outcome, v: Verdict)
    requires w in s.workers && !WritesStatus(s.workers[w])
    ensures WorkerStep(s, w, o, v).writes == s.writes
  {
  }

  lemma OneStatusWrite(s: State, w: nat, o: Outcome, v: Verdict)
    requires w in s.workers && WritesStatus(s.workers[w])
    ensures var t := WorkerStep(s, w, o, v);
            t.writes == s.writes || t.writes == s.writes + [Write(Worker(w), s.status, t.status)]
  {
  }

  lemma JobWrites(s: State, w: nat, o: Outcome, v: Verdict, t: State)
    requires w in s.workers && t == WorkerStep(s, w, o, v)
    ensures t.writes == s.writes || t.writes == s.writes + [Write(Worker(w), s.status, t.status)]
  {
    if WritesStatus(s.workers[w]) {
      OneStatusWrite(s, w, o, v);
    } else {
      MostStepsWriteNothing(s, w, o, v);
    }
  }

  lemma AdmissionWrites(s: State, o: Outcome, v: Verdict)
    ensures var t := AdmissionStep(s, o, v);
            t.writes == s.writes || t.writes == s.writes + [Write(Admission, s.status, t.status)]
  {
  }

  lemma SweepWrites(s: State, r: nat, o: Outcome)
    requires Inv(s) && r in s.sweeps
    ensures var t := SweepStep(s, r, o);
            t.writes == s.writes
            || (t.writes == s.writes + [Write(Reconciler(r), s.status, t.status)]
                && s.expiresAt + RECONCILE_GRACE_MS <= s.now)
  {
    assert SweepOk(s.expiresAt, s.now, s.sweeps[r]);
  }

  lemma FailedByExtended(writes: seq<Write>, x: Write)
    requires LegalHistory(writes + [x])
    ensures FailedBy(writes + [x]) == FailedBy(writes) || FailedBy(writes + [x]) == Some(x.actor)
  {
  }

  lemma FailedLateStep(s: State, step: Step)
    requires Inv(s) && FailedLate(s)
    ensures FailedLate(Next(s, step))
  {
    var t := Next(s, step);
    NextKeepsInv(s, step);
    match step
    case Work(w, o, v) =>
      if w in s.workers {
        JobWrites(s, w, o, v, t);
        LateAfter(s, t, Worker(w));
      }
    case Admit(o, v) =>
      AdmissionWrites(s, o, v);
      LateAfter(s, t, Admission);
    case Sweep(r, o) =>
      if r in s.sweeps {
        SweepWrites(s, r, o);
        LateAfter(s, t, Reconciler(r));
      }
    case Disconnect => LateAfter(s, t, Disconnection);
    case _ => assert t.writes == s.writes;
  }

  lemma LateAfter(s: State, t: State, actor: Actor)
    requires FailedLate(s) && LegalHistory(t.writes) && t.expiresAt == s.expiresAt && s.now <= t.now
    requires t.writes == s.writes || t.writes == s.writes + [Write(actor, s.status, t.status)]
    requires actor.Reconciler? && t.writes != s.writes ==> s.expiresAt + RECONCILE_GRACE_MS <= s.now
    ensures FailedLate(t)
  {
    if t.writes != s.writes {
      FailedByExtended(s.writes, Write(actor, s.status, t.status));
    }
  }

  lemma {:induction false} FailedLateRun(s: State, steps: seq<Step>)
    requires Inv(s) && FailedLate(s)
    ensures FailedLate(Run(s, steps))
  {
    if steps != [] {
      FailedLateRun(s, steps[..|steps| - 1]);
      RunKeepsInv(s, steps[..|steps| - 1]);
      FailedLateStep(Run(s, steps[..|steps| - 1]), steps[|steps| - 1]);
    }
  }

  predicate Terminal(status: Status) {
    status in {Sent, Suppressed, Failed}
  }

  /** The job about to write its outcome, and a write that reaches the database. */
  predicate WritesOutcome(s: State, step: Step) {
    step.Work? && step.w in s.workers && s.workers[step.w] in {WriteSent, WriteSuppressed} && step.o != Lost
  }

  lemma JobOnTerminal(s: State, w: nat, o: Outcome, v: Verdict)
    requires Inv(s) && Terminal(s.status) && w in s.workers
    ensures WorkerStep(s, w, o, v).status != s.status <==> WritesOutcome(s, Work(w, o, v)) && s.status == Failed
  {
    assert PcOk(s, w, s.workers[w]);
  }

  lemma OthersOnTerminal(s: State, step: Step)
    requires Inv(s) && Terminal(s.status) && !step.Work?
    ensures Next(s, step).status == s.status
  {
    if step.Sweep? && step.r in s.sweeps {
      assert SweepOk(s.expiresAt, s.now, s.sweeps[step.r]);
    }
  }

  /** A step changes a terminal status exactly when a job writes its outcome over a failure. */
  lemma TerminalChangesIff(s: State, step: Step)
    requires Reachable(s) && Terminal(s.status)
    ensures Next(s, step).status != s.status <==> WritesOutcome(s, step) && s.status == Failed
  {
    ReachableInv(s);
    if step.Work? {
      if step.w in s.workers {
        JobOnTerminal(s, step.w, step.o, step.v);
      }
    } else {
      OthersOnTerminal(s, step);
    }
  }

  lemma OutcomeOverReconciler(s: State, w: nat)
    requires Inv(s) && s.status == Failed && w in s.workers && s.workers[w] in {WriteSent, WriteSuppressed}
    ensures FailedBy(s.writes).Some? && FailedBy(s.writes).value.Reconciler?
  {
    assert PcOk(s, w, s.workers[w]);
  }

  lemma ChangeIsLate(s: State, step: Step)
    requires Reachable(s) && Terminal(s.status) && Next(s, step).status != s.status
    ensures s.expiresAt + RECONCILE_GRACE_MS <= s.now
  {
    TerminalChangesIff(s, step);
    ReachableInv(s);
    OutcomeOverReconciler(s, step.w);
    var now: int, steps: seq<Step> :| s == Run(Initial(s.expiresAt, s.body, now), steps);
    FailedLateRun(Initial(s.expiresAt, s.body, now), steps);
  }

  // ----- Runs that deliver, and runs that are overtaken ----------------------------------------------------

  /** Ten minutes before the credential expires. */
  function Opening(expiresAt: int): int {
    expiresAt - 600_000
  }

  function Beginning(body: Content, e: int): State {
    Initial(e, body, Opening(e))
  }

  /** The states of an undisturbed admission. */
  function AdmittedUpTo(body: Content, e: int, i: nat): State
    requires i <= 3
  {
    Beginning(body, e).(
      vault := if i == 0 then None else Some(body),
      admission := [Put, Insert, AuditQueued, Admitted][i],
      status := if i < 2 then Absent else Queued,
      writes := if i < 2 then [] else [Write(Admission, Absent, Queued)],
      audits := if i < 3 then [] else [Audit(Admission, QueuedEvent)])
  }

  /** The states of the undisturbed job that follows. */
  function JobUpTo(body: Content, e: int, i: nat): State
    requires i <= 13
  {
    AdmittedUpTo(body, e, 3).(
      vault := if i < 8 then Some(body) else None,
      workers := map[0 := [Load, Gates, Prepare, Claim, AuditSending, CheckSuppressed, TakeGuard, GetDel,
                           Open(body), Settings(body), Await, WriteSent, AuditSent, Done][i]],
      calls := if i in {9, 10} then map[0 := Opening(e)] else map[],
      status := if i < 4 then Queued else if i < 12 then Sending else Sent,
      writes := [Write(Admission, Absent, Queued)]
                + (if i < 4 then [] else [Write(Worker(0), Queued, Sending)])
                + (if i < 12 then [] else [Write(Worker(0), Sending, Sent)]),
      audits := [Audit(Admission, QueuedEvent)]
                + (if i < 5 then [] else [Audit(Worker(0), SendingEvent)])
                + (if i < 13 then [] else [Audit(Worker(0), SentEvent)]),
      takes := if i < 8 then [] else [Take(0, body)],
      submissions := if i < 10 then [] else [Submission(0, body, Opening(e))])
  }

  lemma JobStarts(body: Content, e: int, i: nat)
    requires i < 7
    ensures Next(JobUpTo(body, e, i), Work(0, Ok, Pass)) == JobUpTo(body, e, i + 1)
  {
    var s, t := JobUpTo(body, e, i), JobUpTo(body, e, i + 1);
    assert map[0 := s.workers[0]][0 := t.workers[0]] == map[0 := t.workers[0]];
  }

  lemma JobEnds(body: Content, e: int, i: nat)
    requires 7 <= i < 13
    ensures Next(JobUpTo(body, e, i), Work(0, Ok, Pass)) == JobUpTo(body, e, i + 1)
  {
    var s, t := JobUpTo(body, e, i), JobUpTo(body, e, i + 1);
    assert map[0 := s.workers[0]][0 := t.workers[0]] == map[0 := t.workers[0]];
    assert map[0 := Opening(e)] - {0} == map[];
  }

  lemma AdmissionAdvances(body: Content, e: int, i: nat)
    requires i < 3
    ensures Next(AdmittedUpTo(body, e, i), Admit(Ok, Pass)) == AdmittedUpTo(body, e, i + 1)
  {
  }

  lemma JobAppears(body: Content, e: int)
    ensures Next(AdmittedUpTo(body, e, 3), Spawn(0)) == JobUpTo(body, e, 0)
  {
  }

  lemma {:induction false} UndisturbedReachable(body: Content, e: int, n: nat)
    requires n <= 13
    ensures Reachable(JobUpTo(body, e, n))
  {
    if n == 0 {
      AdmittedReachable(body, e, 3);
      NextReachable(AdmittedUpTo(body, e, 3), Spawn(0));
      JobAppears(body, e);
    } else {
      UndisturbedReachable(body, e, n - 1);
      NextReachable(JobUpTo(body, e, n - 1), Work(0, Ok, Pass));
      if n <= 7 {
        JobStarts(body, e, n - 1);
      } else {
        JobEnds(body, e, n - 1);
      }
    }
  }

  lemma {:induction false} AdmittedReachable(body: Content, e: int, n: nat)
    requires n <= 3
    ensures Reachable(AdmittedUpTo(body, e, n))
  {
    if n == 0 {
      assert AdmittedUpTo(body, e, 0) == Run(Initial(e, body, Opening(e)), []);
    } else {
      AdmittedReachable(body, e, n - 1);
      NextReachable(AdmittedUpTo(body, e, n - 1), Admit(Ok, Pass));
      AdmissionAdvances(body, e, n - 1);
    }
  }

  /** The protocol does deliver: some run records the provider's acceptance of the content. */
  lemma SomeRunSends(body: Content, e: int) returns (s: State)
    ensures Reachable(s) && s.expiresAt == e && s.status == Sent
    ensures s.submissions == [Submission(0, body, Opening(e))] && s.vault == None
    ensures s.audits == [Audit(Admission, QueuedEvent), Audit(Worker(0), SendingEvent), Audit(Worker(0), SentEvent)]
  {
    UndisturbedReachable(body, e, 13);
    s := JobUpTo(body, e, 13);
  }

  /** The states of a sweep at time `t` that fails the row while the claim's owner is held up. */
  function OvertakenUpTo(body: Content, e: int, t: int, i: nat): State
    requires i <= 5
  {
    var s := JobUpTo(body, e, 11);
    s.(now := if i == 0 then Opening(e) else t,
       sweeps := [map[], map[], map[0 := Started(t)], map[0 := Picked(t, Sending)],
                  map[0 := SweepPurge], map[0 := SweepPurge]][i],
       status := [Sending, Sending, Sending, Sending, Failed, Sent][i],
       writes := s.writes + (if i < 4 then [] else [Write(Reconciler(0), Sending, Failed)])
                 + (if i < 5 then [] else [Write(Worker(0), Failed, Sent)]),
       audits := s.audits + (if i < 4 then [] else [Audit(Reconciler(0), FailedEvent)]),
       workers := map[0 := if i < 5 then WriteSent else AuditSent])
  }

  function Overtaking(e: int, t: int, i: nat): Step
    requires i < 5 && e <= t
  {
    [Tick(t - Opening(e)), StartSweep(0), Sweep(0, Ok), Sweep(0, Ok), Work(0, Ok, Pass)][i]
  }

  lemma OvertakingAdvances(body: Content, e: int, t: int, i: nat)
    requires i < 5 && e + RECONCILE_GRACE_MS <= t
    ensures Next(OvertakenUpTo(body, e, t, i), Overtaking(e, t, i)) == OvertakenUpTo(body, e, t, i + 1)
  {
    var s, r := OvertakenUpTo(body, e, t, i), OvertakenUpTo(body, e, t, i + 1);
    assert map[0 := s.workers[0]][0 := r.workers[0]] == map[0 := r.workers[0]];
    assert i > 1 ==> map[0 := s.sweeps[0]][0 := r.sweeps[0]] == map[0 := r.sweeps[0]];
  }

  lemma {:induction false} OvertakenReachable(body: Content, e: int, t: int, i: nat)
    requires i <= 5 && e + RECONCILE_GRACE_MS <= t
    ensures Reachable(OvertakenUpTo(body, e, t, i))
  {
    if i == 0 {
      UndisturbedReachable(body, e, 11);
      assert JobUpTo(body, e, 11) == OvertakenUpTo(body, e, t, 0);
    } else {
      OvertakenReachable(body, e, t, i - 1);
      NextReachable(OvertakenUpTo(body, e, t, i - 1), Overtaking(e, t, i - 1));
      OvertakingAdvances(body, e, t, i - 1);
    }
  }

  /** The owner is delayed past the reconciler's deadline; its unconditional write replaces the failure. */
  lemma TerminalStatusCanChange(body: Content, e: int, t: int) returns (s: State)
    requires e + RECONCILE_GRACE_MS <= t
    ensures Reachable(s) && s.expiresAt == e && s.now == t && s.status == Sent && |s.writes| == 4
    ensures s.writes[2] == Write(Reconciler(0), Sending, Failed) && s.writes[3] == Write(Worker(0), Failed, Sent)
  {
    OvertakenReachable(body, e, t, 5);
    s := OvertakenUpTo(body, e, t, 5);
  }

  /** At time `t` a terminal status can change. */
  ghost predicate CanChange(e: int, t: int) {
    exists s: State, step: Step :: ChangesTerminal(s, step) && s.expiresAt == e && s.now == t
  }

  ghost predicate ChangesTerminal(s: State, step: Step) {
    Reachable(s) && Terminal(s.status) && Next(s, step).status != s.status
  }

  /**
   * "A terminal status never changes" holds exactly until a minute after the credential expired, which is when the
   * reconciler may fail the row: before that no step of any run changes one, and at any time from then on some does.
   */
  lemma TerminalNeverChangesIff(e: int, t: int)
    ensures !CanChange(e, t) <==> t < e + RECONCILE_GRACE_MS
  {
    if e + RECONCILE_GRACE_MS <= t {
      var body := Content("", "");
      OvertakenReachable(body, e, t, 4);
      OvertakingAdvances(body, e, t, 4);
      assert ChangesTerminal(OvertakenUpTo(body, e, t, 4), Overtaking(e, t, 4));
    } else if CanChange(e, t) {
      var s: State, step: Step :| ChangesTerminal(s, step) && s.expiresAt == e && s.now == t;
      ChangeIsLate(s, step);
    }
  }
}
