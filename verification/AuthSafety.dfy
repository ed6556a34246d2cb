/** Safety of the authentication-mail protocol over every run of every interleaving. */
module AuthSafety {
  import opened Prelude
  import opened AuthProtocol

  // ----- What a status history may look like ----------------------------------------------

  predicate IsClaim(x: Write) {
    x.actor.Worker? && x.from == Queued && x.to == Sending
  }

  predicate IsEarlyFailure(x: Write) {
    x.actor != Admission && x.from == Queued && x.to == Failed
  }

  /** The first terminal write after a claim: the owner's outcome, or a failure. */
  predicate IsFirstEnd(owner: Actor, x: Write) {
    && x.from == Sending
    && ((x.actor == owner && x.to in {Sent, Suppressed, Failed}) || (x.actor.Reconciler? && x.to == Failed))
  }

  /** The only rewrite of a terminal status: the owner's outcome over the reconciler's failure. */
  predicate IsCorrection(owner: Actor, failure: Write, x: Write) {
    && failure.to == Failed && failure.actor.Reconciler?
    && x.actor == owner && x.from == Failed && x.to in {Sent, Suppressed}
  }

  /** Every status history is a prefix of admit, claim, end, correction or of admit, failure. */
  predicate LegalHistory(writes: seq<Write>) {
    && |writes| <= 4
    && (|writes| >= 1 ==> writes[0] == Write(Admission, Absent, Queued))
    && (|writes| >= 2 ==> IsClaim(writes[1]) || IsEarlyFailure(writes[1]))
    && (|writes| >= 3 ==> IsClaim(writes[1]) && IsFirstEnd(writes[1].actor, writes[2]))
    && (|writes| >= 4 ==> IsCorrection(writes[1].actor, writes[2], writes[3]))
  }

  function LastStatus(writes: seq<Write>): Status {
    if writes == [] then Absent else writes[|writes| - 1].to
  }

  /** The job whose compare-and-set won, if any. */
  function Owner(writes: seq<Write>): Option<nat> {
    if |writes| >= 2 && IsClaim(writes[1]) then Some(writes[1].actor.w) else None
  }

  /** The owner has not recorded an outcome yet. */
  predicate Unfinished(writes: seq<Write>) {
    |writes| == 2 || (|writes| == 3 && writes[2].actor.Reconciler?)
  }

  /** Who wrote the failure, if anyone did. */
  function FailedBy(writes: seq<Write>): Option<Actor> {
    if |writes| >= 2 && writes[1].to == Failed then Some(writes[1].actor)
    else if |writes| >= 3 && writes[2].to == Failed then Some(writes[2].actor)
    else None
  }

  /** The authors of the "failed" audit entries, in order. */
  function FailureAudits(audits: seq<Audit>): seq<Actor> {
    if audits == [] then []
    else
      var last := audits[|audits| - 1];
      FailureAudits(audits[..|audits| - 1]) + if last.event == FailedEvent then [last.actor] else []
  }

  lemma FailureAuditsAppend(audits: seq<Audit>, x: Audit)
    ensures FailureAudits(audits + [x])
         == FailureAudits(audits) + if x.event == FailedEvent then [x.actor] else []
  {
    assert (audits + [x])[..|audits|] == audits;
  }

  // ----- The inductive invariant ------------------------------------------------------------

  ghost predicate SharedOk(s: State) {
    && LegalHistory(s.writes) && s.status == LastStatus(s.writes)
    && (s.admission in {Put, Insert} ==> s.writes == [])
    && (s.vault.Some? ==> s.vault.value == s.body && s.takes == [])
    && (s.takes == [] || (|s.takes| == 1 && s.takes[0].content == s.body && Owner(s.writes) == Some(s.takes[0].w)))
    && (s.submissions == [] || (|s.submissions| == 1 && SubmissionOk(s, s.submissions[0])))
    && (s.status == Sent ==> s.submissions != []) && (s.status == Suppressed ==> s.takes == [])
    && FailuresOk(s.writes, FailureAudits(s.audits))
    && (forall w <- s.calls :: CallOk(s.expiresAt, s.now, s.calls[w]))
  }

  predicate SubmissionOk(s: State, x: Submission) {
    s.takes == [Take(x.w, x.content)] && AUTH_SEND_MARGIN_MS < s.expiresAt - x.at && x.at <= s.now
  }

  predicate FailuresOk(writes: seq<Write>, failures: seq<Actor>) {
    match FailedBy(writes)
    case None => failures == []
    case Some(a) => failures == [a] || (failures == [] && !a.Reconciler?)
  }

  predicate CallOk(expiresAt: int, now: int, start: int) {
    AUTH_SEND_MARGIN_MS < expiresAt - start && start <= now <= start + PROVIDER_CALL_MS
  }

  predicate Holds(s: State, w: nat) {
    Owner(s.writes) == Some(w) && Unfinished(s.writes)
  }

  predicate PcOk(s: State, w: nat, pc: Pc) {
    match pc
    case AuditSending | CheckSuppressed | WriteSuppressed | TakeGuard | GetDel =>
      Holds(s, w) && s.takes == [] && s.submissions == []
    case Open(content) =>
      Holds(s, w) && s.takes == [Take(w, content)] && s.submissions == []
    case Settings(content) =>
      Holds(s, w) && s.takes == [Take(w, content)] && s.submissions == [] && w in s.calls
    case Await => Holds(s, w) && s.submissions != [] && w in s.calls
    case WriteSent => Holds(s, w) && s.submissions != []
    case AuditSuppressed => Owner(s.writes) == Some(w)
    case FailCas(owns, _) => owns ==> Owner(s.writes) == Some(w)
    case FailAudit(_) => FailedBy(s.writes) == Some(Worker(w)) && FailureAudits(s.audits) == []
    case _ => true
  }

  predicate SweepOk(expiresAt: int, now: int, pc: SweepPc) {
    match pc
    case Started(at) => at <= now
    case Picked(at, seen) =>
      at <= now && expiresAt <= at - RECONCILE_GRACE_MS && seen in {Queued, Sending}
    case _ => true
  }

  ghost predicate Inv(s: State) {
    && SharedOk(s)
    && (forall w <- s.workers :: PcOk(s, w, s.workers[w]))
    && (forall r <- s.sweeps :: SweepOk(s.expiresAt, s.now, s.sweeps[r]))
  }

  // ----- Preservation --------------------------------------------------------------------------

  /** The invariant of everything but job `w`, which is between two program points. */
  ghost predicate InvExcept(s: State, w: nat) {
    && SharedOk(s)
    && (forall x <- s.workers :: x != w ==> PcOk(s, x, s.workers[x]))
    && (forall r <- s.sweeps :: SweepOk(s.expiresAt, s.now, s.sweeps[r]))
  }

  lemma GotoKeeps(s: State, w: nat, pc: Pc)
    requires InvExcept(s, w) && PcOk(s, w, pc)
    ensures Inv(Goto(s, w, pc))
  {
    var t := Goto(s, w, pc);
    assert SharedOk(t);
    forall x | x in t.workers ensures PcOk(t, x, t.workers[x]) {
      assert x != w ==> PcOk(s, x, s.workers[x]);
    }
  }

  lemma RemoteKeeps(s: State, t: State, w: nat, o: Outcome, next: Pc, thrown: Pc)
    requires InvExcept(s, w) && InvExcept(t, w)
    requires PcOk(s, w, thrown) && PcOk(t, w, thrown) && PcOk(t, w, next)
    ensures Inv(Remote(s, t, w, o, next, thrown))
  {
    GotoKeeps(t, w, next);
    GotoKeeps(t, w, thrown);
    GotoKeeps(s, w, thrown);
  }

  /** A status write that extends the history legally, by a job nobody else's claim excludes. */
  lemma WriteKeeps(s: State, w: nat, to: Status)
    requires InvExcept(s, w) && s.admission !in {Put, Insert}
    requires LegalHistory(s.writes + [Write(Worker(w), s.status, to)])
    requires to == Sent ==> s.submissions != []
    requires to == Suppressed ==> s.takes == []
    requires FailureAudits(s.audits) == [] || (FailedBy(s.writes).Some? && FailedBy(s.writes).value.Reconciler?)
    ensures InvExcept(SetStatus(s, Worker(w), to), w)
  {
    var t := SetStatus(s, Worker(w), to);
    assert SharedOk(t);
    forall x | x in t.workers && x != w ensures PcOk(t, x, t.workers[x]) {
      assert PcOk(s, x, s.workers[x]);
    }
  }

  /** An audit entry by job `w`; a "failed" one only by the job that wrote the failure, once. */
  lemma AuditKeeps(s: State, w: nat, event: AuditEvent)
    requires InvExcept(s, w)
    requires event == FailedEvent ==> FailedBy(s.writes) == Some(Worker(w)) && FailureAudits(s.audits) == []
    ensures InvExcept(AddAudit(s, Worker(w), event), w)
    ensures event != FailedEvent ==> FailureAudits(AddAudit(s, Worker(w), event).audits) == FailureAudits(s.audits)
  {
    var t := AddAudit(s, Worker(w), event);
    FailureAuditsAppend(s.audits, Audit(Worker(w), event));
    assert SharedOk(t);
    forall x | x in t.workers && x != w ensures PcOk(t, x, t.workers[x]) {
      assert PcOk(s, x, s.workers[x]);
    }
  }

  lemma EmptyVaultKeeps(s: State, w: nat)
    requires InvExcept(s, w)
    ensures InvExcept(s.(vault := None), w)
  {
    forall x | x in s.workers && x != w ensures PcOk(s.(vault := None), x, s.workers[x]) {
      assert PcOk(s, x, s.workers[x]);
    }
  }

  lemma TakeKeeps(s: State, w: nat)
    requires InvExcept(s, w) && PcOk(s, w, GetDel) && s.vault.Some?
    ensures InvExcept(s.(vault := None, takes := s.takes + [Take(w, s.vault.value)]), w)
  {
    var t := s.(vault := None, takes := s.takes + [Take(w, s.vault.value)]);
    forall x | x in t.workers && x != w ensures PcOk(t, x, t.workers[x]) {
      assert PcOk(s, x, s.workers[x]);
    }
  }

  lemma StartCallKeeps(s: State, w: nat)
    requires InvExcept(s, w) && LifetimeOk(s.expiresAt, s.now)
    ensures InvExcept(s.(calls := s.calls[w := s.now]), w)
  {
    var t := s.(calls := s.calls[w := s.now]);
    forall x | x in t.workers && x != w ensures PcOk(t, x, t.workers[x]) {
      assert PcOk(s, x, s.workers[x]);
    }
  }

  lemma EndCallKeeps(s: State, w: nat)
    requires InvExcept(s, w)
    ensures InvExcept(s.(calls := s.calls - {w}), w)
  {
    var t := s.(calls := s.calls - {w});
    forall x | x in t.workers && x != w ensures PcOk(t, x, t.workers[x]) {
      assert PcOk(s, x, s.workers[x]);
    }
  }

  lemma SubmitKeeps(s: State, w: nat, content: Content)
    requires InvExcept(s, w) && PcOk(s, w, Settings(content)) && LifetimeOk(s.expiresAt, s.now)
    ensures InvExcept(s.(submissions := s.submissions + [Submission(w, content, s.now)]), w)
  {
    var t := s.(submissions := s.submissions + [Submission(w, content, s.now)]);
    assert t.submissions == [Submission(w, content, s.now)];
    forall x | x in t.workers && x != w ensures PcOk(t, x, t.workers[x]) {
      assert PcOk(s, x, s.workers[x]);
    }
  }

  lemma ClaimKeeps(s: State, w: nat, o: Outcome, v: Verdict)
    requires Inv(s) && w in s.workers && s.workers[w] == Claim
    ensures Inv(WorkerStep(s, w, o, v))
  {
    if s.status == Queued { WriteKeeps(s, w, Sending); }
    RemoteKeeps(s, Cas(s, Worker(w), Queued, Sending), w, o,
                if s.status == Queued then AuditSending else Done, FailCas(false, true));
  }

  lemma AuditSendingKeeps(s: State, w: nat, o: Outcome, v: Verdict)
    requires Inv(s) && w in s.workers && s.workers[w] == AuditSending
    ensures Inv(WorkerStep(s, w, o, v))
  {
    assert PcOk(s, w, AuditSending);
    AuditKeeps(s, w, SendingEvent);
    RemoteKeeps(s, AddAudit(s, Worker(w), SendingEvent), w, o, CheckSuppressed, OWNER_CATCH);
  }

  lemma WriteSuppressedKeeps(s: State, w: nat, o: Outcome, v: Verdict)
    requires Inv(s) && w in s.workers && s.workers[w] == WriteSuppressed
    ensures Inv(WorkerStep(s, w, o, v))
  {
    assert PcOk(s, w, WriteSuppressed);
    WriteKeeps(s, w, Suppressed);
    RemoteKeeps(s, SetStatus(s, Worker(w), Suppressed), w, o, AuditSuppressed, OWNER_CATCH);
  }

  lemma AuditSuppressedKeeps(s: State, w: nat, o: Outcome, v: Verdict)
    requires Inv(s) && w in s.workers && s.workers[w] == AuditSuppressed
    ensures Inv(WorkerStep(s, w, o, v))
  {
    assert PcOk(s, w, AuditSuppressed);
    AuditKeeps(s, w, SuppressedEvent);
    RemoteKeeps(s, AddAudit(s, Worker(w), SuppressedEvent), w, o, Purge, OWNER_CATCH);
  }

  lemma TakingKeeps(s: State, w: nat, o: Outcome, v: Verdict)
    requires Inv(s) && w in s.workers && (s.workers[w] == GetDel || s.workers[w].Open?)
    ensures Inv(WorkerStep(s, w, o, v))
  {
    assert PcOk(s, w, s.workers[w]);
    match s.workers[w]
    case GetDel =>
      EmptyVaultKeeps(s, w);
      if o == Ok && s.vault.Some? {
        TakeKeeps(s, w);
        GotoKeeps(s.(vault := None, takes := s.takes + [Take(w, s.vault.value)]), w, Open(s.vault.value));
      } else {
        RemoteKeeps(s, s.(vault := None), w, o, OWNER_CATCH, OWNER_CATCH);
      }
    case Open(content) =>
      if v == Pass && LifetimeOk(s.expiresAt, s.now) {
        StartCallKeeps(s, w);
        GotoKeeps(s.(calls := s.calls[w := s.now]), w, Settings(content));
      } else {
        GotoKeeps(s, w, OWNER_CATCH);
      }
  }

  lemma SettingsKeeps(s: State, w: nat, o: Outcome, v: Verdict)
    requires Inv(s) && w in s.workers && s.workers[w].Settings?
    ensures Inv(WorkerStep(s, w, o, v))
  {
    var content := s.workers[w].content;
    assert PcOk(s, w, s.workers[w]);
    if WorkerStep(s, w, o, v).workers[w] == Await {
      SubmitKeeps(s, w, content);
      GotoKeeps(s.(submissions := s.submissions + [Submission(w, content, s.now)]), w, Await);
    } else {
      EndCallKeeps(s, w);
      GotoKeeps(s.(calls := s.calls - {w}), w, OWNER_CATCH);
    }
  }

  lemma AwaitKeeps(s: State, w: nat, o: Outcome, v: Verdict)
    requires Inv(s) && w in s.workers && s.workers[w] == Await
    ensures Inv(WorkerStep(s, w, o, v))
  {
    EndCallKeeps(s, w);
    assert PcOk(s, w, Await);
    GotoKeeps(s.(calls := s.calls - {w}), w, WorkerStep(s, w, o, v).workers[w]);
  }

  lemma WriteSentKeeps(s: State, w: nat, o: Outcome, v: Verdict)
    requires Inv(s) && w in s.workers && s.workers[w] == WriteSent
    ensures Inv(WorkerStep(s, w, o, v))
  {
    assert PcOk(s, w, WriteSent);
    WriteKeeps(s, w, Sent);
    RemoteKeeps(s, SetStatus(s, Worker(w), Sent), w, o, AuditSent, OWNER_CATCH);
  }

  lemma AuditSentKeeps(s: State, w: nat, o: Outcome, v: Verdict)
    requires Inv(s) && w in s.workers && s.workers[w] == AuditSent
    ensures Inv(WorkerStep(s, w, o, v))
  {
    assert PcOk(s, w, AuditSent);
    AuditKeeps(s, w, SentEvent);
    RemoteKeeps(s, AddAudit(s, Worker(w), SentEvent), w, o, Done, Done);
  }

  /** A job that may fail the row, does, and is then the one to record the failure. */
  lemma FailureKeeps(s: State, w: nat, owns: bool, purge: bool)
    requires InvExcept(s, w) && PcOk(s, w, FailCas(owns, purge)) && s.status == if owns then Sending else Queued
    ensures InvExcept(SetStatus(s, Worker(w), Failed), w)
    ensures PcOk(SetStatus(s, Worker(w), Failed), w, FailAudit(purge))
  {
    assert |s.writes| == if owns then 2 else 1;
    WriteKeeps(s, w, Failed);
  }

  lemma FailCasKeeps(s: State, w: nat, o: Outcome, v: Verdict)
    requires Inv(s) && w in s.workers && s.workers[w].FailCas?
    ensures Inv(WorkerStep(s, w, o, v))
  {
    var owns, purge := s.workers[w].owns, s.workers[w].purge;
    assert PcOk(s, w, s.workers[w]);
    if s.status == if owns then Sending else Queued {
      FailureKeeps(s, w, owns, purge);
      RemoteKeeps(s, SetStatus(s, Worker(w), Failed), w, o, FailAudit(purge), Done);
    } else {
      RemoteKeeps(s, s, w, o, Done, Done);
    }
  }

  lemma FailAuditKeeps(s: State, w: nat, o: Outcome, v: Verdict)
    requires Inv(s) && w in s.workers && s.workers[w].FailAudit?
    ensures Inv(WorkerStep(s, w, o, v))
  {
    assert PcOk(s, w, s.workers[w]);
    AuditKeeps(s, w, FailedEvent);
    RemoteKeeps(s, AddAudit(s, Worker(w), FailedEvent), w, o, if s.workers[w].purge then Purge else Done, Done);
  }

  /** The steps that only decide where to go next. */
  lemma DecisionKeeps(s: State, w: nat, o: Outcome, v: Verdict)
    requires Inv(s) && w in s.workers && s.workers[w] in {Load, Gates, Prepare, CheckSuppressed, TakeGuard}
    ensures Inv(WorkerStep(s, w, o, v))
  {
    assert PcOk(s, w, s.workers[w]);
    GotoKeeps(s, w, WorkerStep(s, w, o, v).workers[w]);
  }

  lemma PurgeKeeps(s: State, w: nat, o: Outcome, v: Verdict)
    requires Inv(s) && w in s.workers && s.workers[w] == Purge
    ensures Inv(WorkerStep(s, w, o, v))
  {
    EmptyVaultKeeps(s, w);
    RemoteKeeps(s, s.(vault := None), w, o, Done, Done);
  }

  lemma WorkerKeepsInv(s: State, w: nat, o: Outcome, v: Verdict)
    requires Inv(s) && w in s.workers
    ensures Inv(WorkerStep(s, w, o, v))
  {
    match s.workers[w] {
      case Load | Gates | Prepare | CheckSuppressed | TakeGuard => DecisionKeeps(s, w, o, v);
      case Claim => ClaimKeeps(s, w, o, v);
      case AuditSending => AuditSendingKeeps(s, w, o, v);
      case WriteSuppressed => WriteSuppressedKeeps(s, w, o, v);
      case AuditSuppressed => AuditSuppressedKeeps(s, w, o, v);
      case GetDel | Open(_) => TakingKeeps(s, w, o, v);
      case Settings(_) => SettingsKeeps(s, w, o, v);
      case Await => AwaitKeeps(s, w, o, v);
      case WriteSent => WriteSentKeeps(s, w, o, v);
      case AuditSent => AuditSentKeeps(s, w, o, v);
      case FailCas(_, _) => FailCasKeeps(s, w, o, v);
      case FailAudit(_) => FailAuditKeeps(s, w, o, v);
      case Purge => PurgeKeeps(s, w, o, v);
      case Done =>
    }
  }

  /** Fields that only the environment reads may change freely. */
  lemma BookkeepingKeeps(s: State, t: State)
    requires Inv(s)
    requires t == s.(vault := t.vault, sweeps := t.sweeps, admission := t.admission)
    requires t.vault == None || (t.vault == Some(s.body) && s.takes == [])
    requires t.admission in {Put, Insert} ==> s.writes == []
    requires forall r <- t.sweeps :: SweepOk(s.expiresAt, s.now, t.sweeps[r])
    ensures Inv(t)
  {
    assert SharedOk(t);
    forall x | x in t.workers ensures PcOk(t, x, t.workers[x]) {
      assert PcOk(s, x, s.workers[x]);
    }
  }

  /** The reconciler's failure ends an open history and leaves its owner, if any, in charge of the correction. */
  lemma FailureExtends(writes: seq<Write>, r: nat)
    requires LegalHistory(writes) && LastStatus(writes) in {Queued, Sending}
    ensures var after := writes + [Write(Reconciler(r), LastStatus(writes), Failed)];
            && LegalHistory(after) && LastStatus(after) == Failed && Owner(after) == Owner(writes)
            && FailedBy(writes) == None && FailedBy(after) == Some(Reconciler(r))
            && (Owner(writes).Some? ==> Unfinished(after))
  {
    assert |writes| in {1, 2};
  }

  lemma ReconcileKeeps(s: State, r: nat)
    requires Inv(s) && s.status in {Queued, Sending}
    ensures Inv(AddAudit(SetStatus(s, Reconciler(r), Failed), Reconciler(r), FailedEvent))
  {
    var t := AddAudit(SetStatus(s, Reconciler(r), Failed), Reconciler(r), FailedEvent);
    FailureAuditsAppend(s.audits, Audit(Reconciler(r), FailedEvent));
    FailureExtends(s.writes, r);
    assert SharedOk(t);
    forall x | x in t.workers ensures PcOk(t, x, t.workers[x]) {
      ReconcilePcKeeps(s, t, r, x, s.workers[x]);
    }
  }

  lemma ReconcilePcKeeps(s: State, t: State, r: nat, w: nat, pc: Pc)
    requires LegalHistory(s.writes) && LastStatus(s.writes) in {Queued, Sending} && PcOk(s, w, pc)
    requires t.writes == s.writes + [Write(Reconciler(r), LastStatus(s.writes), Failed)]
    requires t.takes == s.takes && t.submissions == s.submissions && t.calls == s.calls
    ensures PcOk(t, w, pc)
  {
    FailureExtends(s.writes, r);
  }

  lemma CommitKeeps(s: State, r: nat, pc: SweepPc)
    requires Inv(s) && s.status in {Queued, Sending} && pc in {SweepPurge, SweepDone}
    ensures Inv(AddAudit(SetStatus(s, Reconciler(r), Failed), Reconciler(r), FailedEvent)
                .(sweeps := s.sweeps[r := pc]))
  {
    var u := AddAudit(SetStatus(s, Reconciler(r), Failed), Reconciler(r), FailedEvent);
    ReconcileKeeps(s, r);
    BookkeepingKeeps(u, u.(sweeps := s.sweeps[r := pc]));
  }

  lemma SweepKeepsInv(s: State, r: nat, o: Outcome)
    requires Inv(s) && r in s.sweeps
    ensures Inv(SweepStep(s, r, o))
  {
    assert SweepOk(s.expiresAt, s.now, s.sweeps[r]);
    match s.sweeps[r]
    case Started(_) => BookkeepingKeeps(s, SweepStep(s, r, o));
    case Picked(_, seen) =>
      if s.status == seen && o != Lost {
        CommitKeeps(s, r, if o == Ok then SweepPurge else SweepDone);
      } else {
        BookkeepingKeeps(s, s.(sweeps := s.sweeps[r := SweepDone]));
      }
    case SweepPurge => BookkeepingKeeps(s, SweepStep(s, r, o));
    case SweepDone =>
  }

  lemma InsertKeeps(s: State)
    requires Inv(s) && s.admission == Insert
    ensures Inv(SetStatus(s, Admission, Queued).(admission := AuditQueued))
  {
    var t := SetStatus(s, Admission, Queued).(admission := AuditQueued);
    assert t.writes == [Write(Admission, Absent, Queued)];
    assert SharedOk(t);
    forall x | x in t.workers ensures PcOk(t, x, t.workers[x]) {
      assert PcOk(s, x, s.workers[x]);
    }
  }

  lemma AuditQueuedKeeps(s: State)
    requires Inv(s)
    ensures Inv(AddAudit(s, Admission, QueuedEvent))
  {
    var t := AddAudit(s, Admission, QueuedEvent);
    FailureAuditsAppend(s.audits, Audit(Admission, QueuedEvent));
    assert SharedOk(t);
    forall x | x in t.workers ensures PcOk(t, x, t.workers[x]) {
      assert PcOk(s, x, s.workers[x]);
    }
  }

  lemma InsertStepKeeps(s: State, o: Outcome, v: Verdict)
    requires Inv(s) && s.admission == Insert
    ensures Inv(AdmissionStep(s, o, v))
  {
    if o == Lost || v != Pass || !LifetimeOk(s.expiresAt, s.now) {
      BookkeepingKeeps(s, s.(admission := DiscardPut));
    } else {
      var t := SetStatus(s, Admission, Queued).(admission := AuditQueued);
      InsertKeeps(s);
      BookkeepingKeeps(t, t.(admission := if o == Ok then AuditQueued else DiscardPut));
    }
  }

  lemma AdmissionKeepsInv(s: State, o: Outcome, v: Verdict)
    requires Inv(s)
    ensures Inv(AdmissionStep(s, o, v))
  {
    if s.admission == Insert {
      InsertStepKeeps(s, o, v);
    } else if s.admission == AuditQueued && o != Lost {
      AuditQueuedKeeps(s);
      BookkeepingKeeps(AddAudit(s, Admission, QueuedEvent), AdmissionStep(s, o, v));
    } else {
      BookkeepingKeeps(s, AdmissionStep(s, o, v));
    }
  }

  lemma TickKeeps(s: State, ms: nat)
    requires Inv(s)
    ensures Inv(Next(s, Tick(ms)))
  {
    var t := s.(now := s.now + ms);
    if Next(s, Tick(ms)) != s {
      forall w | w in t.calls ensures CallOk(t.expiresAt, t.now, t.calls[w]) {
        assert CallOk(s.expiresAt, s.now, s.calls[w]);
      }
      assert SharedOk(t);
      forall x | x in t.workers ensures PcOk(t, x, t.workers[x]) {
        assert PcOk(s, x, s.workers[x]);
      }
      forall r | r in t.sweeps ensures SweepOk(t.expiresAt, t.now, t.sweeps[r]) {
        assert SweepOk(s.expiresAt, s.now, s.sweeps[r]);
      }
    }
  }

  lemma EndCrashedCallKeeps(s: State, w: nat)
    requires Inv(s)
    ensures Inv(Next(s, EndCall(w)))
  {
    if w in s.calls && w in s.workers && s.workers[w] == Done {
      EndCallKeeps(s, w);
    }
  }

  /** The disconnect route fails a queued message without a word in the audit trail. */
  lemma DisconnectKeeps(s: State)
    requires Inv(s) && s.status == Queued
    ensures Inv(SetStatus(s, Disconnection, Failed))
  {
    var t := SetStatus(s, Disconnection, Failed);
    assert |s.writes| == 1;
    assert SharedOk(t);
    forall x | x in t.workers ensures PcOk(t, x, t.workers[x]) {
      assert PcOk(s, x, s.workers[x]);
    }
  }

  lemma NextKeepsInv(s: State, step: Step)
    requires Inv(s)
    ensures Inv(Next(s, step))
  {
    match step
    case Work(w, o, v) => if w in s.workers { WorkerKeepsInv(s, w, o, v); }
    case Sweep(r, o) => if r in s.sweeps { SweepKeepsInv(s, r, o); }
    case Admit(o, v) => AdmissionKeepsInv(s, o, v);
    case Spawn(w) => if w !in s.workers { GotoKeeps(s, w, Load); }
    case Crash(w) => if w in s.workers { GotoKeeps(s, w, Done); }
    case Tick(ms) => TickKeeps(s, ms);
    case EndCall(w) => EndCrashedCallKeeps(s, w);
    case StartSweep(_) => BookkeepingKeeps(s, Next(s, step));
    case LoseVaultEntry => BookkeepingKeeps(s, Next(s, step));
    case Disconnect => if s.status == Queued { DisconnectKeeps(s); }
  }

  lemma {:induction false} RunKeepsInv(s: State, steps: seq<Step>)
    requires Inv(s)
    ensures Inv(Run(s, steps))
  {
    if steps != [] {
      RunKeepsInv(s, steps[..|steps| - 1]);
      NextKeepsInv(Run(s, steps[..|steps| - 1]), steps[|steps| - 1]);
    }
  }
}
