/**
 * The one-shot authentication-mail protocol as a state machine.
 *
 * One message row, one ephemeral vault entry, the provider, the audit trail and a clock are
 * shared by one admission request, any number of send jobs and any number of reconciliation
 * sweeps. Every `await` of the source is one atomic step here, so any interleaving of the steps
 * is a possible run; a process that crashes is one that is never scheduled again.
 */
module AuthProtocol {
  import opened Prelude

  const AUTH_MAX_LIFETIME_MS := 3_600_000
  const AUTH_SEND_MARGIN_MS := 15_000
  const RECONCILE_GRACE_MS := 60_000
  const PROVIDER_CALL_MS := 5_000

  /** `assertAuthLifetime` returns normally exactly when this holds. */
  predicate LifetimeOk(expiresAt: int, now: int) {
    AUTH_SEND_MARGIN_MS < expiresAt - now <= AUTH_MAX_LIFETIME_MS
  }

  datatype Content = Content(html: string, text: string)

  datatype Status = Absent | Queued | Sending | Sent | Failed | Suppressed

  /** `Disconnection` is the route that takes a sending provider away and fails what the organisation has queued. */
  datatype Actor = Admission | Worker(w: nat) | Reconciler(r: nat) | Disconnection

  /** One change of the row's status, by whom, in the order the database applied them. */
  datatype Write = Write(actor: Actor, from: Status, to: Status)

  datatype AuditEvent = QueuedEvent | SendingEvent | SentEvent | FailedEvent | SuppressedEvent

  datatype Audit = Audit(actor: Actor, event: AuditEvent)

  /** A GETDEL that handed the content to a worker. */
  datatype Take = Take(w: nat, content: Content)

  /** A request the provider received. */
  datatype Submission = Submission(w: nat, content: Content, at: int)

  /** Where one send job is. Each constructor names the step the job performs next. */
  datatype Pc =
    | Load
    | Gates
    | Prepare
    | Claim
    | AuditSending
    | CheckSuppressed
    | WriteSuppressed
    | AuditSuppressed
    | TakeGuard
    | GetDel
    | Open(content: Content)
    | Settings(content: Content)
    | Await
    | WriteSent
    | AuditSent
    | FailCas(owns: bool, purge: bool)
    | FailAudit(purge: bool)
    | Purge
    | Done

  datatype SweepPc = Started(at: int) | Picked(at: int, seen: Status) | SweepPurge | SweepDone

  datatype AdmissionPc = Put | Insert | AuditQueued | DiscardPut | Admitted

  /** How a remote call ended: normally, or by throwing before or after it took effect. */
  datatype Outcome = Ok | Lost | LostAfter

  /** What the environment answered where the source branches on data outside this protocol. */
  datatype Verdict = Pass | Refuse(purge: bool) | Defer

  datatype State = State(
    expiresAt: int,
    body: Content,
    now: int,
    status: Status,
    vault: Option<Content>,
    calls: map<nat, int>,
    workers: map<nat, Pc>,
    sweeps: map<nat, SweepPc>,
    admission: AdmissionPc,
    writes: seq<Write>,
    takes: seq<Take>,
    submissions: seq<Submission>,
    audits: seq<Audit>)

  datatype Step =
    | Admit(o: Outcome, v: Verdict)
    | Spawn(w: nat)
    | Work(w: nat, o: Outcome, v: Verdict)
    | Crash(w: nat)
    | StartSweep(r: nat)
    | Sweep(r: nat, o: Outcome)
    | Tick(ms: nat)
    | LoseVaultEntry
    | EndCall(w: nat)
    | Disconnect

  function Initial(expiresAt: int, body: Content, now: int): State {
    State(expiresAt, body, now, Absent, None, map[], map[], map[], Put, [], [], [], [])
  }

  // ----- Database and audit primitives --------------------------------------------------

  function SetStatus(s: State, actor: Actor, to: Status): State {
    s.(status := to, writes := s.writes + [Write(actor, s.status, to)])
  }

  /** Update the status to `to` where it is `from`. */
  function Cas(s: State, actor: Actor, from: Status, to: Status): State {
    if s.status == from then SetStatus(s, actor, to) else s
  }

  function AddAudit(s: State, actor: Actor, event: AuditEvent): State {
    s.(audits := s.audits + [Audit(actor, event)])
  }

  function Goto(s: State, w: nat, pc: Pc): State {
    s.(workers := s.workers[w := pc])
  }

  /** A remote call that leads from `s` to `t`: continue at `next`, or throw and go to `thrown`. */
  function Remote(s: State, t: State, w: nat, o: Outcome, next: Pc, thrown: Pc): State {
    match o
    case Ok => Goto(t, w, next)
    case Lost => Goto(s, w, thrown)
    case LostAfter => Goto(t, w, thrown)
  }

  // ----- One send job -------------------------------------------------------------------

  /** The exception handler of a job that holds the claim and the vault. */
  const OWNER_CATCH := FailCas(true, true)

  function WorkerStep(s: State, w: nat, o: Outcome, v: Verdict): (t: State)
    requires w in s.workers
    ensures t.expiresAt == s.expiresAt && t.body == s.body && t.now == s.now
  {
    match s.workers[w]
    case Load =>
      Goto(s, w, if o != Ok || s.status != Queued then Done
                 else if LifetimeOk(s.expiresAt, s.now) then Gates
                 else FailCas(false, true))
    case Gates =>
      Goto(s, w, if o != Ok then Done else
             match v
             case Pass => Prepare
             case Refuse(purge) => FailCas(false, purge)
             case Defer => Done)
    case Prepare =>
      Goto(s, w, if !LifetimeOk(s.expiresAt, s.now) then FailCas(false, false)
                 else if v.Refuse? then FailCas(false, v.purge)
                 else if o != Ok then FailCas(false, true)
                 else Claim)
    case Claim =>
      Remote(s, Cas(s, Worker(w), Queued, Sending), w, o,
             if s.status == Queued then AuditSending else Done, FailCas(false, true))
    case AuditSending =>
      Remote(s, AddAudit(s, Worker(w), SendingEvent), w, o, CheckSuppressed, OWNER_CATCH)
    case CheckSuppressed =>
      Goto(s, w, if o != Ok then OWNER_CATCH else if v.Refuse? then WriteSuppressed else TakeGuard)
    case WriteSuppressed =>
      Remote(s, SetStatus(s, Worker(w), Suppressed), w, o, AuditSuppressed, OWNER_CATCH)
    case AuditSuppressed =>
      Remote(s, AddAudit(s, Worker(w), SuppressedEvent), w, o, Purge, OWNER_CATCH)
    case TakeGuard =>
      Goto(s, w, if o == Ok && v == Pass && LifetimeOk(s.expiresAt, s.now) then GetDel else OWNER_CATCH)
    case GetDel =>
      if o == Ok && s.vault.Some? then
        Goto(s.(vault := None, takes := s.takes + [Take(w, s.vault.value)]), w, Open(s.vault.value))
      else
        Remote(s, s.(vault := None), w, o, OWNER_CATCH, OWNER_CATCH)
    case Open(content) =>
      if v == Pass && LifetimeOk(s.expiresAt, s.now) then
        Goto(s.(calls := s.calls[w := s.now]), w, Settings(content))
      else
        Goto(s, w, OWNER_CATCH)
    case Settings(content) =>
      if o == Ok && v == Pass && LifetimeOk(s.expiresAt, s.now) && w in s.calls
         && s.now < s.calls[w] + PROVIDER_CALL_MS
      then
        Goto(s.(submissions := s.submissions + [Submission(w, content, s.now)]), w, Await)
      else
        Goto(s.(calls := s.calls - {w}), w, OWNER_CATCH)
    case Await =>
      Goto(s.(calls := s.calls - {w}), w, if o == Ok && v == Pass then WriteSent else OWNER_CATCH)
    case WriteSent =>
      Remote(s, SetStatus(s, Worker(w), Sent), w, o, AuditSent, OWNER_CATCH)
    case AuditSent =>
      Remote(s, AddAudit(s, Worker(w), SentEvent), w, o, Done, Done)
    case FailCas(owns, purge) =>
      var from := if owns then Sending else Queued;
      Remote(s, Cas(s, Worker(w), from, Failed), w, o,
             if s.status == from then FailAudit(purge) else Done, Done)
    case FailAudit(purge) =>
      Remote(s, AddAudit(s, Worker(w), FailedEvent), w, o, if purge then Purge else Done, Done)
    case Purge =>
      Remote(s, s.(vault := None), w, o, Done, Done)
    case Done => s
  }

  // ----- Reconciliation, admission and the environment ------------------------------------

  function SweepStep(s: State, r: nat, o: Outcome): (t: State)
    requires r in s.sweeps
    ensures t.expiresAt == s.expiresAt && t.body == s.body && t.now == s.now
  {
    match s.sweeps[r]
    case Started(at) =>
      var due := s.status in {Queued, Sending} && s.expiresAt <= at - RECONCILE_GRACE_MS;
      s.(sweeps := s.sweeps[r := if o == Ok && due then Picked(at, s.status) else SweepDone])
    case Picked(_, seen) =>
      // The status change and its audit entry commit in one transaction.
      if s.status == seen && o != Lost then
        AddAudit(SetStatus(s, Reconciler(r), Failed), Reconciler(r), FailedEvent)
        .(sweeps := s.sweeps[r := if o == Ok then SweepPurge else SweepDone])
      else
        s.(sweeps := s.sweeps[r := SweepDone])
    case SweepPurge =>
      s.(vault := if o == Lost then s.vault else None, sweeps := s.sweeps[r := SweepDone])
    case SweepDone => s
  }

  function AdmissionStep(s: State, o: Outcome, v: Verdict): (t: State)
    ensures t.expiresAt == s.expiresAt && t.body == s.body && t.now == s.now
  {
    match s.admission
    case Put =>
      if o == Lost || v != Pass || !LifetimeOk(s.expiresAt, s.now) || s.vault.Some? then
        s.(admission := Admitted)
      else
        s.(vault := Some(s.body), admission := if o == Ok then Insert else Admitted)
    case Insert =>
      if o == Lost || v != Pass || !LifetimeOk(s.expiresAt, s.now) then
        s.(admission := DiscardPut)
      else
        SetStatus(s, Admission, Queued).(admission := if o == Ok then AuditQueued else DiscardPut)
    case AuditQueued =>
      (if o == Lost then s else AddAudit(s, Admission, QueuedEvent)).(admission := Admitted)
    case DiscardPut =>
      s.(vault := if o == Lost then s.vault else None, admission := Admitted)
    case Admitted => s
  }

  /** The state after one step; a step that is not enabled changes nothing. */
  function Next(s: State, step: Step): (t: State)
    ensures t.expiresAt == s.expiresAt && t.body == s.body && s.now <= t.now
  {
    match step
    case Admit(o, v) => AdmissionStep(s, o, v)
    case Spawn(w) => if w in s.workers then s else Goto(s, w, Load)
    case Work(w, o, v) => if w in s.workers then WorkerStep(s, w, o, v) else s
    case Crash(w) => if w in s.workers then Goto(s, w, Done) else s
    case StartSweep(r) => if r in s.sweeps then s else s.(sweeps := s.sweeps[r := Started(s.now)])
    case Sweep(r, o) => if r in s.sweeps then SweepStep(s, r, o) else s
    case Tick(ms) =>
      // A provider call is aborted after five seconds, so no call outlives that.
      if forall w <- s.calls :: s.now + ms <= s.calls[w] + PROVIDER_CALL_MS then s.(now := s.now + ms) else s
    case LoseVaultEntry => s.(vault := None)
    case Disconnect => Cas(s, Disconnection, Queued, Failed)
    case EndCall(w) =>
      // A call whose job has crashed ends on its own.
      if w in s.calls && w in s.workers && s.workers[w] == Done then s.(calls := s.calls - {w}) else s
  }

  /** The state a run of steps leads to. */
  function Run(s: State, steps: seq<Step>): State {
    if steps == [] then s else Next(Run(s, steps[..|steps| - 1]), steps[|steps| - 1])
  }
}
