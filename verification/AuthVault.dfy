/**
 * The ephemeral store for the content of auth mail: put once, taken once, bound to one message.
 * Encryption is ideal: what is sealed opens only under its own secret and for its own scope.
 */
module AuthVault {
  import opened Prelude
  import AuthProtocol

  datatype Scope = Scope(id: nat, workspace: nat, client: Option<nat>, expiresAt: int)

  /** The name of an entry leaves the client and the deadline out; the seal binds them. */
  datatype Name = Name(workspace: nat, id: nat)

  datatype Sealed = Sealed(content: string, scope: Scope, secret: nat)

  datatype Entry = Entry(sealed: Sealed, expiresAt: int)

  datatype Error = Unavailable | Expired | ContentUnavailable | ContentInvalid

  type Entries = map<Name, Entry>

  function NameOf(s: Scope): Name {
    Name(s.workspace, s.id)
  }

  predicate Alive(es: Entries, n: Name, now: int) {
    n in es && now < es[n].expiresAt
  }

  predicate LifetimeOk(expiresAt: int, now: int) {
    AuthProtocol.LifetimeOk(expiresAt, now)
  }

  // ----- Putting ------------------------------------------------------------------------------------------

  /** What `put` reports; `ready` says whether the store is reachable and set up never to persist. */
  function PutResult(es: Entries, s: Scope, wellFormed: bool, ready: bool, now: int): Option<Error> {
    if !ready then Some(Unavailable)
    else if !LifetimeOk(s.expiresAt, now) then Some(Expired)
    else if !wellFormed then Some(ContentInvalid)
    else if Alive(es, NameOf(s), now) then Some(ContentUnavailable)
    else None
  }

  function AfterPut(es: Entries, s: Scope, content: string, secret: nat, wellFormed: bool, ready: bool,
                    now: int): Entries {
    if PutResult(es, s, wellFormed, ready, now).Some? then es
    else es[NameOf(s) := Entry(Sealed(content, s, secret), s.expiresAt)]
  }

  // ----- Taking ---------------------------------------------------------------------------------------------

  /** Whether `take` gets as far as reading and deleting the entry. */
  predicate Reads(s: Scope, ready: bool, now: int) {
    ready && LifetimeOk(s.expiresAt, now)
  }

  /** `opened` is when the entry is unsealed, after it was read at `now`. */
  function TakeResult(es: Entries, s: Scope, secret: nat, ready: bool, now: int, unsealed: int): Result<string, Error> {
    if !ready then Failure(Unavailable)
    else if !LifetimeOk(s.expiresAt, now) then Failure(Expired)
    else if !Alive(es, NameOf(s), now) then Failure(ContentUnavailable)
    else if !LifetimeOk(s.expiresAt, unsealed) then Failure(Expired)
    else
      var sealed := es[NameOf(s)].sealed;
      if sealed.scope == s && sealed.secret == secret then Success(sealed.content) else Failure(ContentUnavailable)
  }

  function AfterTake(es: Entries, s: Scope, ready: bool, now: int): Entries {
    if Reads(s, ready, now) then es - {NameOf(s)} else es
  }

  class Vault {
    var entries: Entries
    const secret: nat

    constructor (secret: nat)
      ensures entries == map[] && this.secret == secret
    {
      this.secret := secret;
      entries := map[];
    }

    method Put(s: Scope, content: string, wellFormed: bool, ready: bool, now: int) returns (r: Option<Error>)
      modifies this
      ensures r == PutResult(old(entries), s, wellFormed, ready, now)
      ensures entries == AfterPut(old(entries), s, content, secret, wellFormed, ready, now)
    {
      if !ready {
        return Some(Unavailable);
      }
      if !LifetimeOk(s.expiresAt, now) {
        return Some(Expired);
      }
      if !wellFormed {
        return Some(ContentInvalid);
      }
      if Alive(entries, NameOf(s), now) {
        return Some(ContentUnavailable);
      }
      entries := entries[NameOf(s) := Entry(Sealed(content, s, secret), s.expiresAt)];
      return None;
    }

    method Take(s: Scope, ready: bool, now: int, unsealed: int) returns (r: Result<string, Error>)
      modifies this
      ensures r == TakeResult(old(entries), s, secret, ready, now, unsealed)
      ensures entries == AfterTake(old(entries), s, ready, now)
    {
      if !ready {
        return Failure(Unavailable);
      }
      if !LifetimeOk(s.expiresAt, now) {
        return Failure(Expired);
      }
      var there := Alive(entries, NameOf(s), now);
      var sealed := if there then Some(entries[NameOf(s)].sealed) else None;
      entries := entries - {NameOf(s)};
      if sealed.None? {
        return Failure(ContentUnavailable);
      }
      if !LifetimeOk(s.expiresAt, unsealed) {
        return Failure(Expired);
      }
      if sealed.value.scope != s || sealed.value.secret != secret {
        return Failure(ContentUnavailable);
      }
      return Success(sealed.value.content);
    }

    method Discard(s: Scope)
      modifies this
      ensures entries == old(entries) - {NameOf(s)}
    {
      entries := entries - {NameOf(s)};
    }
  }

  /** What was put comes back for the scope it was put for, and for no other scope of the same name. */
  lemma TakenAsPut(es: Entries, put: Scope, take: Scope, content: string, secret: nat, now: int, later: int,
                   unsealed: int)
    requires PutResult(es, put, true, true, now).None? && NameOf(take) == NameOf(put)
    requires now <= later <= unsealed && LifetimeOk(take.expiresAt, later) && LifetimeOk(take.expiresAt, unsealed)
    ensures var after := AfterPut(es, put, content, secret, true, true, now);
            TakeResult(after, take, secret, true, later, unsealed) == Success(content) <==> take == put
  {
  }

  // ----- Every run --------------------------------------------------------------------------------------------

  datatype Operation =
    | PutOp(s: Scope, content: string, wellFormed: bool, ready: bool, now: int)
    | TakeOp(s: Scope, ready: bool, now: int, unsealed: int)
    | DiscardOp(s: Scope)

  function Step(es: Entries, secret: nat, op: Operation): Entries {
    match op
    case PutOp(s, content, wellFormed, ready, now) => AfterPut(es, s, content, secret, wellFormed, ready, now)
    case TakeOp(s, ready, now, unsealed) => AfterTake(es, s, ready, now)
    case DiscardOp(s) => es - {NameOf(s)}
  }

  function Run(secret: nat, ops: seq<Operation>): Entries {
    if ops == [] then map[] else Step(Run(secret, ops[..|ops| - 1]), secret, ops[|ops| - 1])
  }

  predicate StoredNow(es: Entries, op: Operation, n: Name) {
    op.PutOp? && NameOf(op.s) == n && PutResult(es, op.s, op.wellFormed, op.ready, op.now).None?
  }

  predicate HandedOut(es: Entries, secret: nat, op: Operation, n: Name) {
    op.TakeOp? && NameOf(op.s) == n && TakeResult(es, op.s, secret, op.ready, op.now, op.unsealed).Success?
  }

  function Puts(secret: nat, ops: seq<Operation>, n: Name): nat {
    if ops == [] then 0
    else
      var front := ops[..|ops| - 1];
      Puts(secret, front, n) + if StoredNow(Run(secret, front), ops[|ops| - 1], n) then 1 else 0
  }

  function Takes(secret: nat, ops: seq<Operation>, n: Name): nat {
    if ops == [] then 0
    else
      var front := ops[..|ops| - 1];
      Takes(secret, front, n) + if HandedOut(Run(secret, front), secret, ops[|ops| - 1], n) then 1 else 0
  }

  /** In every run content is handed out at most once for each time it was put. */
  lemma {:induction false} HandedOutAtMostOncePerPut(secret: nat, ops: seq<Operation>, n: Name)
    ensures Takes(secret, ops, n) + (if n in Run(secret, ops) then 1 else 0) <= Puts(secret, ops, n)
  {
    if ops != [] {
      HandedOutAtMostOncePerPut(secret, ops[..|ops| - 1], n);
    }
  }
}
