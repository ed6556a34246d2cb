/** Provider credentials in envelopes, and re-wrapping them under a new key. Encryption is ideal. */
module Envelope {
  import opened Prelude

  /** A key-encryption key and the short id derived from it. */
  datatype Kek = Kek(kid: nat, key: nat)

  /** Something encrypted: it opens under its own key only. */
  datatype Box<T> = Box(key: nat, nonce: nat, content: T)

  /**
   * A stored credential: an envelope holds the credential under a data key and the data key under a KEK.
   * `Legacy` is the older encryption, which needs none of these keys.
   */
  datatype Stored =
    | Sealed(kid: nat, dek: Box<nat>, body: Box<string>)
    | Legacy(secret: string)
    | Plain(text: string)
    | Malformed

  datatype Error = NoKey | UnknownKid | CannotOpen | Refused

  function Open<T>(box: Box<T>, key: nat): Option<T> {
    if box.key == key then Some(box.content) else None
  }

  /** The first available key with this id. */
  function KekFor(kid: nat, available: seq<Option<Kek>>): (k: Option<Kek>)
    ensures k.Some? ==> k in available && k.value.kid == kid
    ensures k.None? <==> forall x :: x in available && x.Some? ==> x.value.kid != kid
  {
    if available == [] then None
    else if available[0].Some? && available[0].value.kid == kid then available[0]
    else KekFor(kid, available[1..])
  }

  /** The last three arguments stand for the random data key and nonces. */
  function SealCredentials(plaintext: string, kek: Option<Kek>, dek: nat, nonce: nat, nonce2: nat)
      : Result<Stored, Error>
  {
    if kek.None? then Failure(NoKey)
    else Success(Sealed(kek.value.kid, Box(kek.value.key, nonce, dek), Box(dek, nonce2, plaintext)))
  }

  function OpenCredentials(stored: Stored, available: seq<Option<Kek>>): Result<string, Error> {
    match stored
    case Malformed => Failure(CannotOpen)
    case Legacy(secret) => Success(secret)
    case Plain(text) => Success(text)
    case Sealed(kid, wrapped, body) =>
      var k := KekFor(kid, available);
      if k.None? then Failure(UnknownKid)
      else
        var dek := Open(wrapped, k.value.key);
        if dek.None? || Open(body, dek.value).None? then Failure(CannotOpen)
        else Success(Open(body, dek.value).value)
  }

  function RewrapCredentials(stored: Stored, current: Option<Kek>, available: seq<Option<Kek>>,
                             dek: nat, nonce: nat, nonce2: nat): Result<Stored, Error> {
    if current.None? then Failure(NoKey)
    else
      match stored
      case Malformed => Failure(CannotOpen)
      case Plain(_) => Failure(Refused)
      case Legacy(secret) => SealCredentials(secret, current, dek, nonce, nonce2)
      case Sealed(kid, wrapped, body) =>
        if kid == current.value.kid then Success(stored)
        else
          var k := KekFor(kid, available);
          if k.None? then Failure(UnknownKid)
          else
            var inner := Open(wrapped, k.value.key);
            if inner.None? then Failure(CannotOpen)
            else Success(Sealed(current.value.kid, Box(current.value.key, nonce, inner.value), body))
  }

  /** The id of a key tells keys apart. */
  predicate IdsTellApart(available: seq<Option<Kek>>) {
    forall x, y :: x in available && y in available && x.Some? && y.Some? && x.value.kid == y.value.kid ==> x == y
  }

  lemma CurrentFound(current: Kek, available: seq<Option<Kek>>)
    requires IdsTellApart(available) && Some(current) in available
    ensures KekFor(current.kid, available) == Some(current)
  {
  }

  /** A sealed credential opens again wherever its key is available. */
  lemma OpensAgain(plaintext: string, kek: Kek, available: seq<Option<Kek>>, dek: nat, nonce: nat, nonce2: nat)
    requires IdsTellApart(available)
    ensures var stored := SealCredentials(plaintext, Some(kek), dek, nonce, nonce2).value;
            OpenCredentials(stored, available) == Success(plaintext) <==> Some(kek) in available
  {
    if Some(kek) in available {
      CurrentFound(kek, available);
    }
    var found := KekFor(kek.kid, available);
    if found.Some? {
      assert Some(found.value) in available;
    }
  }

  /** Re-wrapping keeps the credential, and afterwards the current key alone opens it. */
  lemma RewrapKeepsPlaintext(stored: Stored, current: Kek, available: seq<Option<Kek>>,
                             dek: nat, nonce: nat, nonce2: nat)
    requires IdsTellApart(available) && Some(current) in available
    requires OpenCredentials(stored, available).Success?
    ensures var r := RewrapCredentials(stored, Some(current), available, dek, nonce, nonce2);
            && (r.Success? <==> !stored.Plain?)
            && (r.Success? ==>
                  OpenCredentials(r.value, available) == OpenCredentials(stored, available)
                  && OpenCredentials(r.value, [Some(current)]) == OpenCredentials(stored, available))
  {
    CurrentFound(current, available);
    assert KekFor(current.kid, [Some(current)]) == Some(current);
  }

  /** Doing it again changes nothing, whatever keys and random numbers are around. */
  lemma RewrapAgain(stored: Stored, current: Kek, available: seq<Option<Kek>>, dek: nat, nonce: nat, nonce2: nat,
                    others: seq<Option<Kek>>, a: nat, b: nat, c: nat)
    ensures var r := RewrapCredentials(stored, Some(current), available, dek, nonce, nonce2);
            r.Success? ==> RewrapCredentials(r.value, Some(current), others, a, b, c) == r
  {
  }

  // ----- The whole table ----------------------------------------------------------------------------------

  /** What one row becomes; rows the run does not cover stay as they are. */
  function RowAfter(row: Stored, upgradeLegacy: bool, current: Option<Kek>, available: seq<Option<Kek>>, r: nat)
      : Result<Stored, Error>
  {
    if !row.Sealed? && !row.Malformed? && !upgradeLegacy then Success(row)
    else RewrapCredentials(row, current, available, r, r, r)
  }

  /** Rows that a run writes back: sealed under another key, or in the older encryption where that is upgraded. */
  predicate Outdated(row: Stored, upgradeLegacy: bool, current: Kek) {
    (row.Sealed? && row.kid != current.kid) || (row.Legacy? && upgradeLegacy)
  }

  lemma OutdatedIsWritten(row: Stored, upgradeLegacy: bool, current: Kek, available: seq<Option<Kek>>, r: nat)
    ensures var next := RowAfter(row, upgradeLegacy, Some(current), available, r);
            next.Success? ==> (next.value != row <==> Outdated(row, upgradeLegacy, current))
  {
  }

  /** The table as others have left it: `saved` holds the credentials saved after the run read the table. */
  function SavedOver(before: seq<Stored>, saved: map<nat, Stored>): (r: seq<Stored>)
    ensures |r| == |before|
    ensures forall i :: 0 <= i < |r| ==> r[i] == if i in saved then saved[i] else before[i]
  {
    seq(|before|, i requires 0 <= i < |before| => if i in saved then saved[i] else before[i])
  }

  /** Row `i`, read as `seen` and since then `found`, has been dealt with: it is written only if it changes. */
  predicate RowDone(seen: Stored, found: Stored, row: Stored, upgradeLegacy: bool, current: Option<Kek>,
                    available: seq<Option<Kek>>, r: nat) {
    var next := RowAfter(seen, upgradeLegacy, current, available, r);
    next.Success? && row == if next.value == seen then found else next.value
  }

  /** The first `n` rows are dealt with, the others as they were left. */
  predicate DoneUpTo(before: seq<Stored>, saved: map<nat, Stored>, rows: seq<Stored>, n: nat, upgradeLegacy: bool,
                     current: Option<Kek>, available: seq<Option<Kek>>, random: seq<nat>) {
    && |rows| == |before| <= |random| && n <= |rows| && rows[n..] == SavedOver(before, saved)[n..]
    && forall i :: 0 <= i < n ==>
                     RowDone(before[i], SavedOver(before, saved)[i], rows[i], upgradeLegacy, current, available,
                             random[i])
  }

  /** How many of the first `n` rows a run writes back. */
  function Written(before: seq<Stored>, n: nat, upgradeLegacy: bool, current: Option<Kek>,
                   available: seq<Option<Kek>>, random: seq<nat>): nat
    requires n <= |before| <= |random|
  {
    if n == 0 then 0
    else
      var seen := before[n - 1];
      var next := RowAfter(seen, upgradeLegacy, current, available, random[n - 1]);
      Written(before, n - 1, upgradeLegacy, current, available, random)
      + if next.Success? && next.value != seen then 1 else 0
  }

  /** What a run that ended with `r` has made of the table. */
  ghost predicate Ended(before: seq<Stored>, saved: map<nat, Stored>, rows: seq<Stored>, upgradeLegacy: bool,
                        current: Option<Kek>, available: seq<Option<Kek>>, random: seq<nat>, r: Result<nat, Error>) {
    match r
    case Success(count) =>
      && DoneUpTo(before, saved, rows, |before|, upgradeLegacy, current, available, random)
      && count == Written(before, |before|, upgradeLegacy, current, available, random)
    case Failure(e) =>
      exists n: nat :: StoppedAt(before, saved, rows, n, upgradeLegacy, current, available, random, e)
  }

  ghost predicate StoppedAt(before: seq<Stored>, saved: map<nat, Stored>, rows: seq<Stored>, n: nat,
                            upgradeLegacy: bool, current: Option<Kek>, available: seq<Option<Kek>>,
                            random: seq<nat>, e: Error) {
    && DoneUpTo(before, saved, rows, n, upgradeLegacy, current, available, random) && n < |before|
    && RowAfter(before[n], upgradeLegacy, current, available, random[n]) == Failure(e)
  }

  class ProviderTable {
    var rows: seq<Stored>

    constructor (rows: seq<Stored>)
      ensures this.rows == rows
    {
      this.rows := rows;
    }

    /** The credentials that others save while a run is at work. */
    method SaveAll(saved: map<nat, Stored>)
      modifies this
      ensures rows == SavedOver(old(rows), saved)
    {
      rows := SavedOver(rows, saved);
    }

    /**
     * Rotate every row, as read at the start; the first row that cannot be re-wrapped stops the run. `saved` is what
     * is saved to rows before their turn, `random` feeds the cipher.
     */
    method RewrapAll(upgradeLegacy: bool, current: Option<Kek>, available: seq<Option<Kek>>, random: seq<nat>,
                     saved: map<nat, Stored>)
        returns (r: Result<nat, Error>)
      requires |random| >= |rows|
      modifies this
      ensures Ended(old(rows), saved, rows, upgradeLegacy, current, available, random, r)
    {
      var seen := rows;
      SaveAll(saved);
      var rewrapped := 0;
      for i := 0 to |seen|
        invariant DoneUpTo(seen, saved, rows, i, upgradeLegacy, current, available, random)
        invariant rewrapped == Written(seen, i, upgradeLegacy, current, available, random)
      {
        var row := seen[i];
        assert rows[i] == rows[i..][0] == SavedOver(seen, saved)[i];
        if !row.Sealed? && !row.Malformed? && !upgradeLegacy {
          continue;
        }
        var next := RewrapCredentials(row, current, available, random[i], random[i], random[i]);
        if next.Failure? {
          assert StoppedAt(seen, saved, rows, i, upgradeLegacy, current, available, random, next.error);
          return Failure(next.error);
        }
        if next.value == row {
          continue;
        }
        rows := rows[i := next.value];
        rewrapped := rewrapped + 1;
      }
      r := Success(rewrapped);
    }
  }

  lemma RowKept(row: Stored, upgradeLegacy: bool, current: Kek, available: seq<Option<Kek>>, r: nat, next: Stored)
    requires IdsTellApart(available) && Some(current) in available && OpenCredentials(row, available).Success?
    requires RowAfter(row, upgradeLegacy, Some(current), available, r) == Success(next)
    ensures OpenCredentials(next, available) == OpenCredentials(row, available)
    ensures OpenCredentials(next, [Some(current)]) == OpenCredentials(row, available)
  {
    if row.Sealed? || upgradeLegacy {
      RewrapKeepsPlaintext(row, current, available, r, r, r);
    }
  }

  /** How far the run got. */
  lemma Reach(before: seq<Stored>, saved: map<nat, Stored>, rows: seq<Stored>, upgradeLegacy: bool,
              current: Option<Kek>, available: seq<Option<Kek>>, random: seq<nat>, r: Result<nat, Error>)
      returns (n: nat)
    requires Ended(before, saved, rows, upgradeLegacy, current, available, random, r)
    ensures DoneUpTo(before, saved, rows, n, upgradeLegacy, current, available, random)
    ensures if r.Success? then n == |before|
            else n < |before| && RowAfter(before[n], upgradeLegacy, current, available, random[n]) == Failure(r.error)
    ensures forall i :: n <= i < |before| ==> rows[i] == SavedOver(before, saved)[i]
  {
    n := |before|;
    if r.Failure? {
      n :| StoppedAt(before, saved, rows, n, upgradeLegacy, current, available, random, r.error);
    }
    forall i | n <= i < |before|
      ensures rows[i] == SavedOver(before, saved)[i]
    {
      assert rows[i] == rows[n..][i - n] == SavedOver(before, saved)[n..][i - n];
    }
  }

  /** A credential saved to a row between the run's read and its write: the write puts the old one back. */
  predicate Overwritten(before: seq<Stored>, saved: map<nat, Stored>, n: nat, upgradeLegacy: bool, current: Kek, i: nat)
  {
    i < n && i < |before| && i in saved && Outdated(before[i], upgradeLegacy, current)
  }

  /** However far a run got, row by row: a row opens as it was left, or as it was read where the run wrote it. */
  lemma RowOpens(before: seq<Stored>, saved: map<nat, Stored>, rows: seq<Stored>, n: nat, upgradeLegacy: bool,
                 current: Kek, available: seq<Option<Kek>>, random: seq<nat>, i: nat)
    requires IdsTellApart(available) && Some(current) in available
    requires DoneUpTo(before, saved, rows, n, upgradeLegacy, Some(current), available, random)
    requires i < n && OpenCredentials(before[i], available).Success?
    ensures var source := if Overwritten(before, saved, n, upgradeLegacy, current, i) then before[i]
                          else SavedOver(before, saved)[i];
            OpenCredentials(rows[i], available) == OpenCredentials(source, available)
  {
    var next := RowAfter(before[i], upgradeLegacy, Some(current), available, random[i]);
    OutdatedIsWritten(before[i], upgradeLegacy, current, available, random[i]);
    RowKept(before[i], upgradeLegacy, current, available, random[i], next.value);
    assert RowDone(before[i], SavedOver(before, saved)[i], rows[i], upgradeLegacy, Some(current), available, random[i]);
  }

  /**
   * After a run, finished or stopped, a row opens to the credential that was last saved to it, exactly unless a
   * different one was saved between the run's read and its write.
   */
  lemma CredentialLostIff(before: seq<Stored>, saved: map<nat, Stored>, rows: seq<Stored>, upgradeLegacy: bool,
                          current: Kek, available: seq<Option<Kek>>, random: seq<nat>, r: Result<nat, Error>, i: nat)
      returns (n: nat)
    requires IdsTellApart(available) && Some(current) in available
    requires Ended(before, saved, rows, upgradeLegacy, Some(current), available, random, r)
    requires i < |before| && OpenCredentials(before[i], available).Success?
    ensures n <= |before| == |rows| && (r.Success? ==> n == |before|)
    ensures var latest := SavedOver(before, saved)[i];
            OpenCredentials(rows[i], available) == OpenCredentials(latest, available)
            <==> !Overwritten(before, saved, n, upgradeLegacy, current, i)
                 || OpenCredentials(saved[i], available) == OpenCredentials(before[i], available)
  {
    n := Reach(before, saved, rows, upgradeLegacy, Some(current), available, random, r);
    if i < n {
      RowOpens(before, saved, rows, n, upgradeLegacy, current, available, random, i);
    }
  }

  /** So a run during which nothing is saved loses nothing, however far it got. */
  lemma NoCredentialLost(before: seq<Stored>, rows: seq<Stored>, upgradeLegacy: bool, current: Kek,
                         available: seq<Option<Kek>>, random: seq<nat>, r: Result<nat, Error>, i: nat)
    requires IdsTellApart(available) && Some(current) in available
    requires Ended(before, map[], rows, upgradeLegacy, Some(current), available, random, r)
    requires i < |before| && OpenCredentials(before[i], available).Success?
    ensures |rows| == |before| && OpenCredentials(rows[i], available) == OpenCredentials(before[i], available)
  {
    var n := CredentialLostIff(before, map[], rows, upgradeLegacy, current, available, random, r, i);
  }

  /** Once a run has finished, the previous key can go, as far as it is not needed for what was saved meanwhile. */
  lemma OldKeyCanGo(before: seq<Stored>, saved: map<nat, Stored>, rows: seq<Stored>, upgradeLegacy: bool, current: Kek,
                    available: seq<Option<Kek>>, random: seq<nat>, count: nat, i: nat)
    requires IdsTellApart(available) && Some(current) in available
    requires Ended(before, saved, rows, upgradeLegacy, Some(current), available, random, Success(count))
    requires i < |before| && OpenCredentials(before[i], available).Success?
    ensures |rows| == |before|
    ensures OpenCredentials(rows[i], [Some(current)])
         == if i in saved && !Outdated(before[i], upgradeLegacy, current)
            then OpenCredentials(saved[i], [Some(current)])
            else OpenCredentials(before[i], available)
  {
    var next := RowAfter(before[i], upgradeLegacy, Some(current), available, random[i]);
    OutdatedIsWritten(before[i], upgradeLegacy, current, available, random[i]);
    assert RowDone(before[i], SavedOver(before, saved)[i], rows[i], upgradeLegacy, Some(current), available, random[i]);
    RowKept(before[i], upgradeLegacy, current, available, random[i], next.value);
  }

  lemma RowAgain(row: Stored, upgradeLegacy: bool, current: Kek, available: seq<Option<Kek>>, r: nat, again: nat)
    ensures var next := RowAfter(row, upgradeLegacy, Some(current), available, r);
            && (next.Success? ==> RowAfter(next.value, upgradeLegacy, Some(current), available, again) == next)
            && (next.Failure? ==> RowAfter(row, upgradeLegacy, Some(current), available, again) == next)
  {
    if row.Sealed? || row.Malformed? || upgradeLegacy {
      RewrapAgain(row, current, available, r, r, r, available, again, again, again);
    }
  }

  /** What the second run meets in the table that the first one left. */
  lemma FoundAgain(before: seq<Stored>, rows: seq<Stored>, n: nat, upgradeLegacy: bool, current: Kek,
                   available: seq<Option<Kek>>, random: seq<nat>, again: seq<nat>, i: nat)
    requires DoneUpTo(before, map[], rows, n, upgradeLegacy, Some(current), available, random)
    requires i < n && |again| >= |rows|
    ensures RowAfter(rows[i], upgradeLegacy, Some(current), available, again[i]) == Success(rows[i])
  {
    assert RowDone(before[i], SavedOver(before, map[])[i], rows[i], upgradeLegacy, Some(current), available, random[i]);
    RowAgain(before[i], upgradeLegacy, current, available, random[i], again[i]);
  }

  lemma {:induction false} NothingWritten(rows: seq<Stored>, n: nat, upgradeLegacy: bool, current: Option<Kek>,
                                          available: seq<Option<Kek>>, random: seq<nat>)
    requires n <= |rows| <= |random|
    requires forall i :: 0 <= i < n ==>
               RowAfter(rows[i], upgradeLegacy, current, available, random[i]) == Success(rows[i])
    ensures Written(rows, n, upgradeLegacy, current, available, random) == 0
  {
    if n > 0 {
      NothingWritten(rows, n - 1, upgradeLegacy, current, available, random);
    }
  }

  lemma NothingMoved(rows: seq<Stored>, after: seq<Stored>, n: nat, upgradeLegacy: bool, current: Option<Kek>,
                     available: seq<Option<Kek>>, again: seq<nat>)
    requires DoneUpTo(rows, map[], after, n, upgradeLegacy, current, available, again)
    requires forall i :: 0 <= i < n ==>
               RowAfter(rows[i], upgradeLegacy, current, available, again[i]) == Success(rows[i])
    ensures after == rows
  {
    forall i | 0 <= i < |rows|
      ensures after[i] == rows[i]
    {
      if i < n {
        assert RowDone(rows[i], SavedOver(rows, map[])[i], after[i], upgradeLegacy, current, available, again[i]);
      } else {
        assert after[i] == after[n..][i - n] == SavedOver(rows, map[])[n..][i - n];
      }
    }
  }

  /** A second run changes nothing: it finds nothing to do, or stops at the row where the first one stopped. */
  lemma SecondRunIdle(before: seq<Stored>, rows: seq<Stored>, after: seq<Stored>, upgradeLegacy: bool, current: Kek,
                      available: seq<Option<Kek>>, random: seq<nat>, again: seq<nat>,
                      first: Result<nat, Error>, second: Result<nat, Error>)
    requires Ended(before, map[], rows, upgradeLegacy, Some(current), available, random, first)
    requires Ended(rows, map[], after, upgradeLegacy, Some(current), available, again, second)
    ensures after == rows && second == if first.Success? then Success(0) else first
  {
    var n := Reach(before, map[], rows, upgradeLegacy, Some(current), available, random, first);
    var m := Reach(rows, map[], after, upgradeLegacy, Some(current), available, again, second);
    forall i | 0 <= i < n
      ensures RowAfter(rows[i], upgradeLegacy, Some(current), available, again[i]) == Success(rows[i])
    {
      FoundAgain(before, rows, n, upgradeLegacy, current, available, random, again, i);
    }
    if n < |before| {
      RowAgain(before[n], upgradeLegacy, current, available, random[n], again[n]);
      assert rows[n] == before[n];
    }
    assert m == n;
    NothingMoved(rows, after, n, upgradeLegacy, Some(current), available, again);
    NothingWritten(rows, n, upgradeLegacy, Some(current), available, again);
  }
}
