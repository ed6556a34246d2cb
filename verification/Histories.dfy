/** Flags, latches and fields along a history of steps. */
module Histories {
  import opened Prelude

  /** A flag that is up at `i` and down at `j` goes down for the first time somewhere in between. */
  lemma {:induction false} GoesDown(up: seq<bool>, i: nat, j: nat) returns (k: nat)
    requires i <= j < |up| && up[i] && !up[j]
    ensures i <= k < j && up[k] && !up[k + 1] && forall m :: i <= m <= k ==> up[m]
    decreases j - i
  {
    if up[i + 1] {
      k := GoesDown(up, i + 1, j);
    } else {
      k := i;
    }
  }

  /** A flag that each step keeps up exactly unless it breaks stays up exactly when no step breaks. */
  lemma StaysUpIff(up: seq<bool>, breaks: seq<bool>, i: nat, j: nat)
    requires i <= j < |up| == |breaks| + 1 && up[i]
    requires forall k :: i <= k < j && up[k] ==> (up[k + 1] <==> !breaks[k])
    ensures (forall k :: i <= k <= j ==> up[k]) <==> forall k :: i <= k < j ==> !breaks[k]
  {
    if k :| i <= k <= j && !up[k] {
      var m := GoesDown(up, i, k);
      assert breaks[m];
    }
    if forall k :: i <= k <= j ==> up[k] {
      forall k | i <= k < j
        ensures !breaks[k]
      {
        assert up[k] && up[k + 1];
      }
    }
  }

  /** A latch is set exactly when something set it and nothing has reset it since. */
  lemma {:induction false} LatchIff(latch: seq<bool>, sets: seq<bool>, resets: seq<bool>, n: nat)
    requires n < |latch| == |sets| + 1 == |resets| + 1 && !latch[0]
    requires forall k :: 0 <= k < n ==> (latch[k + 1] <==> sets[k] || (latch[k] && !resets[k]))
    ensures latch[n] <==> exists k: nat :: LatchedSince(sets, resets, k, n)
    decreases n
  {
    if n > 0 {
      LatchIff(latch, sets, resets, n - 1);
      if sets[n - 1] {
        assert LatchedSince(sets, resets, n - 1, n);
      } else if latch[n] {
        var k: nat :| LatchedSince(sets, resets, k, n - 1);
        assert LatchedSince(sets, resets, k, n);
      } else if k: nat :| LatchedSince(sets, resets, k, n) {
        assert LatchedSince(sets, resets, k, n - 1);
      }
    }
  }

  predicate LatchedSince(sets: seq<bool>, resets: seq<bool>, k: nat, n: nat) {
    k < n <= |sets| == |resets| && sets[k] && forall j :: k < j < n ==> !resets[j]
  }

  /** Write `k` is the last of the first `n`. */
  predicate LastWrite<T>(writes: seq<Option<T>>, k: nat, n: nat) {
    k < n <= |writes| && writes[k].Some? && forall j :: k < j < n ==> writes[j].None?
  }

  /** A field holds what was last written to it. */
  lemma {:induction false} HoldsLastWrite<T(!new)>(values: seq<T>, writes: seq<Option<T>>, n: nat, v: T)
    requires n <= |writes| == |values| - 1
    requires forall k :: 0 <= k < n ==> values[k + 1] == if writes[k].Some? then writes[k].value else values[k]
    ensures values[n] == v <==>
              || (exists k: nat :: LastWrite(writes, k, n) && writes[k] == Some(v))
              || (values[0] == v && forall j :: 0 <= j < n ==> writes[j].None?)
    decreases n
  {
    if n > 0 {
      HoldsLastWrite(values, writes, n - 1, v);
      if writes[n - 1].Some? {
        assert LastWrite(writes, n - 1, n);
        forall k: nat | LastWrite(writes, k, n)
          ensures k == n - 1
        {
        }
      } else {
        forall k: nat
          ensures LastWrite(writes, k, n) <==> LastWrite(writes, k, n - 1)
        {
        }
      }
    }
  }

  lemma OneLastWrite<T>(writes: seq<Option<T>>, j: nat, k: nat, n: nat)
    requires LastWrite(writes, j, n) && LastWrite(writes, k, n)
    ensures j == k
  {
  }
}
