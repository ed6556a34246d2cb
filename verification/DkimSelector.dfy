/** Choosing the selector of the next DKIM key. */
module DkimSelector {
  import opened Prelude
  import opened Texts

  const HYPHEN: Unit := 45
  const LETTER_B: Unit := 98
  /** "rootmail" */
  const ROOTMAIL: Text := [114, 111, 111, 116, 109, 97, 105, 108]

  datatype CalendarMonth = CalendarMonth(year: nat, month: nat)

  /** A month of the calendar; years have four digits. */
  type Month = m: CalendarMonth | 1000 <= m.year <= 9999 && 1 <= m.month <= 12
    witness CalendarMonth(2000, 1)

  function StampValue(m: Month): nat {
    m.year * 100 + m.month
  }

  /** Year and two-digit month. */
  function Stamp(m: Month): Text
  {
    Decimal(m.year) + [48 + m.month / 10, 48 + m.month % 10]
  }

  predicate EndsInSixDigits(s: Text) {
    |s| >= 6 && AllDigits(s[|s| - 6..])
  }

  function DropSixDigits(s: Text): Text {
    if EndsInSixDigits(s) then s[..|s| - 6] else s
  }

  function DropHyphens(s: Text): Text {
    if s != [] && s[|s| - 1] == HYPHEN then DropHyphens(s[..|s| - 1]) else s
  }

  function Base(s: Text): Text {
    var base := DropHyphens(DropSixDigits(s));
    if base == [] then ROOTMAIL else base
  }

  function Stamped(base: Text, now: Month): Text
  {
    base + [HYPHEN] + Stamp(now)
  }

  function NextSelector(current: Text, now: Month): Text
  {
    var candidate := Stamped(Base(current), now);
    if candidate == current then candidate + [LETTER_B] else candidate
  }

  // ----- Stamps ---------------------------------------------------------------------------------

  lemma FourDigits(n: nat)
    requires 1000 <= n <= 9999
    ensures |Decimal(n)| == 4
  {
    assert |Decimal(n / 10 / 10 / 10)| == 1;
    assert |Decimal(n / 10 / 10)| == 2;
    assert |Decimal(n / 10)| == 3;
  }

  lemma {:induction false} StampDigits(m: Month)
    ensures |Stamp(m)| == 6 && AllDigits(Stamp(m)) && DecimalValue(Stamp(m)) == StampValue(m)
  {
    var s := Stamp(m);
    FourDigits(m.year);
    DecimalReadsBack(m.year);
    var t := s[..5];
    assert s[..5][..4] == Decimal(m.year);
    assert DecimalValue(t) == m.year * 10 + m.month / 10;
    assert DecimalValue(s) == DecimalValue(t) * 10 + m.month % 10;
  }

  lemma ValueUnique(a: Month, b: Month)
    requires StampValue(a) == StampValue(b)
    ensures a == b
  {
  }

  lemma StampUnique(a: Month, b: Month)
    ensures Stamp(a) == Stamp(b) <==> a == b
    ensures StampValue(a) == StampValue(b) <==> a == b
  {
    StampDigits(a);
    StampDigits(b);
    if StampValue(a) == StampValue(b) {
      ValueUnique(a, b);
    }
  }

  // ----- A run of rotations -------------------------------------------------------------------------

  predicate Clean(base: Text) {
    base != [] && base[|base| - 1] != HYPHEN
  }

  lemma {:induction false} DropHyphensClean(s: Text)
    ensures DropHyphens(s) == [] || Clean(DropHyphens(s))
    ensures DropHyphens(s) <= s && forall i :: |DropHyphens(s)| <= i < |s| ==> s[i] == HYPHEN
  {
    if s != [] && s[|s| - 1] == HYPHEN {
      DropHyphensClean(s[..|s| - 1]);
    }
  }

  lemma BaseClean(s: Text)
    ensures Clean(Base(s))
  {
    DropHyphensClean(DropSixDigits(s));
  }

  lemma StampedEnd(base: Text, d: Month)
    ensures var s := Stamped(base, d);
            |s| == |base| + 7 && EndsInSixDigits(s) && s[|s| - 6..] == Stamp(d) && s[..|s| - 6] == base + [HYPHEN]
  {
    StampDigits(d);
    var s := Stamped(base, d);
    assert s[|s| - 6..] == Stamp(d);
  }

  lemma BaseOfStamped(base: Text, d: Month)
    requires Clean(base)
    ensures Base(Stamped(base, d)) == base
  {
    StampedEnd(base, d);
    var t := base + [HYPHEN];
    assert t[..|t| - 1] == base;
    assert DropHyphens(t) == DropHyphens(base) == base;
  }

  lemma NextOfStamped(base: Text, d: Month, now: Month)
    requires Clean(base)
    ensures NextSelector(Stamped(base, d), now)
         == if d == now then Stamped(base, d) + [LETTER_B] else Stamped(base, now)
  {
    BaseOfStamped(base, d);
    StampUnique(d, now);
    StampedEnd(base, d);
    StampedEnd(base, now);
  }

  lemma NextOfLettered(s: Text, now: Month)
    requires s != [] && s[|s| - 1] == LETTER_B
    ensures NextSelector(s, now) == Stamped(s, now) && Clean(s)
  {
    assert |s| >= 6 ==> s[|s| - 6..][5] == LETTER_B;
    assert !EndsInSixDigits(s);
    StampedEnd(s, now);
  }

  /** What a rotation dated `d` leaves behind. */
  predicate Generated(s: Text, base: Text, d: Month) {
    Clean(base) && (s == Stamped(base, d) || s == Stamped(base, d) + [LETTER_B])
  }

  /** Length first, then the date at the end. */
  function EndDate(s: Text): nat {
    if EndsInSixDigits(s) then DecimalValue(s[|s| - 6..]) else 0
  }

  predicate Below(a: Text, b: Text) {
    |a| < |b| || (|a| == |b| && EndDate(a) < EndDate(b))
  }

  lemma NextIsGenerated(s: Text, now: Month) returns (base: Text)
    ensures Generated(NextSelector(s, now), base, now)
  {
    BaseClean(s);
    base := Base(s);
  }

  /** Each rotation makes the selector longer, or keeps its length and advances its date. */
  lemma NextGrows(s: Text, base: Text, d: Month, now: Month)
    requires Generated(s, base, d) && StampValue(d) <= StampValue(now)
    ensures Below(s, NextSelector(s, now))
  {
    StampDigits(d);
    StampDigits(now);
    StampUnique(d, now);
    StampedEnd(base, d);
    StampedEnd(base, now);
    if s == Stamped(base, d) {
      NextOfStamped(base, d, now);
    } else {
      NextOfLettered(s, now);
      StampedEnd(s, now);
    }
  }

  /** Each element follows from the one before it and a date. */
  function Iterates(next: (Text, Month) -> Text, initial: Text, dates: seq<Month>): (r: seq<Text>)
    ensures |r| == |dates| + 1
  {
    if dates == [] then [initial]
    else
      var before := Iterates(next, initial, dates[..|dates| - 1]);
      before + [next(before[|dates| - 1], dates[|dates| - 1])]
  }

  lemma {:induction false} IteratesStep(next: (Text, Month) -> Text, initial: Text, dates: seq<Month>, k: nat)
    requires k < |dates|
    ensures Iterates(next, initial, dates)[k + 1] == next(Iterates(next, initial, dates)[k], dates[k])
    ensures Iterates(next, initial, dates)[0] == initial
    decreases |dates|
  {
    var front := dates[..|dates| - 1];
    if k < |front| {
      IteratesStep(next, initial, front, k);
    } else if front != [] {
      IteratesStep(next, initial, front, 0);
    }
  }

  /** The selectors of a run of rotations, the first one included. */
  function Selectors(initial: Text, dates: seq<Month>): (r: seq<Text>)
    ensures |r| == |dates| + 1
  {
    Iterates(NextSelector, initial, dates)
  }

  predicate Clock(dates: seq<Month>) {
    forall i, j :: 0 <= i < j < |dates| ==> StampValue(dates[i]) <= StampValue(dates[j])
  }

  lemma SelectorsStep(initial: Text, dates: seq<Month>, k: nat)
    requires k < |dates|
    ensures Selectors(initial, dates)[k + 1] == NextSelector(Selectors(initial, dates)[k], dates[k])
    ensures Selectors(initial, dates)[0] == initial
  {
    IteratesStep(NextSelector, initial, dates, k);
  }

  lemma BelowTransitive(a: Text, b: Text, c: Text)
    requires Below(a, b) && Below(b, c)
    ensures Below(a, c)
  {
  }

  lemma StepGrows(a: Text, b: Text, c: Text, d: Month, e: Month)
    requires StampValue(d) <= StampValue(e)
    requires b == NextSelector(a, d) && c == NextSelector(b, e)
    ensures Below(b, c)
  {
    var base := NextIsGenerated(a, d);
    NextGrows(b, base, d, e);
  }

  lemma {:induction false} GrowsThroughout(all: seq<Text>, i: nat, j: nat)
    requires 0 < i < j < |all| && forall k :: 2 <= k < |all| ==> Below(all[k - 1], all[k])
    ensures Below(all[i], all[j])
    decreases j
  {
    if i < j - 1 {
      GrowsThroughout(all, i, j - 1);
      BelowTransitive(all[i], all[j - 1], all[j]);
    }
  }

  ghost predicate IsChain(all: seq<Text>, dates: seq<Month>) {
    && Clock(dates) && |all| == |dates| + 1
    && forall k :: 0 <= k < |dates| ==> all[k + 1] == NextSelector(all[k], dates[k])
  }

  lemma SelectorsChain(initial: Text, dates: seq<Month>)
    requires Clock(dates)
    ensures IsChain(Selectors(initial, dates), dates)
  {
    forall k | 0 <= k < |dates|
      ensures Selectors(initial, dates)[k + 1] == NextSelector(Selectors(initial, dates)[k], dates[k])
    {
      SelectorsStep(initial, dates, k);
    }
  }

  lemma ChainGrows(all: seq<Text>, dates: seq<Month>, i: nat, j: nat)
    requires IsChain(all, dates) && 0 < i < j < |all|
    ensures Below(all[i], all[j])
  {
    forall k | 2 <= k < |all|
      ensures Below(all[k - 1], all[k])
    {
      assert all[k - 2 + 1] == NextSelector(all[k - 2], dates[k - 2]);
      StepGrows(all[k - 2], all[k - 1], all[k], dates[k - 2], dates[k - 1]);
    }
    GrowsThroughout(all, i, j);
  }

  /** Along a run the generated selectors only grow, so no two of them are equal. */
  lemma SelectorsGrow(initial: Text, dates: seq<Month>, i: nat, j: nat)
    requires Clock(dates) && 0 < i < j <= |dates|
    ensures Below(Selectors(initial, dates)[i], Selectors(initial, dates)[j])
  {
    SelectorsChain(initial, dates);
    ChainGrows(Selectors(initial, dates), dates, i, j);
  }

  // ----- The selector a run starts from ----------------------------------------------------------------

  /** The selector is its base, a hyphen and the stamp of month `d`. */
  predicate IsStampedWith(s: Text, d: Month) {
    s == Stamped(Base(s), d)
  }

  /** Where a run stands: the first base, a date, and a rest that starts with the letter. */
  ghost predicate Continues(s: Text, base: Text, d: Month, more: Text, last: Month) {
    && s == Stamped(base, d) + more && s != []
    && (more == [] ==> d == last)
    && (more != [] ==> more[0] == LETTER_B && exists b, m :: Generated(s, b, m))
  }

  lemma ContinuesFromStamp(s: Text, base: Text, d: Month, now: Month) returns (e: Month, rest: Text)
    requires Clean(base) && s == Stamped(base, d)
    ensures Continues(NextSelector(s, now), base, e, rest, now)
  {
    var b0 := NextIsGenerated(s, now);
    NextOfStamped(base, d, now);
    if d == now {
      e, rest := d, [LETTER_B];
    } else {
      e, rest := now, [];
      StampedEnd(base, now);
      assert Stamped(base, now) + [] == Stamped(base, now);
    }
  }

  lemma RegroupStamp(p: Text, more: Text, stamp: Text)
    ensures p + more + [HYPHEN] + stamp == p + (more + ([HYPHEN] + stamp))
  {
  }

  lemma ContinuesFromRest(s: Text, base: Text, d: Month, more: Text, b: Text, m: Month, now: Month)
      returns (rest: Text)
    requires s == Stamped(base, d) + more && more != [] && more[0] == LETTER_B
    requires Generated(s, b, m)
    ensures NextSelector(s, now) == Stamped(base, d) + rest && rest != [] && rest[0] == LETTER_B
  {
    if s == Stamped(b, m) {
      NextOfStamped(b, m, now);
      rest := RestOfStamped(s, base, d, more, b, m, now);
    } else {
      NextOfLettered(s, now);
      rest := more + ([HYPHEN] + Stamp(now));
      RegroupStamp(Stamped(base, d), more, Stamp(now));
    }
  }

  lemma ContinuesOn(s: Text, base: Text, d: Month, more: Text, last: Month, now: Month) returns (e: Month, rest: Text)
    requires Clean(base) && Continues(s, base, d, more, last)
    ensures Continues(NextSelector(s, now), base, e, rest, now) && (more != [] ==> rest != [])
  {
    if more == [] {
      assert s == Stamped(base, d);
      e, rest := ContinuesFromStamp(s, base, d, now);
    } else {
      var b, m :| Generated(s, b, m);
      e := d;
      rest := ContinuesFromRest(s, base, d, more, b, m, now);
      var b0 := NextIsGenerated(s, now);
    }
  }

  /** The date at the end of a longer selector lies in its rest. */
  lemma RestOfStamped(s: Text, base: Text, d: Month, more: Text, b: Text, m: Month, now: Month) returns (rest: Text)
    requires more != [] && more[0] == LETTER_B
    requires s == Stamped(base, d) + more && s == Stamped(b, m)
    ensures rest != [] && rest[0] == LETTER_B
    ensures (if m == now then s + [LETTER_B] else Stamped(b, now)) == Stamped(base, d) + rest
  {
    var p := Stamped(base, d);
    if m == now {
      rest := more + [LETTER_B];
      assert s + [LETTER_B] == p + rest;
    } else {
      StampedEnd(b, m);
      StampedEnd(b, now);
      StampedEnd(base, d);
      forall i | |s| - 6 <= i < |s|
        ensures IsDigit(s[i])
      {
        assert s[|s| - 6..][i - (|s| - 6)] == s[i];
      }
      assert s[|p|] == LETTER_B;
      assert s[|s| - 7] == HYPHEN;
      var q := Stamped(b, now);
      assert q[..|q| - 6] == s[..|s| - 6];
      assert |p| < |s| - 6;
      rest := q[|p|..];
      assert q[..|p|] == s[..|p|] == p;
      assert q == p + rest;
      assert rest[0] == q[|p|] == s[|p|];
    }
  }

  lemma FirstContinues(initial: Text, now: Month) returns (more: Text)
    ensures Continues(NextSelector(initial, now), Base(initial), now, more, now)
    ensures IsStampedWith(initial, now) ==> more != []
  {
    var s, base := NextSelector(initial, now), Base(initial);
    BaseClean(initial);
    assert Generated(s, base, now);
    if s == Stamped(base, now) {
      more := [];
      assert s == Stamped(base, now) + [];
      StampedEnd(base, now);
    } else {
      more := [LETTER_B];
    }
  }

  lemma {:induction false} ContinuesAt(initial: Text, dates: seq<Month>, k: nat) returns (d: Month, more: Text)
    requires Clock(dates) && 0 < k <= |dates|
    ensures Continues(Selectors(initial, dates)[k], Base(initial), d, more, dates[k - 1])
    ensures IsStampedWith(initial, dates[0]) ==> more != []
    decreases k
  {
    SelectorsStep(initial, dates, k - 1);
    if k == 1 {
      d := dates[0];
      more := FirstContinues(initial, d);
    } else {
      var e, rest := ContinuesAt(initial, dates, k - 1);
      BaseClean(initial);
      d, more := ContinuesOn(Selectors(initial, dates)[k - 1], Base(initial), e, rest, dates[k - 2], dates[k - 1]);
    }
  }

  /** After its base a selector goes on with a hyphen and a digit only where six digits end it. */
  lemma BaseThenStamp(s: Text)
    ensures var base := Base(s);
            base <= s && |s| > |base| + 1 && s[|base|] == HYPHEN && IsDigit(s[|base| + 1]) ==> |s| <= |base| + 7
  {
    var base, cut := Base(s), DropSixDigits(s);
    DropHyphensClean(cut);
    assert DropHyphens(cut) == [] && cut != [] ==> s[0] == HYPHEN;
    assert cut == [] && EndsInSixDigits(s) ==> IsDigit(s[|s| - 6..][0]) && s[|s| - 6..][0] == s[0];
    assert DropHyphens(cut) == [] && s != [] ==> s[0] != ROOTMAIL[0];
    assert DropHyphens(cut) != [] && |base| + 1 < |cut| ==> cut[|base| + 1] == HYPHEN && s[|base| + 1] == HYPHEN;
  }

  /** Nothing that goes on after a stamp can be the selector whose base it started from. */
  lemma NoLongerReturn(initial: Text, d: Month, more: Text)
    requires more != []
    ensures initial != Stamped(Base(initial), d) + more
  {
    var base := Base(initial);
    var s := Stamped(base, d) + more;
    BaseThenStamp(initial);
    StampDigits(d);
    assert base <= s && s[|base|] == HYPHEN && s[|base| + 1] == Stamp(d)[0] && |s| > |base| + 7;
  }

  /** A run comes back to where it started only when that was the stamp of a month still to come. */
  lemma ReturnsOnlyToFutureStamp(initial: Text, dates: seq<Month>, k: nat)
    requires Clock(dates) && 0 < k <= |dates| && Selectors(initial, dates)[k] == initial
    ensures k > 1 && ReturnsIn(initial, dates[0], dates[k - 1])
  {
    var d, more := ContinuesAt(initial, dates, k);
    if more == [] {
      assert Stamped(Base(initial), d) + more == Stamped(Base(initial), d);
      StampUnique(dates[0], dates[k - 1]);
    } else {
      NoLongerReturn(initial, d, more);
    }
  }

  /** A rotation in month `d` would bring `initial` back, after a first rotation in month `first`. */
  predicate ReturnsIn(initial: Text, first: Month, d: Month) {
    IsStampedWith(initial, d) && StampValue(first) < StampValue(d)
  }

  ghost predicate AllDistinct(s: seq<Text>) {
    forall i, j :: 0 <= i < j < |s| ==> s[i] != s[j]
  }

  /** No selector is ever reused, unless the first one carries the stamp of a later rotation's month. */
  lemma SelectorsDistinct(initial: Text, dates: seq<Month>)
    requires Clock(dates)
    requires forall k :: 0 < k < |dates| ==> !ReturnsIn(initial, dates[0], dates[k])
    ensures AllDistinct(Selectors(initial, dates))
  {
    var all := Selectors(initial, dates);
    forall i, j | 0 <= i < j < |all|
      ensures all[i] != all[j]
    {
      if i == 0 {
        SelectorsStep(initial, dates, 0);
        if all[j] == initial {
          ReturnsOnlyToFutureStamp(initial, dates, j);
        }
      } else {
        SelectorsGrow(initial, dates, i, j);
      }
    }
  }

  /** Such a first selector is reused by a rotation in its own month. */
  lemma FutureStampIsReused(initial: Text, first: Month, d: Month)
    requires ReturnsIn(initial, first, d)
    ensures Clock([first, d]) && Selectors(initial, [first, d])[2] == initial
  {
    var dates := [first, d];
    var base := Base(initial);
    BaseClean(initial);
    SelectorsStep(initial, dates, 0);
    SelectorsStep(initial, dates, 1);
    NextOfStamped(base, d, first);
    NextOfStamped(base, first, d);
  }

  /** Exactly when some run of rotations starting in month `first` uses a selector twice. */
  lemma ReuseIff(initial: Text, first: Month)
    ensures (exists dates :: Clock(dates) && dates != [] && dates[0] == first
                               && !AllDistinct(Selectors(initial, dates)))
            <==> exists d :: ReturnsIn(initial, first, d)
  {
    if d :| ReturnsIn(initial, first, d) {
      FutureStampIsReused(initial, first, d);
      SelectorsStep(initial, [first, d], 0);
      assert !AllDistinct(Selectors(initial, [first, d]));
      assert [first, d] != [] && [first, d][0] == first;
    }
    if dates :| Clock(dates) && dates != [] && dates[0] == first && !AllDistinct(Selectors(initial, dates)) {
      if forall k :: 0 < k < |dates| ==> !ReturnsIn(initial, dates[0], dates[k]) {
        SelectorsDistinct(initial, dates);
      }
    }
  }

  /** A selector that does not end in six digits never comes back. */
  lemma PlainStartDistinct(initial: Text, dates: seq<Month>)
    requires Clock(dates) && !EndsInSixDigits(initial)
    ensures AllDistinct(Selectors(initial, dates))
  {
    forall k | 0 < k < |dates|
      ensures !ReturnsIn(initial, dates[0], dates[k])
    {
      StampedEnd(Base(initial), dates[k]);
    }
    SelectorsDistinct(initial, dates);
  }
}
