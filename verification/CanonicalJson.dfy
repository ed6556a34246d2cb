/** The signed form of a proof bundle: JSON with its keys sorted, at any nesting. */
module CanonicalJson {
  import opened Prelude
  import opened Texts

  /**
   * A JSON value as it is held in memory. An object's members stand in enumeration order.
   * A number is the text it prints as.
   */
  datatype Json =
    | Null
    | Bool(b: bool)
    | Num(token: Text)
    | Str(text: Text)
    | Arr(items: seq<Json>)
    | Obj(members: seq<Member>)

  datatype Member = Member(key: Text, value: Json)

  // The characters " [ ] { } , : \ and the words of the grammar.
  const QUOTE: Unit := 34
  const COMMA: Unit := 44
  const COLON: Unit := 58
  const OPEN_LIST: Unit := 91
  const BACKSLASH: Unit := 92
  const CLOSE_LIST: Unit := 93
  const OPEN_OBJECT: Unit := 123
  const CLOSE_OBJECT: Unit := 125
  const NULL: Text := [110, 117, 108, 108]
  const TRUE: Text := [116, 114, 117, 101]
  const FALSE: Text := [102, 97, 108, 115, 101]

  /** The key whose assignment sets a prototype instead of a property. */
  const PROTO: Text := [95, 95, 112, 114, 111, 116, 111, 95, 95]

  predicate IsNumberChar(c: Unit) {
    IsDigit(c) || c == 43 || c == 45 || c == 46 || c == 69 || c == 101
  }

  predicate IsNumber(t: Text) {
    |t| > 0 && (IsDigit(t[0]) || t[0] == 45) && forall i :: 0 <= i < |t| ==> IsNumberChar(t[i])
  }

  predicate DistinctKeys(ms: seq<Member>) {
    forall i, j :: 0 <= i < j < |ms| ==> ms[i].key != ms[j].key
  }

  /** What a value in memory looks like: well-formed numbers and no key twice in one object. */
  predicate Valid(v: Json) {
    match v
    case Num(t) => IsNumber(t)
    case Arr(xs) => forall i :: 0 <= i < |xs| ==> Valid(xs[i])
    case Obj(ms) => DistinctKeys(ms) && ValidMembers(ms)
    case _ => true
  }

  predicate ValidMembers(ms: seq<Member>) {
    forall i :: 0 <= i < |ms| ==> Valid(ms[i].value)
  }

  // ----- Orders on keys -----------------------------------------------------------------------

  /** The order of the default sort: by code units. */
  predicate Before(a: Text, b: Text) {
    if b == [] then false
    else if a == [] then true
    else a[0] < b[0] || (a[0] == b[0] && Before(a[1..], b[1..]))
  }

  predicate IsDecimal(t: Text) {
    && |t| > 0
    && AllDigits(t)
    && (t[0] == 48 ==> |t| == 1)
  }

  /** Array-index keys: objects enumerate these first, by value. */
  predicate IsIndex(t: Text) {
    IsDecimal(t) && DecimalValue(t) < 0xFFFF_FFFF
  }

  /** The order in which an object rebuilt from sorted keys enumerates them. */
  predicate KeyLess(a: Text, b: Text) {
    if IsIndex(a) && IsIndex(b) then DecimalValue(a) < DecimalValue(b)
    else if IsIndex(a) || IsIndex(b) then IsIndex(a)
    else Before(a, b)
  }

  lemma {:induction false} BeforeTotal(a: Text, b: Text)
    ensures a == b || Before(a, b) || Before(b, a)
    ensures !(Before(a, b) && Before(b, a))
    ensures !Before(a, a)
  {
    if a != [] {
      BeforeTotal(a[1..], if b == [] then [] else b[1..]);
      if b != [] && a[0] == b[0] && a[1..] == b[1..] {
        assert a == [a[0]] + a[1..] && b == [b[0]] + b[1..];
      }
    }
  }

  lemma {:induction false} BeforeTransitive(a: Text, b: Text, c: Text)
    requires Before(a, b) && Before(b, c)
    ensures Before(a, c)
  {
    if a != [] && a[0] == b[0] == c[0] {
      BeforeTransitive(a[1..], b[1..], c[1..]);
    }
  }

  lemma {:induction false} DecimalPositive(t: Text)
    requires IsDecimal(t) && t[0] != 48
    ensures DecimalValue(t) > 0
  {
    if |t| > 1 {
      DecimalPositive(t[..|t| - 1]);
    }
  }

  lemma {:induction false} DecimalInjective(a: Text, b: Text)
    requires IsDecimal(a) && IsDecimal(b) && DecimalValue(a) == DecimalValue(b)
    ensures a == b
    decreases |a|
  {
    var x, y := a[..|a| - 1], b[..|b| - 1];
    var p, q := DecimalValue(x), DecimalValue(y);
    assert p * 10 + (a[|a| - 1] - 48) == q * 10 + (b[|b| - 1] - 48);
    assert p == q && a[|a| - 1] == b[|b| - 1];
    if |a| > 1 {
      DecimalPositive(x);
    }
    if |b| > 1 {
      DecimalPositive(y);
    }
    if |a| > 1 && |b| > 1 {
      DecimalInjective(x, y);
    }
    assert a == x + [a[|a| - 1]] && b == y + [b[|b| - 1]];
  }

  lemma KeyLessTotal(a: Text, b: Text)
    ensures a == b || KeyLess(a, b) || KeyLess(b, a)
    ensures !(KeyLess(a, b) && KeyLess(b, a))
    ensures !KeyLess(a, a)
  {
    BeforeTotal(a, b);
    if IsIndex(a) && IsIndex(b) && DecimalValue(a) == DecimalValue(b) {
      DecimalInjective(a, b);
    }
  }

  lemma KeyLessTransitive(a: Text, b: Text, c: Text)
    requires KeyLess(a, b) && KeyLess(b, c)
    ensures KeyLess(a, c)
  {
    if !IsIndex(a) && !IsIndex(b) && !IsIndex(c) {
      BeforeTransitive(a, b, c);
    }
  }

  // ----- Sorting and rebuilding an object -------------------------------------------------------

  function InsertByKey(m: Member, ms: seq<Member>): seq<Member> {
    if ms == [] || Before(m.key, ms[0].key) then [m] + ms else [ms[0]] + InsertByKey(m, ms[1..])
  }

  function SortByKey(ms: seq<Member>): seq<Member> {
    if ms == [] then [] else InsertByKey(ms[0], SortByKey(ms[1..]))
  }

  /** Assigning a new property to an object. */
  function Put(acc: seq<Member>, m: Member): seq<Member> {
    if m.key == PROTO then acc
    else if !IsIndex(m.key) then acc + [m]
    else if acc == [] || !IsIndex(acc[0].key) || DecimalValue(m.key) < DecimalValue(acc[0].key) then [m] + acc
    else [acc[0]] + Put(acc[1..], m)
  }

  function Rebuild(ms: seq<Member>): seq<Member> {
    if ms == [] then [] else Put(Rebuild(ms[..|ms| - 1]), ms[|ms| - 1])
  }

  function SortKeys(v: Json): Json {
    match v
    case Arr(xs) => Arr(seq(|xs|, i requires 0 <= i < |xs| => SortKeys(xs[i])))
    case Obj(ms) => Obj(Rebuild(SortByKey(SortValues(ms))))
    case _ => v
  }

  function SortValues(ms: seq<Member>): (r: seq<Member>)
    ensures |r| == |ms|
    ensures forall i :: 0 <= i < |ms| ==> r[i] == Member(ms[i].key, SortKeys(ms[i].value))
  {
    if ms == [] then [] else [Member(ms[0].key, SortKeys(ms[0].value))] + SortValues(ms[1..])
  }

  // ----- What a value means: RFC 8259 objects are unordered -------------------------------------

  datatype Meaning =
    | Atom(v: Json)
    | List(items: seq<Meaning>)
    | Record(members: map<Text, Meaning>)

  /** `full` keeps members named `__proto__`; otherwise they are left out at every level. */
  ghost function MeaningOf(v: Json, full: bool): Meaning {
    match v
    case Arr(xs) => List(seq(|xs|, i requires 0 <= i < |xs| => MeaningOf(xs[i], full)))
    case Obj(ms) => Record(MeaningOfMembers(ms, full))
    case _ => Atom(v)
  }

  ghost function MeaningOfMembers(ms: seq<Member>, full: bool): map<Text, Meaning> {
    if ms == [] then map[]
    else
      var rest := MeaningOfMembers(ms[1..], full);
      if ms[0].key == PROTO && !full then rest else rest[ms[0].key := MeaningOf(ms[0].value, full)]
  }

  ghost predicate HasKey(ms: seq<Member>, k: Text) {
    exists i :: 0 <= i < |ms| && ms[i].key == k
  }

  lemma TailLacksKey(ms: seq<Member>, k: Text)
    requires ms != [] && !HasKey(ms, k)
    ensures ms[0].key != k && !HasKey(ms[1..], k)
  {
    forall i | 0 <= i < |ms[1..]|
      ensures ms[1..][i].key != k
    {
      assert ms[1..][i] == ms[i + 1];
    }
  }

  lemma {:induction false} MeaningKeys(ms: seq<Member>, full: bool, k: Text)
    ensures k in MeaningOfMembers(ms, full) <==> HasKey(ms, k) && (full || k != PROTO)
  {
    if ms != [] {
      MeaningKeys(ms[1..], full, k);
      if HasKey(ms[1..], k) {
        var i :| 0 <= i < |ms[1..]| && ms[1..][i].key == k;
        assert ms[i + 1].key == k;
      }
      if HasKey(ms, k) && ms[0].key != k {
        var i :| 0 <= i < |ms| && ms[i].key == k;
        assert ms[1..][i - 1].key == k;
      }
      if ms[0].key == k {
        assert HasKey(ms, k);
      }
    }
  }

  lemma {:induction false} MeaningAt(ms: seq<Member>, full: bool, i: nat)
    requires DistinctKeys(ms) && i < |ms| && (full || ms[i].key != PROTO)
    ensures ms[i].key in MeaningOfMembers(ms, full)
    ensures MeaningOfMembers(ms, full)[ms[i].key] == MeaningOf(ms[i].value, full)
  {
    if i > 0 {
      assert ms[1..][i - 1] == ms[i];
      MeaningAt(ms[1..], full, i - 1);
    }
  }

  /** Member lists with the same keys in the same places and equal meanings mean the same. */
  lemma {:induction false} SameMeanings(xs: seq<Member>, ys: seq<Member>, full: bool)
    requires |xs| == |ys|
    requires forall i :: 0 <= i < |xs| ==>
               xs[i].key == ys[i].key && MeaningOf(xs[i].value, full) == MeaningOf(ys[i].value, full)
    ensures MeaningOfMembers(xs, full) == MeaningOfMembers(ys, full)
  {
    if xs != [] {
      SameMeanings(xs[1..], ys[1..], full);
    }
  }

  // ----- Sorting keeps the members ------------------------------------------------------------

  ghost function With(m: map<Text, Meaning>, x: Member, full: bool): map<Text, Meaning> {
    if x.key == PROTO && !full then m else m[x.key := MeaningOf(x.value, full)]
  }

  function InsertAt(ms: seq<Member>, p: nat, m: Member): seq<Member>
    requires p <= |ms|
  {
    ms[..p] + [m] + ms[p..]
  }

  lemma WithCommutes(m: map<Text, Meaning>, x: Member, y: Member, full: bool)
    requires x.key != y.key
    ensures With(With(m, y, full), x, full) == With(With(m, x, full), y, full)
  {
  }

  lemma {:induction false} InsertAtMeaning(ms: seq<Member>, p: nat, m: Member, full: bool)
    requires p <= |ms| && !HasKey(ms, m.key)
    ensures MeaningOfMembers(InsertAt(ms, p, m), full) == With(MeaningOfMembers(ms, full), m, full)
  {
    var all := InsertAt(ms, p, m);
    if p == 0 {
      assert all[0] == m && all[1..] == ms;
    } else {
      TailLacksKey(ms, m.key);
      InsertAtMeaning(ms[1..], p - 1, m, full);
      assert all[0] == ms[0] && all[1..] == InsertAt(ms[1..], p - 1, m);
      WithCommutes(MeaningOfMembers(ms[1..], full), ms[0], m, full);
      assert MeaningOfMembers(all, full) == With(MeaningOfMembers(all[1..], full), ms[0], full);
      assert MeaningOfMembers(ms, full) == With(MeaningOfMembers(ms[1..], full), ms[0], full);
    }
  }

  lemma InsertAtKeys(ms: seq<Member>, p: nat, m: Member)
    requires p <= |ms|
    ensures multiset(InsertAt(ms, p, m)) == multiset(ms) + multiset{m}
  {
    assert ms == ms[..p] + ms[p..];
  }

  lemma InsertAtTail(ms: seq<Member>, q: nat, m: Member)
    requires q < |ms|
    ensures [ms[0]] + InsertAt(ms[1..], q, m) == InsertAt(ms, q + 1, m)
  {
    assert ms[..q + 1] == [ms[0]] + ms[1..][..q];
  }

  lemma {:induction false} InsertByKeyAt(m: Member, ms: seq<Member>) returns (p: nat)
    ensures p <= |ms| && InsertByKey(m, ms) == InsertAt(ms, p, m)
  {
    if ms == [] || Before(m.key, ms[0].key) {
      p := 0;
    } else {
      var q := InsertByKeyAt(m, ms[1..]);
      p := q + 1;
      InsertAtTail(ms, q, m);
    }
  }

  lemma {:induction false} PutAt(acc: seq<Member>, m: Member) returns (p: nat)
    requires m.key != PROTO
    ensures p <= |acc| && Put(acc, m) == InsertAt(acc, p, m)
  {
    if !IsIndex(m.key) {
      p := |acc|;
    } else if acc == [] || !IsIndex(acc[0].key) || DecimalValue(m.key) < DecimalValue(acc[0].key) {
      p := 0;
    } else {
      var q := PutAt(acc[1..], m);
      p := q + 1;
      InsertAtTail(acc, q, m);
    }
  }

  lemma InsertKeys(m: Member, ms: seq<Member>)
    ensures multiset(InsertByKey(m, ms)) == multiset(ms) + multiset{m}
  {
    var p := InsertByKeyAt(m, ms);
    InsertAtKeys(ms, p, m);
  }

  lemma {:induction false} SortPermutes(ms: seq<Member>)
    ensures multiset(SortByKey(ms)) == multiset(ms)
  {
    if ms != [] {
      SortPermutes(ms[1..]);
      InsertKeys(ms[0], SortByKey(ms[1..]));
      assert ms == [ms[0]] + ms[1..];
    }
  }

  lemma SameElements(xs: seq<Member>, ys: seq<Member>, k: Text)
    requires multiset(xs) == multiset(ys)
    ensures HasKey(xs, k) <==> HasKey(ys, k)
  {
    if HasKey(xs, k) {
      var i :| 0 <= i < |xs| && xs[i].key == k;
      assert xs[i] in multiset(ys);
    }
    if HasKey(ys, k) {
      var i :| 0 <= i < |ys| && ys[i].key == k;
      assert ys[i] in multiset(xs);
    }
  }

  lemma HeadNotRepeated(ms: seq<Member>)
    requires ms != [] && DistinctKeys(ms)
    ensures !HasKey(ms[1..], ms[0].key) && DistinctKeys(ms[1..])
  {
    forall i | 0 <= i < |ms[1..]|
      ensures ms[1..][i].key != ms[0].key
    {
      assert ms[1..][i] == ms[i + 1];
    }
  }

  lemma {:induction false} SortMeaning(ms: seq<Member>, full: bool)
    requires DistinctKeys(ms)
    ensures MeaningOfMembers(SortByKey(ms), full) == MeaningOfMembers(ms, full)
  {
    if ms != [] {
      HeadNotRepeated(ms);
      SortMeaning(ms[1..], full);
      SortPermutes(ms[1..]);
      SameElements(SortByKey(ms[1..]), ms[1..], ms[0].key);
      var p := InsertByKeyAt(ms[0], SortByKey(ms[1..]));
      InsertAtMeaning(SortByKey(ms[1..]), p, ms[0], full);
    }
  }

  ghost predicate TextOrdered(ms: seq<Member>) {
    forall i, j :: 0 <= i < j < |ms| ==> Before(ms[i].key, ms[j].key)
  }

  lemma {:induction false} InsertOrdered(m: Member, ms: seq<Member>)
    requires TextOrdered(ms) && !HasKey(ms, m.key)
    ensures TextOrdered(InsertByKey(m, ms))
  {
    if ms == [] {
    } else if Before(m.key, ms[0].key) {
      forall j | 0 < j < |ms|
        ensures Before(m.key, ms[j].key)
      {
        BeforeTransitive(m.key, ms[0].key, ms[j].key);
      }
    } else {
      BeforeTotal(m.key, ms[0].key);
      TailLacksKey(ms, m.key);
      var rest := InsertByKey(m, ms[1..]);
      InsertOrdered(m, ms[1..]);
      InsertKeys(m, ms[1..]);
      forall j | 0 <= j < |rest|
        ensures Before(ms[0].key, rest[j].key)
      {
        assert rest[j] in multiset(rest);
        if rest[j] != m {
          assert rest[j] in ms[1..];
        }
      }
    }
  }

  lemma {:induction false} SortOrdered(ms: seq<Member>)
    requires DistinctKeys(ms)
    ensures TextOrdered(SortByKey(ms))
  {
    if ms != [] {
      HeadNotRepeated(ms);
      SortOrdered(ms[1..]);
      SortPermutes(ms[1..]);
      SameElements(SortByKey(ms[1..]), ms[1..], ms[0].key);
      InsertOrdered(ms[0], SortByKey(ms[1..]));
    }
  }

  // ----- Rebuilding keeps the members except __proto__, and orders them by KeyLess ----------------

  ghost predicate Ordered(ms: seq<Member>) {
    forall i, j :: 0 <= i < j < |ms| ==> KeyLess(ms[i].key, ms[j].key)
  }

  lemma PutKeys(acc: seq<Member>, m: Member)
    requires m.key != PROTO
    ensures multiset(Put(acc, m)) == multiset(acc) + multiset{m}
  {
    var p := PutAt(acc, m);
    InsertAtKeys(acc, p, m);
  }

  lemma {:induction false} PutIndexOrdered(acc: seq<Member>, m: Member)
    requires Ordered(acc) && !HasKey(acc, m.key) && m.key != PROTO && IsIndex(m.key)
    ensures Ordered(Put(acc, m))
  {
    if acc == [] {
    } else if !IsIndex(acc[0].key) || DecimalValue(m.key) < DecimalValue(acc[0].key) {
      forall j | 0 < j < |acc|
        ensures KeyLess(m.key, acc[j].key)
      {
        KeyLessTransitive(m.key, acc[0].key, acc[j].key);
      }
    } else {
      KeyLessTotal(m.key, acc[0].key);
      TailLacksKey(acc, m.key);
      var rest := Put(acc[1..], m);
      PutIndexOrdered(acc[1..], m);
      PutKeys(acc[1..], m);
      forall j | 0 <= j < |rest|
        ensures KeyLess(acc[0].key, rest[j].key)
      {
        assert rest[j] in multiset(rest);
        if rest[j] != m {
          assert rest[j] in acc[1..];
        }
      }
    }
  }

  lemma PutOrdered(acc: seq<Member>, m: Member)
    requires Ordered(acc) && !HasKey(acc, m.key)
    requires forall i :: 0 <= i < |acc| ==> Before(acc[i].key, m.key)
    ensures Ordered(Put(acc, m))
  {
    if m.key != PROTO && IsIndex(m.key) {
      PutIndexOrdered(acc, m);
    }
  }

  ghost predicate MembersFrom(xs: seq<Member>, ms: seq<Member>) {
    forall i :: 0 <= i < |xs| ==> xs[i] in ms && xs[i].key != PROTO
  }

  lemma PutFrom(acc: seq<Member>, m: Member, front: seq<Member>)
    requires MembersFrom(acc, front)
    ensures MembersFrom(Put(acc, m), front + [m])
  {
    if m.key != PROTO {
      PutKeys(acc, m);
      var r := Put(acc, m);
      forall i | 0 <= i < |r|
        ensures r[i] in front + [m] && r[i].key != PROTO
      {
        assert r[i] in multiset(r);
        assert r[i] == m || r[i] in acc;
      }
    }
  }

  lemma LastIsLast(ms: seq<Member>, acc: seq<Member>)
    requires ms != [] && TextOrdered(ms) && MembersFrom(acc, ms[..|ms| - 1])
    ensures !HasKey(ms[..|ms| - 1], ms[|ms| - 1].key) && !HasKey(acc, ms[|ms| - 1].key)
    ensures forall i :: 0 <= i < |acc| ==> Before(acc[i].key, ms[|ms| - 1].key)
    ensures ms == ms[..|ms| - 1] + [ms[|ms| - 1]]
  {
    var front, m := ms[..|ms| - 1], ms[|ms| - 1];
    BeforeTotal(m.key, m.key);
    forall i | 0 <= i < |front|
      ensures Before(front[i].key, m.key) && front[i].key != m.key
    {
      assert front[i] == ms[i];
    }
    forall i | 0 <= i < |acc|
      ensures Before(acc[i].key, m.key) && acc[i].key != m.key
    {
      assert acc[i] in front;
    }
  }

  lemma {:induction false} RebuildOrdered(ms: seq<Member>)
    requires TextOrdered(ms)
    ensures Ordered(Rebuild(ms)) && MembersFrom(Rebuild(ms), ms)
  {
    if ms != [] {
      var front, m := ms[..|ms| - 1], ms[|ms| - 1];
      RebuildOrdered(front);
      LastIsLast(ms, Rebuild(front));
      PutOrdered(Rebuild(front), m);
      PutFrom(Rebuild(front), m, front);
      assert ms == front + [m];
    }
  }

  lemma PutKeepsMeaning(front: seq<Member>, acc: seq<Member>, m: Member)
    requires !HasKey(front, m.key) && !HasKey(acc, m.key)
    requires MeaningOfMembers(acc, false) == MeaningOfMembers(front, false)
    ensures MeaningOfMembers(Put(acc, m), false) == MeaningOfMembers(front + [m], false)
  {
    assert front + [m] == InsertAt(front, |front|, m);
    InsertAtMeaning(front, |front|, m, false);
    if m.key != PROTO {
      var p := PutAt(acc, m);
      InsertAtMeaning(acc, p, m, false);
    }
  }

  lemma {:induction false} RebuildMeaning(ms: seq<Member>)
    requires TextOrdered(ms)
    ensures MeaningOfMembers(Rebuild(ms), false) == MeaningOfMembers(ms, false)
  {
    if ms != [] {
      var front, m := ms[..|ms| - 1], ms[|ms| - 1];
      RebuildMeaning(front);
      RebuildOrdered(front);
      LastIsLast(ms, Rebuild(front));
      PutKeepsMeaning(front, Rebuild(front), m);
    }
  }

  // ----- Sorting a whole value ------------------------------------------------------------------

  /** Sorted at every level: keys strictly increasing in KeyLess, and no `__proto__`. */
  ghost predicate Canonical(v: Json) {
    match v
    case Arr(xs) => forall i :: 0 <= i < |xs| ==> Canonical(xs[i])
    case Obj(ms) => Ordered(ms) && CanonicalMembers(ms)
    case _ => true
  }

  ghost predicate CanonicalMembers(ms: seq<Member>) {
    forall i :: 0 <= i < |ms| ==> ms[i].key != PROTO && Canonical(ms[i].value)
  }

  lemma OrderedDistinct(ms: seq<Member>)
    requires Ordered(ms)
    ensures DistinctKeys(ms)
  {
    forall i, j | 0 <= i < j < |ms|
      ensures ms[i].key != ms[j].key
    {
      KeyLessTotal(ms[i].key, ms[j].key);
    }
  }

  /** Sorting yields the canonical arrangement and keeps everything a value means but `__proto__`. */
  lemma {:induction false} SortKeysCorrect(v: Json)
    requires Valid(v)
    ensures Canonical(SortKeys(v)) && Valid(SortKeys(v))
    ensures MeaningOf(SortKeys(v), false) == MeaningOf(v, false)
  {
    match v
    case Arr(xs) =>
      var r := SortKeys(v);
      forall i | 0 <= i < |xs|
        ensures Canonical(r.items[i]) && Valid(r.items[i]) && MeaningOf(r.items[i], false) == MeaningOf(xs[i], false)
      {
        SortKeysCorrect(xs[i]);
      }
      assert MeaningOf(r, false).items == MeaningOf(v, false).items;
    case Obj(ms) =>
      SortObjectCorrect(ms);
    case _ =>
  }

  lemma {:induction false} SortObjectCorrect(ms: seq<Member>)
    requires DistinctKeys(ms) && ValidMembers(ms)
    ensures var r := Rebuild(SortByKey(SortValues(ms)));
            && Ordered(r) && CanonicalMembers(r) && DistinctKeys(r) && ValidMembers(r)
            && MeaningOfMembers(r, false) == MeaningOfMembers(ms, false)
  {
    var values := SortValues(ms);
    forall i | 0 <= i < |ms|
      ensures Canonical(values[i].value) && Valid(values[i].value)
      ensures MeaningOf(values[i].value, false) == MeaningOf(ms[i].value, false)
    {
      SortKeysCorrect(ms[i].value);
    }
    SameMeanings(values, ms, false);
    SortOrdered(values);
    SortMeaning(values, false);
    SortPermutes(values);
    var sorted := SortByKey(values);
    RebuildOrdered(sorted);
    RebuildMeaning(sorted);
    var r := Rebuild(sorted);
    OrderedDistinct(r);
    forall i | 0 <= i < |r|
      ensures Canonical(r[i].value) && Valid(r[i].value)
    {
      assert r[i] in sorted;
      assert r[i] in multiset(values);
      assert r[i] in values;
    }
  }

  // ----- Two canonical values that mean the same are the same ---------------------------------------

  lemma OrderedAt(ms: seq<Member>, i: nat, j: nat)
    requires Ordered(ms) && i < |ms| && j < |ms|
    ensures KeyLess(ms[i].key, ms[j].key) <==> i < j
    ensures ms[i].key == ms[j].key <==> i == j
  {
    KeyLessTotal(ms[i].key, ms[j].key);
  }

  /** The first keys of two ordered lists with the same keys agree. */
  lemma SameFirstKey(xs: seq<Member>, ys: seq<Member>)
    requires Ordered(xs) && Ordered(ys) && xs != [] && ys != []
    requires HasKey(ys, xs[0].key) && HasKey(xs, ys[0].key)
    ensures xs[0].key == ys[0].key
  {
    var j :| 0 <= j < |ys| && ys[j].key == xs[0].key;
    var i :| 0 <= i < |xs| && xs[i].key == ys[0].key;
    OrderedAt(xs, 0, i);
    OrderedAt(ys, 0, j);
    KeyLessTotal(xs[0].key, ys[0].key);
  }

  lemma {:induction false} CanonicalUnique(a: Json, b: Json)
    requires Canonical(a) && Canonical(b) && MeaningOf(a, false) == MeaningOf(b, false)
    ensures a == b
    decreases a
  {
    match a
    case Arr(xs) =>
      assert b.Arr?;
      var p, q := MeaningOf(a, false).items, MeaningOf(b, false).items;
      assert |xs| == |p| == |q| == |b.items|;
      forall i | 0 <= i < |xs|
        ensures xs[i] == b.items[i]
      {
        assert p[i] == q[i];
        CanonicalUnique(xs[i], b.items[i]);
      }
      assert xs == b.items;
    case Obj(ms) =>
      assert b.Obj?;
      CanonicalUniqueMembers(ms, b.members);
    case _ =>
      assert MeaningOf(b, false).Atom?;
  }

  lemma {:induction false} CanonicalUniqueMembers(xs: seq<Member>, ys: seq<Member>)
    requires Ordered(xs) && Ordered(ys) && CanonicalMembers(xs) && CanonicalMembers(ys)
    requires MeaningOfMembers(xs, false) == MeaningOfMembers(ys, false)
    ensures xs == ys
    decreases xs
  {
    if xs == [] {
      if ys != [] {
        assert HasKey(ys, ys[0].key);
        MeaningKeys(ys, false, ys[0].key);
      }
    } else {
      var k := xs[0].key;
      assert HasKey(xs, k);
      MeaningKeys(xs, false, k);
      MeaningKeys(ys, false, k);
      assert ys != [];
      assert HasKey(ys, ys[0].key);
      MeaningKeys(xs, false, ys[0].key);
      MeaningKeys(ys, false, ys[0].key);
      SameFirstKey(xs, ys);
      OrderedDistinct(xs);
      OrderedDistinct(ys);
      MeaningAt(xs, false, 0);
      MeaningAt(ys, false, 0);
      CanonicalUnique(xs[0].value, ys[0].value);
      TailMeaning(xs);
      TailMeaning(ys);
      CanonicalUniqueMembers(xs[1..], ys[1..]);
      assert xs == [xs[0]] + xs[1..] && ys == [ys[0]] + ys[1..];
    }
  }

  lemma TailMeaning(ms: seq<Member>)
    requires ms != [] && DistinctKeys(ms) && ms[0].key != PROTO
    ensures MeaningOfMembers(ms[1..], false) == MeaningOfMembers(ms, false) - {ms[0].key}
  {
    HeadNotRepeated(ms);
    MeaningKeys(ms[1..], false, ms[0].key);
  }

  // ----- When nothing is called __proto__ ----------------------------------------------------------

  predicate NoProto(v: Json) {
    match v
    case Arr(xs) => forall i :: 0 <= i < |xs| ==> NoProto(xs[i])
    case Obj(ms) => forall i :: 0 <= i < |ms| ==> ms[i].key != PROTO && NoProto(ms[i].value)
    case _ => true
  }

  lemma {:induction false} NothingDropped(v: Json)
    requires NoProto(v)
    ensures MeaningOf(v, false) == MeaningOf(v, true)
  {
    match v
    case Arr(xs) =>
      forall i | 0 <= i < |xs|
        ensures MeaningOf(xs[i], false) == MeaningOf(xs[i], true)
      {
        NothingDropped(xs[i]);
      }
      assert MeaningOf(v, false).items == MeaningOf(v, true).items;
    case Obj(ms) =>
      NothingDroppedFrom(ms);
    case _ =>
  }

  lemma {:induction false} NothingDroppedFrom(ms: seq<Member>)
    requires forall i :: 0 <= i < |ms| ==> ms[i].key != PROTO && NoProto(ms[i].value)
    ensures MeaningOfMembers(ms, false) == MeaningOfMembers(ms, true)
  {
    if ms != [] {
      NothingDropped(ms[0].value);
      NothingDroppedFrom(ms[1..]);
    }
  }

  lemma {:induction false} CanonicalHasNoProto(v: Json)
    requires Canonical(v)
    ensures NoProto(v)
  {
    match v
    case Arr(xs) =>
      forall i | 0 <= i < |xs|
        ensures NoProto(xs[i])
      {
        CanonicalHasNoProto(xs[i]);
      }
    case Obj(ms) =>
      forall i | 0 <= i < |ms|
        ensures NoProto(ms[i].value)
      {
        CanonicalHasNoProto(ms[i].value);
      }
    case _ =>
  }
}
