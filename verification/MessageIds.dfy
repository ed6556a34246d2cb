/** Reading and writing the message ids of `In-Reply-To` and `References` headers. */
module MessageIds {
  import opened Prelude
  import opened Texts

  const MAX_HEADER := 4000
  const MAX_IDS := 20
  const MAX_TOKEN := 300
  const LESS: Unit := 60
  const GREATER: Unit := 62
  const SPACE: Unit := 32

  predicate IsTokenUnit(c: Unit) {
    c != LESS && c != GREATER && !IsSpace(c)
  }

  /** `<token>` with a token of 1 to 300 units, none of them a bracket or a space. */
  predicate IsId(id: Text) {
    && 3 <= |id| <= MAX_TOKEN + 2 && id[0] == LESS && id[|id| - 1] == GREATER
    && forall i :: 0 < i < |id| - 1 ==> IsTokenUnit(id[i])
  }

  // ----- All ids of a text, left to right -------------------------------------------------------

  function RunLength(s: Text): (n: nat)
    ensures n <= |s| && (forall i :: 0 <= i < n ==> IsTokenUnit(s[i])) && (n < |s| ==> !IsTokenUnit(s[n]))
  {
    if s == [] || !IsTokenUnit(s[0]) then 0 else 1 + RunLength(s[1..])
  }

  /** The length of the id that starts `s`, or 0. */
  function IdLength(s: Text): (n: nat)
    ensures n > 0 ==> n <= |s| && IsId(s[..n])
  {
    if s == [] || s[0] != LESS then 0
    else
      var n := RunLength(s[1..]);
      if 1 <= n <= MAX_TOKEN && n + 1 < |s| && s[n + 1] == GREATER then n + 2 else 0
  }

  function Matches(s: Text): seq<Text>
    decreases |s|
  {
    if s == [] then []
    else
      var n := IdLength(s);
      if n > 0 then [s[..n]] + Matches(s[n..]) else Matches(s[1..])
  }

  /** First occurrences only. */
  function Firsts(ids: seq<Text>): seq<Text> {
    if ids == [] then []
    else
      var before := Firsts(ids[..|ids| - 1]);
      var id := ids[|ids| - 1];
      if id in before then before else before + [id]
  }

  function Cut(s: Text, n: nat): Text {
    if |s| <= n then s else s[..n]
  }

  function Capped(ids: seq<Text>): seq<Text> {
    if |ids| <= MAX_IDS then ids else ids[..MAX_IDS]
  }

  function ParsedIds(header: Option<Text>): seq<Text> {
    match header
    case None => []
    case Some(h) => Capped(Firsts(Matches(Cut(h, MAX_HEADER))))
  }

  lemma {:induction false} FirstsGrow(ids: seq<Text>, k: nat)
    requires k <= |ids|
    ensures Firsts(ids[..k]) <= Firsts(ids)
    decreases |ids|
  {
    if k == |ids| {
      assert ids[..k] == ids;
    } else {
      FirstsGrow(ids[..|ids| - 1], k);
      assert ids[..|ids| - 1][..k] == ids[..k];
    }
  }

  method ParseMessageIds(header: Option<Text>) returns (out: seq<Text>)
    ensures out == ParsedIds(header)
  {
    out := [];
    if header.None? || header.value == [] {
      return;
    }
    var text := Cut(header.value, MAX_HEADER);
    ghost var all := Matches(text);
    ghost var done: seq<Text> := [];
    var rest := text;
    while rest != []
      invariant all == done + Matches(rest)
      invariant out == Firsts(done) && |out| < MAX_IDS
      decreases |rest|
    {
      var n := IdLength(rest);
      if n == 0 {
        rest := rest[1..];
        continue;
      }
      var id := rest[..n];
      ghost var seen := done;
      rest := rest[n..];
      done := done + [id];
      assert done[..|done| - 1] == seen;
      if id in out {
        continue;
      }
      out := out + [id];
      if |out| >= MAX_IDS {
        assert all[..|done|] == done;
        FirstsGrow(all, |done|);
        return;
      }
    }
    assert done == all;
  }

  // ----- What a parsed list looks like --------------------------------------------------------------

  predicate Distinct(ids: seq<Text>) {
    forall i, j :: 0 <= i < j < |ids| ==> ids[i] != ids[j]
  }

  predicate AllIds(ids: seq<Text>) {
    forall i :: 0 <= i < |ids| ==> IsId(ids[i])
  }

  lemma ConcatDistinct(xs: seq<Text>, ys: seq<Text>)
    requires Distinct(xs) && Distinct(ys) && forall x :: x in ys ==> x !in xs
    ensures Distinct(xs + ys)
  {
    var all := xs + ys;
    forall i, j | 0 <= i < j < |all|
      ensures all[i] != all[j]
    {
      if i < |xs| <= j {
        assert all[i] in xs && all[j] in ys;
      }
    }
  }

  lemma {:induction false} MatchesAreIds(s: Text)
    ensures AllIds(Matches(s))
    decreases |s|
  {
    if s != [] {
      var n := IdLength(s);
      MatchesAreIds(if n > 0 then s[n..] else s[1..]);
    }
  }

  lemma {:induction false} FirstsDistinct(ids: seq<Text>)
    ensures Distinct(Firsts(ids)) && (AllIds(ids) ==> AllIds(Firsts(ids)))
    ensures forall id :: id in ids <==> id in Firsts(ids)
  {
    if ids != [] {
      var front := ids[..|ids| - 1];
      FirstsDistinct(front);
      assert ids == front + [ids[|ids| - 1]];
    }
  }

  lemma {:induction false} FirstsOfDistinct(ids: seq<Text>)
    requires Distinct(ids)
    ensures Firsts(ids) == ids
  {
    if ids != [] {
      var front := ids[..|ids| - 1];
      FirstsOfDistinct(front);
      assert ids == front + [ids[|ids| - 1]];
    }
  }

  /** At most 20 well-formed ids, none twice. */
  lemma ParsedShape(header: Option<Text>)
    ensures |ParsedIds(header)| <= MAX_IDS && Distinct(ParsedIds(header)) && AllIds(ParsedIds(header))
  {
    if header.Some? {
      var ids := Matches(Cut(header.value, MAX_HEADER));
      MatchesAreIds(Cut(header.value, MAX_HEADER));
      FirstsDistinct(ids);
    }
  }

  // ----- Reading back a joined list ------------------------------------------------------------------

  /** How many leading ids of the joined list end within its first `c` units. */
  function Fitting(ids: seq<Text>, c: nat): (n: nat)
    ensures n <= |ids|
  {
    if ids == [] || |ids[0]| > c then 0
    else if c == |ids[0]| then 1
    else 1 + Fitting(ids[1..], c - |ids[0]| - 1)
  }

  lemma {:induction false} RunIsExact(run: Text, rest: Text)
    requires (forall i :: 0 <= i < |run| ==> IsTokenUnit(run[i])) && rest != [] && !IsTokenUnit(rest[0])
    ensures RunLength(run + rest) == |run|
  {
    if run == [] {
      assert run + rest == rest;
    } else {
      assert (run + rest)[1..] == run[1..] + rest;
      RunIsExact(run[1..], rest);
    }
  }

  lemma IdFound(id: Text, rest: Text)
    requires IsId(id)
    ensures IdLength(id + rest) == |id|
    ensures Matches(id + rest) == [id] + Matches(rest)
  {
    var run, close := id[1..|id| - 1], [GREATER] + rest;
    RunIsExact(run, close);
    var s := id + rest;
    assert s[1..] == run + close;
    assert s[..|id|] == id && s[|id|..] == rest;
  }

  lemma IdIsClosed(s: Text)
    ensures IdLength(s) > 0 ==> GREATER in s
  {
    var n := IdLength(s);
    if n > 0 {
      assert s[..n][n - 1] == s[n - 1];
    }
  }

  lemma {:induction false} NothingUnclosed(s: Text)
    requires GREATER !in s
    ensures Matches(s) == []
    decreases |s|
  {
    if s != [] {
      IdIsClosed(s);
      NothingUnclosed(s[1..]);
    }
  }

  lemma CutIdUnclosed(id: Text, c: nat)
    requires IsId(id) && c < |id|
    ensures GREATER !in id[..c]
  {
    forall i | 0 <= i < c
      ensures id[i] != GREATER
    {
      assert i == 0 || IsTokenUnit(id[i]);
    }
  }

  lemma SpaceSkipped(s: Text)
    ensures Matches([SPACE] + s) == Matches(s)
  {
    assert ([SPACE] + s)[1..] == s;
  }

  /** The first `c` units of a joined list hold exactly the ids that end within them. */
  lemma {:induction false} JoinedMatches(ids: seq<Text>, c: nat)
    requires AllIds(ids)
    ensures Matches(Cut(Join(ids, SPACE), c)) == ids[..Fitting(ids, c)]
  {
    if ids == [] {
    } else if c < |ids[0]| {
      CutIdUnclosed(ids[0], c);
      assert Cut(Join(ids, SPACE), c) == ids[0][..c];
      NothingUnclosed(ids[0][..c]);
    } else if |ids| == 1 || c == |ids[0]| {
      OneFits(ids, c);
    } else {
      JoinedMatches(ids[1..], c - |ids[0]| - 1);
      MoreFit(ids, c, Cut(Join(ids[1..], SPACE), c - |ids[0]| - 1), Fitting(ids[1..], c - |ids[0]| - 1));
    }
  }

  lemma OneFits(ids: seq<Text>, c: nat)
    requires AllIds(ids) && ids != [] && c >= |ids[0]| && (|ids| == 1 || c == |ids[0]|)
    ensures Matches(Cut(Join(ids, SPACE), c)) == ids[..Fitting(ids, c)]
  {
    IdFound(ids[0], []);
    assert ids[0] + [] == ids[0] && Cut(Join(ids, SPACE), c) == ids[0];
    assert Fitting(ids, c) == 1 && ids[..1] == [ids[0]];
  }

  lemma MoreFit(ids: seq<Text>, c: nat, rest: Text, n: nat)
    requires |ids| > 1 && IsId(ids[0]) && c > |ids[0]| && rest == Cut(Join(ids[1..], SPACE), c - |ids[0]| - 1)
    requires n == Fitting(ids[1..], c - |ids[0]| - 1) && Matches(rest) == ids[1..][..n]
    ensures Matches(Cut(Join(ids, SPACE), c)) == ids[..Fitting(ids, c)]
  {
    JoinSplit(ids, c);
    IdFound(ids[0], [SPACE] + rest);
    SpaceSkipped(rest);
    OneMoreTaken(ids, n);
  }

  lemma OneMoreTaken(ids: seq<Text>, n: nat)
    requires ids != [] && n < |ids|
    ensures ids[..n + 1] == [ids[0]] + ids[1..][..n]
  {
  }

  lemma {:induction false} AllFit(ids: seq<Text>, c: nat)
    requires AllIds(ids)
    ensures Fitting(ids, c) == |ids| <==> |Join(ids, SPACE)| <= c || ids == []
  {
    if |ids| > 1 {
      assert IsId(ids[1]) && |Join(ids[1..], SPACE)| >= |ids[1]|;
      if c > |ids[0]| {
        AllFit(ids[1..], c - |ids[0]| - 1);
      }
    }
  }

  lemma JoinSplit(ids: seq<Text>, c: nat)
    requires |ids| > 1 && c > |ids[0]|
    ensures Cut(Join(ids, SPACE), c) == ids[0] + ([SPACE] + Cut(Join(ids[1..], SPACE), c - |ids[0]| - 1))
    ensures |Join(ids, SPACE)| == |ids[0]| + 1 + |Join(ids[1..], SPACE)|
  {
    var tail := Join(ids[1..], SPACE);
    assert ids[0] + [SPACE] + tail == ids[0] + ([SPACE] + tail);
  }

  lemma {:induction false} PrefixDistinct(ids: seq<Text>, n: nat)
    requires Distinct(ids) && n <= |ids| <= MAX_IDS
    ensures Capped(Firsts(ids[..n])) == ids[..n]
  {
    FirstsOfDistinct(ids[..n]);
  }

  lemma JoinedReadsWithin(ids: seq<Text>, c: nat)
    requires AllIds(ids) && Distinct(ids) && 0 < |ids| <= MAX_IDS
    ensures Capped(Firsts(Matches(Cut(Join(ids, SPACE), c)))) == ids[..Fitting(ids, c)]
    ensures ids[..Fitting(ids, c)] == ids <==> |Join(ids, SPACE)| <= c
  {
    var n := Fitting(ids, c);
    JoinedMatches(ids, c);
    AllFit(ids, c);
    PrefixDistinct(ids, n);
    assert n < |ids| ==> |ids[..n]| != |ids|;
  }

  /** Parsing a joined list of different ids gives back a front of it, and all of it exactly when it fits the limit. */
  lemma JoinedReadsBack(ids: seq<Text>)
    requires AllIds(ids) && Distinct(ids) && 0 < |ids| <= MAX_IDS
    ensures exists n :: 0 <= n <= |ids| && ParsedIds(Some(Join(ids, SPACE))) == ids[..n]
    ensures ParsedIds(Some(Join(ids, SPACE))) == ids <==> |Join(ids, SPACE)| <= MAX_HEADER
  {
    var limit: nat := MAX_HEADER;
    JoinedReadsWithin(ids, limit);
  }

  // ----- References of a reply --------------------------------------------------------------------------

  function Without(ids: seq<Text>, id: Text): seq<Text> {
    if ids == [] then []
    else Without(ids[..|ids| - 1], id) + (if ids[|ids| - 1] == id then [] else [ids[|ids| - 1]])
  }

  /** The ids a reply refers to: the parent's chain, then the parent. */
  function Kept(ids: seq<Text>, parentId: Text): seq<Text> {
    var chain := Without(ids, parentId) + [parentId];
    if |chain| <= MAX_IDS then chain else [chain[0]] + chain[|chain| - (MAX_IDS - 1)..]
  }

  method FilterOut(ids: seq<Text>, id: Text) returns (chain: seq<Text>)
    ensures chain == Without(ids, id)
  {
    chain := [];
    for i := 0 to |ids|
      invariant chain == Without(ids[..i], id)
    {
      assert ids[..i + 1][..i] == ids[..i];
      if ids[i] != id {
        chain := chain + [ids[i]];
      }
    }
    assert ids[..|ids|] == ids;
  }

  method JoinKept(ids: seq<Text>, parentId: Text) returns (value: Text)
    ensures value == Join(Kept(ids, parentId), SPACE)
  {
    var chain := FilterOut(ids, parentId);
    chain := chain + [parentId];
    var kept := if |chain| <= MAX_IDS then chain else [chain[0]] + chain[|chain| - (MAX_IDS - 1)..];
    value := Join(kept, SPACE);
  }

  method BuildReferences(parentReferences: Option<Text>, parentId: Text) returns (value: Text)
    ensures value == Join(Kept(ParsedIds(parentReferences), parentId), SPACE)
  {
    var ids := ParseMessageIds(parentReferences);
    value := JoinKept(ids, parentId);
  }

  lemma {:induction false} WithoutShape(ids: seq<Text>, id: Text)
    requires Distinct(ids)
    ensures var r := Without(ids, id);
            && Distinct(r) && |r| <= |ids| && (AllIds(ids) ==> AllIds(r))
            && forall x :: x in r <==> x in ids && x != id
    ensures ids != [] && ids[0] != id ==> Without(ids, id) != [] && Without(ids, id)[0] == ids[0]
  {
    if ids != [] {
      var front := ids[..|ids| - 1];
      var last := ids[|ids| - 1];
      WithoutShape(front, id);
      assert ids == front + [last];
      if last != id {
        assert last !in Without(front, id);
        ConcatDistinct(Without(front, id), [last]);
      }
    }
  }

  /** The chain before capping: at most 21 different ids. */
  lemma ChainShape(ids: seq<Text>, parentId: Text)
    requires IsId(parentId) && Distinct(ids) && AllIds(ids) && |ids| <= MAX_IDS
    ensures var chain := Without(ids, parentId) + [parentId];
            && |chain| <= MAX_IDS + 1 && Distinct(chain) && AllIds(chain)
            && forall id :: id in chain ==> id in ids || id == parentId
    ensures ids != [] && ids[0] != parentId ==> (Without(ids, parentId) + [parentId])[0] == ids[0]
  {
    WithoutShape(ids, parentId);
    ConcatDistinct(Without(ids, parentId), [parentId]);
  }

  lemma SecondDropped(chain: seq<Text>)
    requires |chain| == MAX_IDS + 1 && Distinct(chain) && AllIds(chain)
    ensures var kept := [chain[0]] + chain[|chain| - (MAX_IDS - 1)..];
            && |kept| == MAX_IDS && Distinct(kept) && AllIds(kept)
            && kept[0] == chain[0] && kept[MAX_IDS - 1] == chain[MAX_IDS]
            && forall id :: id in kept <==> id in chain && id != chain[1]
  {
    var tail := chain[2..];
    ConcatDistinct([chain[0]], tail);
    assert chain == [chain[0]] + [chain[1]] + tail;
    assert chain[1] !in tail;
  }

  /** At most 20 different ids; the chain's root comes first and the parent last. */
  lemma KeptShape(ids: seq<Text>, parentId: Text)
    requires IsId(parentId) && Distinct(ids) && AllIds(ids) && |ids| <= MAX_IDS
    ensures var kept := Kept(ids, parentId);
            && 0 < |kept| <= MAX_IDS && Distinct(kept) && AllIds(kept) && kept[|kept| - 1] == parentId
            && (forall id :: id in kept ==> id in ids || id == parentId)
    ensures ids != [] && ids[0] != parentId ==> Kept(ids, parentId)[0] == ids[0]
  {
    ChainShape(ids, parentId);
    var chain := Without(ids, parentId) + [parentId];
    if |chain| > MAX_IDS {
      SecondDropped(chain);
    }
  }

  /** Only a chain of 20 ids that lacks the parent drops one: the second. */
  lemma KeptDropsAtMostOne(ids: seq<Text>, parentId: Text, id: Text)
    requires IsId(parentId) && Distinct(ids) && AllIds(ids) && |ids| <= MAX_IDS && id in ids
    ensures id in Kept(ids, parentId) <==> !(|ids| == MAX_IDS && parentId !in ids && id == ids[1])
  {
    ChainShape(ids, parentId);
    WithoutShape(ids, parentId);
    var chain := Without(ids, parentId) + [parentId];
    if parentId in ids {
      WithoutPresent(ids, parentId);
    } else {
      WithoutAbsent(ids, parentId);
      if |chain| > MAX_IDS {
        SecondDropped(chain);
        assert chain[1] == ids[1];
      }
    }
  }

  lemma {:induction false} WithoutAbsent(ids: seq<Text>, id: Text)
    requires id !in ids
    ensures Without(ids, id) == ids
  {
    if ids != [] {
      WithoutAbsent(ids[..|ids| - 1], id);
    }
  }

  lemma {:induction false} WithoutPresent(ids: seq<Text>, id: Text)
    requires id in ids
    ensures |Without(ids, id)| < |ids|
  {
    var front, last := ids[..|ids| - 1], ids[|ids| - 1];
    if last == id {
      WithoutNoLonger(front, id);
    } else {
      WithoutPresent(front, id);
    }
  }

  lemma {:induction false} WithoutNoLonger(ids: seq<Text>, id: Text)
    ensures |Without(ids, id)| <= |ids|
  {
    if ids != [] {
      WithoutNoLonger(ids[..|ids| - 1], id);
    }
  }

  // ----- Does a reply keep the newest id? -----------------------------------------------------------------

  /** The last of the different ids within the limit is kept exactly when it is the parent or one of at most 20. */
  lemma NewestInHeaderKeptIff(header: Text, parentId: Text)
    requires IsId(parentId) && Firsts(Matches(Cut(header, MAX_HEADER))) != []
    ensures var ids := Firsts(Matches(Cut(header, MAX_HEADER)));
            var newest := ids[|ids| - 1];
            newest in Kept(ParsedIds(Some(header)), parentId) <==> newest == parentId || |ids| <= MAX_IDS
  {
    var ids := Firsts(Matches(Cut(header, MAX_HEADER)));
    var newest := ids[|ids| - 1];
    FirstsDistinct(Matches(Cut(header, MAX_HEADER)));
    ParsedShape(Some(header));
    KeptShape(ParsedIds(Some(header)), parentId);
    if |ids| <= MAX_IDS {
      LastSurvives(ids, parentId);
    } else {
      assert newest !in ids[..MAX_IDS];
    }
  }

  lemma LastSurvives(ids: seq<Text>, parentId: Text)
    requires IsId(parentId) && Distinct(ids) && AllIds(ids) && 0 < |ids| <= MAX_IDS
    ensures ids[|ids| - 1] in Kept(ids, parentId)
  {
    KeptDropsAtMostOne(ids, parentId, ids[|ids| - 1]);
    KeptShape(ids, parentId);
  }

  /** How much of a joined list of different ids the parser keeps. */
  lemma JoinedParsesTo(ids: seq<Text>) returns (n: nat)
    requires AllIds(ids) && Distinct(ids) && ids != []
    ensures 0 < n <= |ids| && ParsedIds(Some(Join(ids, SPACE))) == ids[..n]
    ensures n == |ids| <==> |ids| <= MAX_IDS && |Join(ids, SPACE)| <= MAX_HEADER
  {
    var limit: nat := MAX_HEADER;
    var fits := Fitting(ids, limit);
    JoinedMatches(ids, limit);
    AllFit(ids, limit);
    FirstsOfDistinct(ids[..fits]);
    n := if fits <= MAX_IDS then fits else MAX_IDS;
    assert Capped(ids[..fits]) == ids[..n];
  }

  /**
   * "The root and the most recent": of a well-formed chain the newest id is kept exactly when the whole chain has
   * at most 20 ids and 4000 units. A longer one loses its newest ids first.
   */
  lemma NewestKeptIff(ids: seq<Text>, parentId: Text)
    requires AllIds(ids) && Distinct(ids) && ids != [] && IsId(parentId) && parentId !in ids
    ensures ids[|ids| - 1] in Kept(ParsedIds(Some(Join(ids, SPACE))), parentId)
            <==> |ids| <= MAX_IDS && |Join(ids, SPACE)| <= MAX_HEADER
  {
    var n := JoinedParsesTo(ids);
    ParsedShape(Some(Join(ids, SPACE)));
    if n == |ids| {
      assert ids[..n] == ids;
      LastSurvives(ids, parentId);
    } else {
      KeptShape(ids[..n], parentId);
      assert ids[|ids| - 1] !in ids[..n];
    }
  }

  /** `<a>`, `<b>`, `<c>` and so on. */
  function Lettered(n: nat): seq<Text>
    requires n <= 26
  {
    seq(n, i requires 0 <= i < n => [LESS, 97 + i, GREATER])
  }

  /** A chain of 21 ids: the reply names its root, but not the message before the parent. */
  lemma ChainOf21LosesNewest()
    ensures var ids, parentId := Lettered(21), [LESS, 109, 101, GREATER];
            && AllIds(ids) && Distinct(ids) && IsId(parentId) && parentId !in ids
            && ids[0] in Kept(ParsedIds(Some(Join(ids, SPACE))), parentId)
            && ids[20] !in Kept(ParsedIds(Some(Join(ids, SPACE))), parentId)
  {
    var ids, parentId: Text := Lettered(21), [LESS, 109, 101, GREATER];
    assert forall i, j :: 0 <= i < j < |ids| ==> ids[i][1] != ids[j][1];
    assert forall i :: 0 <= i < |ids| ==> IsId(ids[i]) && |ids[i]| == 3;
    NewestKeptIff(ids, parentId);
    var n := JoinedParsesTo(ids);
    ParsedShape(Some(Join(ids, SPACE)));
    KeptShape(ids[..n], parentId);
  }

  /** The `References` value we write: what it names, and when it reads back in full. */
  lemma ReferencesReadBack(parentReferences: Option<Text>, parentId: Text)
    requires IsId(parentId)
    ensures var ids := ParsedIds(parentReferences);
            var kept := Kept(ids, parentId);
            && 0 < |kept| <= MAX_IDS && Distinct(kept) && kept[|kept| - 1] == parentId
            && (ids != [] && ids[0] != parentId ==> kept[0] == ids[0])
            && (ParsedIds(Some(Join(kept, SPACE))) == kept <==> |Join(kept, SPACE)| <= MAX_HEADER)
  {
    ParsedShape(parentReferences);
    KeptShape(ParsedIds(parentReferences), parentId);
    JoinedReadsBack(Kept(ParsedIds(parentReferences), parentId));
  }

  // ----- Threading an inbound reply ------------------------------------------------------------------------

  function Reversed(ids: seq<Text>): seq<Text> {
    if ids == [] then [] else Reversed(ids[1..]) + [ids[0]]
  }

  function NotIn(ids: seq<Text>, seen: seq<Text>): seq<Text> {
    if ids == [] then []
    else (if ids[0] in seen then [] else [ids[0]]) + NotIn(ids[1..], seen)
  }

  function ThreadingCandidates(inReplyTo: Option<Text>, references: Option<Text>): seq<Text> {
    var direct := ParsedIds(inReplyTo);
    direct + NotIn(Reversed(ParsedIds(references)), direct)
  }

  lemma {:induction false} ReversedShape(ids: seq<Text>)
    ensures |Reversed(ids)| == |ids|
    ensures forall i :: 0 <= i < |ids| ==> Reversed(ids)[i] == ids[|ids| - 1 - i]
    ensures Distinct(ids) ==> Distinct(Reversed(ids))
  {
    if ids != [] {
      ReversedShape(ids[1..]);
    }
  }

  lemma {:induction false} NotInShape(ids: seq<Text>, seen: seq<Text>)
    ensures forall x :: x in NotIn(ids, seen) <==> x in ids && x !in seen
    ensures Distinct(ids) ==> Distinct(NotIn(ids, seen))
  {
    if ids != [] {
      NotInShape(ids[1..], seen);
      assert ids == [ids[0]] + ids[1..];
      if Distinct(ids) {
        assert ids[0] !in ids[1..];
        ConcatDistinct(if ids[0] in seen then [] else [ids[0]], NotIn(ids[1..], seen));
      }
    }
  }

  /** Every id of either header once, those of In-Reply-To first. */
  lemma CandidatesShape(inReplyTo: Option<Text>, references: Option<Text>)
    ensures var c := ThreadingCandidates(inReplyTo, references);
            && Distinct(c) && ParsedIds(inReplyTo) <= c
            && forall id :: id in c <==> id in ParsedIds(inReplyTo) || id in ParsedIds(references)
  {
    var chain := ParsedIds(references);
    ParsedShape(inReplyTo);
    ParsedShape(references);
    ReversedShape(chain);
    NotInShape(Reversed(chain), ParsedIds(inReplyTo));
    forall id
      ensures id in Reversed(chain) <==> id in chain
    {
      if id in chain {
        var i :| 0 <= i < |chain| && chain[i] == id;
        assert Reversed(chain)[|chain| - 1 - i] == id;
      }
    }
    ConcatDistinct(ParsedIds(inReplyTo), NotIn(Reversed(chain), ParsedIds(inReplyTo)));
  }

  lemma {:induction false} NotInAbsent(ids: seq<Text>, id: Text)
    requires id !in ids
    ensures NotIn(ids, [id]) == ids
  {
    if ids != [] {
      NotInAbsent(ids[1..], id);
    }
  }

  lemma {:induction false} ReversedAppend(ids: seq<Text>, id: Text)
    ensures Reversed(ids + [id]) == [id] + Reversed(ids)
  {
    if ids == [] {
      assert [] + [id] == [id];
    } else {
      ReversedAppend(ids[1..], id);
      assert (ids + [id])[1..] == ids[1..] + [id];
    }
  }

  lemma ReversedHas(ids: seq<Text>, id: Text)
    ensures id in Reversed(ids) ==> id in ids
  {
    ReversedShape(ids);
    if id in Reversed(ids) {
      var i :| 0 <= i < |ids| && Reversed(ids)[i] == id;
      assert ids[|ids| - 1 - i] == id;
    }
  }

  lemma CandidatesOf(front: seq<Text>, parentId: Text)
    requires parentId !in front
    ensures NotIn(Reversed(front), [parentId]) == Reversed(front)
    ensures NotIn(Reversed(front + [parentId]), [parentId]) == Reversed(front)
  {
    ReversedHas(front, parentId);
    NotInAbsent(Reversed(front), parentId);
    ReversedAppend(front, parentId);
    assert ([parentId] + Reversed(front))[1..] == Reversed(front);
  }

  /**
   * A reply that carries our headers is threaded to the parent first, then along the kept chain from its newest id
   * to its oldest: all of the chain when the header fits, otherwise the front of it that does.
   */
  lemma ReplyThreadsToParent(parentReferences: Option<Text>, parentId: Text) returns (n: nat)
    requires IsId(parentId)
    ensures var kept := Kept(ParsedIds(parentReferences), parentId);
            && n < |kept|
            && ThreadingCandidates(Some(Join([parentId], SPACE)), Some(Join(kept, SPACE)))
               == [parentId] + Reversed(kept[..n])
            && (|Join(kept, SPACE)| <= MAX_HEADER ==> n == |kept| - 1)
  {
    ParsedShape(parentReferences);
    KeptShape(ParsedIds(parentReferences), parentId);
    var kept := Kept(ParsedIds(parentReferences), parentId);
    var last := |kept| - 1;
    JoinedReadsBack([parentId]);
    assert ParsedIds(Some(Join([parentId], SPACE))) == [parentId];
    n := JoinedParsesTo(kept);
    assert parentId !in kept[..last];
    if n == |kept| {
      n := last;
      CandidatesOf(kept[..last], parentId);
      assert kept == kept[..last] + [parentId];
      assert kept[..|kept|] == kept;
    } else {
      assert parentId !in kept[..n];
      CandidatesOf(kept[..n], parentId);
    }
  }
}
