/** IPv6 address literals: every legal text form reads as the address it stands for. */
module Ipv6Text {
  import opened Prelude
  import opened Texts

  const PERCENT: Unit := 37
  const DOT: Unit := 46
  const COLON: Unit := 58
  const OPEN: Unit := 91
  const CLOSE: Unit := 93

  type Quad = q: seq<nat> | |q| == 4 && forall i :: 0 <= i < 4 ==> q[i] < 256
    witness [0, 0, 0, 0]
  type Hextets = h: seq<nat> | |h| == 8 && forall i :: 0 <= i < 8 ==> h[i] < 0x10000
    witness [0, 0, 0, 0, 0, 0, 0, 0]

  // ----- Reading an address literal ----------------------------------------------------------------

  function StripBrackets(t: Text): Text {
    var s := if |t| > 0 && t[0] == OPEN then t[1..] else t;
    if |s| > 0 && s[|s| - 1] == CLOSE then s[..|s| - 1] else s
  }

  /** Where the part after the last colon starts; 0 without one. */
  function AfterLastColon(s: Text): (k: nat)
    ensures k <= |s|
  {
    if s == [] then 0 else if s[|s| - 1] == COLON then |s| else AfterLastColon(s[..|s| - 1])
  }

  function ParseQuad(t: Text): Option<Quad> {
    var p := Split(t, DOT);
    if |p| != 4 || exists i :: 0 <= i < 4 && (p[i] == [] || !AllDigits(p[i])) then None
    else
      var q := [DecimalValue(p[0]), DecimalValue(p[1]), DecimalValue(p[2]), DecimalValue(p[3])];
      if q[0] < 256 && q[1] < 256 && q[2] < 256 && q[3] < 256 then Some(q) else None
  }

  /** A trailing dotted quad becomes two hextets. */
  function ExpandQuad(s: Text): Text {
    var k := AfterLastColon(s);
    if k == 0 then s
    else
      match ParseQuad(s[k..])
      case None => s
      case Some(q) => s[..k] + Hex(q[0] * 256 + q[1]) + [COLON] + Hex(q[2] * 256 + q[3])
  }

  /** The position of the first `::`, or the length of the text. */
  function FirstDouble(s: Text): (k: nat)
    ensures k == |s| || k + 2 <= |s|
  {
    if |s| < 2 then |s|
    else if s[0] == COLON && s[1] == COLON then 0
    else 1 + FirstDouble(s[1..])
  }

  function Pieces(s: Text): seq<Text> {
    if s == [] then [] else Split(s, COLON)
  }

  function Zeros(n: nat): (z: seq<nat>)
    ensures |z| == n && forall i :: 0 <= i < n ==> z[i] == 0
  {
    if n == 0 then [] else [0] + Zeros(n - 1)
  }

  function PieceValues(ps: seq<Text>): (v: seq<nat>)
    requires forall i :: 0 <= i < |ps| ==> IsHex(ps[i])
    ensures |v| == |ps|
  {
    if ps == [] then []
    else
      assert IsHex(ps[0]);
      [HexValue(ps[0])] + PieceValues(ps[1..])
  }

  function Numbers(v: seq<nat>): Option<Hextets> {
    if |v| == 8 && forall i :: 0 <= i < 8 ==> v[i] < 0x10000 then Some(v) else None
  }

  predicate SomeMalformed(ps: seq<Text>) {
    exists i :: 0 <= i < |ps| && !IsHex(ps[i])
  }

  /** The groups on both sides of a `::`, with zeros for those it stands for. */
  function FilledUp(h: seq<Text>, t: seq<Text>): Option<Hextets> {
    if |h| + |t| > 8 || SomeMalformed(h) || SomeMalformed(t) then None
    else Numbers(PieceValues(h) + Zeros(8 - |h| - |t|) + PieceValues(t))
  }

  /** Groups with at most one `::` that is taken into account. */
  function ParseGroups(s: Text): Option<Hextets> {
    var k := FirstDouble(s);
    var h := Pieces(s[..k]);
    if k == |s| then
      if SomeMalformed(h) then None else Numbers(PieceValues(h))
    else
      var rest := s[k + 2..];
      FilledUp(h, Pieces(rest[..FirstDouble(rest)]))
  }

  /** The eight numbers of an IPv6 literal. */
  function ParseHextets(ip: Text): Option<Hextets> {
    ParseGroups(ExpandQuad(Split(Lower(StripBrackets(ip)), PERCENT)[0]))
  }

  // ----- Legal text forms: section 2.2 of RFC 4291, with an optional zone ------------------------------

  /**
   * Groups before and after the `::`. A dotted quad stands last and counts as two groups. Without a `::`
   * all groups are in `head`.
   */
  datatype Form = Form(head: seq<Text>, elided: bool, tail: seq<Text>, quad: Option<Quad>, zone: Option<Text>)

  predicate IsGroup(t: Text) {
    IsHex(t) && |t| <= 4
  }

  predicate AllGroups(ps: seq<Text>) {
    forall i :: 0 <= i < |ps| ==> IsGroup(ps[i])
  }

  /** The characters a zone may hold. */
  predicate IsZoneUnit(c: Unit) {
    IsDigit(c) || 65 <= c <= 90 || 97 <= c <= 122 || c == 45 || c == DOT || c == COLON
  }

  predicate Legal(f: Form) {
    var n := |f.head| + |f.tail| + if f.quad.Some? then 2 else 0;
    && AllGroups(f.head) && AllGroups(f.tail)
    && (if f.elided then n <= 7 else n == 8 && f.tail == [])
    && (f.zone.Some? ==> |f.zone.value| > 0 && forall i :: 0 <= i < |f.zone.value| ==> IsZoneUnit(f.zone.value[i]))
  }

  function QuadText(q: Quad): Text {
    Join([Decimal(q[0]), Decimal(q[1]), Decimal(q[2]), Decimal(q[3])], DOT)
  }

  function LastGroup(quad: Option<Quad>): seq<Text> {
    match quad
    case None => []
    case Some(q) => [QuadText(q)]
  }

  function Body(f: Form): Text {
    if f.elided then Join(f.head, COLON) + ([COLON, COLON] + Join(f.tail + LastGroup(f.quad), COLON))
    else Join(f.head + LastGroup(f.quad), COLON)
  }

  /** The address as it is written. */
  function Render(f: Form): Text {
    Body(f) + match f.zone case None => [] case Some(z) => [PERCENT] + z
  }

  function QuadHextets(quad: Option<Quad>): seq<nat> {
    match quad
    case None => []
    case Some(q) => [q[0] * 256 + q[1], q[2] * 256 + q[3]]
  }

  /** The address a legal form stands for. */
  function Address(f: Form): (h: Hextets)
    requires Legal(f)
  {
    GroupValuesSmall(f.head);
    GroupValuesSmall(f.tail);
    var before, after := PieceValues(f.head), PieceValues(f.tail) + QuadHextets(f.quad);
    if f.elided then before + Zeros(8 - |before| - |after|) + after else before + after
  }

  lemma {:induction false} GroupValuesSmall(ps: seq<Text>)
    requires AllGroups(ps)
    ensures forall i :: 0 <= i < |ps| ==> PieceValues(ps)[i] < 0x10000
  {
    if ps != [] {
      HexValueSmall(ps[0]);
      GroupValuesSmall(ps[1..]);
    }
  }

  // ----- Lower case changes nothing --------------------------------------------------------------------

  function LowerAll(ps: seq<Text>): (r: seq<Text>)
    ensures |r| == |ps| && forall i :: 0 <= i < |ps| ==> r[i] == Lower(ps[i])
  {
    if ps == [] then [] else [Lower(ps[0])] + LowerAll(ps[1..])
  }

  lemma {:induction false} LowerJoin(ps: seq<Text>)
    ensures Lower(Join(ps, COLON)) == Join(LowerAll(ps), COLON)
  {
    if |ps| > 1 {
      LowerJoin(ps[1..]);
      LowerConcat(ps[0] + [COLON], Join(ps[1..], COLON));
      LowerConcat(ps[0], [COLON]);
      assert Lower([COLON]) == [COLON];
    }
  }

  lemma {:induction false} LowerHex(t: Text)
    requires forall i :: 0 <= i < |t| ==> HexDigitValue(t[i]).Some?
    ensures forall i :: 0 <= i < |t| ==> HexDigitValue(Lower(t)[i]) == HexDigitValue(t[i])
    ensures HexValue(Lower(t)) == HexValue(t)
  {
    if t != [] {
      LowerHex(t[..|t| - 1]);
      assert Lower(t)[..|t| - 1] == Lower(t[..|t| - 1]);
    }
  }

  lemma {:induction false} LowerGroups(ps: seq<Text>)
    requires AllGroups(ps)
    ensures AllGroups(LowerAll(ps)) && PieceValues(LowerAll(ps)) == PieceValues(ps)
  {
    if ps != [] {
      LowerHex(ps[0]);
      LowerGroups(ps[1..]);
      assert LowerAll(ps)[1..] == LowerAll(ps[1..]);
      assert AllGroups(LowerAll(ps)) by {
        forall i | 0 <= i < |ps|
          ensures IsGroup(LowerAll(ps)[i])
        {
          LowerHex(ps[i]);
        }
      }
    }
  }

  lemma PlainLower(t: Text)
    requires forall i :: 0 <= i < |t| ==> IsDigit(t[i]) || t[i] == DOT
    ensures Lower(t) == t
  {
  }

  // ----- The quad --------------------------------------------------------------------------------------

  lemma QuadParts(q: Quad)
    ensures var ps := [Decimal(q[0]), Decimal(q[1]), Decimal(q[2]), Decimal(q[3])];
            forall i :: 0 <= i < 4 ==> ps[i] != [] && AllDigits(ps[i]) && DecimalValue(ps[i]) == q[i]
  {
    DecimalReadsBack(q[0]);
    DecimalReadsBack(q[1]);
    DecimalReadsBack(q[2]);
    DecimalReadsBack(q[3]);
  }

  lemma QuadUnits(q: Quad)
    ensures forall i :: 0 <= i < |QuadText(q)| ==> IsDigit(QuadText(q)[i]) || QuadText(q)[i] == DOT
  {
    var ps := [Decimal(q[0]), Decimal(q[1]), Decimal(q[2]), Decimal(q[3])];
    QuadParts(q);
    forall i | 0 <= i < |QuadText(q)|
      ensures IsDigit(QuadText(q)[i]) || QuadText(q)[i] == DOT
    {
      JoinUnits(ps, DOT, QuadText(q)[i]);
    }
  }

  lemma QuadReadsBack(q: Quad)
    ensures ParseQuad(QuadText(q)) == Some(q)
  {
    var ps := [Decimal(q[0]), Decimal(q[1]), Decimal(q[2]), Decimal(q[3])];
    QuadParts(q);
    assert forall i :: 0 <= i < 4 ==> DOT !in ps[i];
    SplitJoin(ps, DOT);
    var r := [DecimalValue(ps[0]), DecimalValue(ps[1]), DecimalValue(ps[2]), DecimalValue(ps[3])];
    assert r == q;
  }

  lemma NoDotNoQuad(t: Text)
    requires DOT !in t
    ensures ParseQuad(t).None?
  {
    SplitPlain(t, DOT);
  }

  lemma {:induction false} LastColonAt(p: Text, t: Text)
    requires COLON !in t
    ensures AfterLastColon(p + [COLON] + t) == |p| + 1
  {
    var s := p + [COLON] + t;
    if t != [] {
      LastColonAt(p, t[..|t| - 1]);
      assert s[..|s| - 1] == p + [COLON] + t[..|t| - 1];
    }
  }

  lemma ExpandQuadAt(p: Text, q: Quad)
    ensures ExpandQuad(p + [COLON] + QuadText(q))
         == p + [COLON] + Hex(q[0] * 256 + q[1]) + [COLON] + Hex(q[2] * 256 + q[3])
  {
    var t := QuadText(q);
    var s := p + [COLON] + t;
    QuadUnits(q);
    LastColonAt(p, t);
    QuadReadsBack(q);
    assert s[|p| + 1..] == t && s[..|p| + 1] == p + [COLON];
  }

  lemma NoDotNotExpanded(s: Text)
    requires DOT !in s
    ensures ExpandQuad(s) == s
  {
    NoDotNoQuad(s[AfterLastColon(s)..]);
  }

  // ----- Groups and the double colon ----------------------------------------------------------------------

  lemma GroupUnits(ps: seq<Text>, c: Unit)
    requires AllGroups(ps) && HexDigitValue(c).None? && c != COLON
    ensures c !in Join(ps, COLON)
  {
    forall i | 0 <= i < |ps|
      ensures c !in ps[i]
    {
      assert IsGroup(ps[i]);
    }
    JoinLacks(ps, COLON, c);
  }

  /** No two colons in a row, none at the end and none at the start. */
  predicate NoDouble(s: Text) {
    && (forall i :: 0 <= i < |s| - 1 ==> !(s[i] == COLON && s[i + 1] == COLON))
    && (|s| > 0 ==> s[|s| - 1] != COLON && s[0] != COLON)
  }

  lemma {:induction false} GroupsNoDouble(ps: seq<Text>)
    requires AllGroups(ps)
    ensures NoDouble(Join(ps, COLON)) && (ps != [] ==> Join(ps, COLON) != [])
  {
    if ps != [] {
      assert IsGroup(ps[0]);
      assert forall i :: 0 <= i < |ps[0]| ==> HexDigitValue(ps[0][i]).Some? && ps[0][i] != COLON;
      if |ps| > 1 {
        GroupsNoDouble(ps[1..]);
        var s, n := Join(ps, COLON), |ps[0]|;
        var rest := Join(ps[1..], COLON);
        assert s[..n] == ps[0] && s[n] == COLON && s[n + 1..] == rest;
        forall i | 0 <= i < |s| - 1
          ensures !(s[i] == COLON && s[i + 1] == COLON)
        {
          if i < n {
            assert s[i] == ps[0][i];
          } else if i == n {
            assert s[i + 1] == rest[0];
          } else {
            assert s[i] == rest[i - n - 1] && s[i + 1] == rest[i - n];
          }
        }
        assert s[0] == ps[0][0] && s[|s| - 1] == rest[|rest| - 1];
      }
    }
  }

  lemma {:induction false} NoDoubleFound(s: Text)
    requires forall i :: 0 <= i < |s| - 1 ==> !(s[i] == COLON && s[i + 1] == COLON)
    ensures FirstDouble(s) == |s|
  {
    if |s| >= 2 {
      assert !(s[0] == COLON && s[0 + 1] == COLON);
      forall i | 0 <= i < |s[1..]| - 1
        ensures !(s[1..][i] == COLON && s[1..][i + 1] == COLON)
      {
        assert s[1..][i] == s[i + 1] && s[1..][i + 1] == s[i + 2];
      }
      NoDoubleFound(s[1..]);
    }
  }

  lemma {:induction false} DoubleFound(x: Text, y: Text)
    requires NoDouble(x)
    ensures FirstDouble(x + ([COLON, COLON] + y)) == |x|
  {
    var s := x + ([COLON, COLON] + y);
    DoubleFoundFrom(x, y, 0);
    assert s[0..] == s;
  }

  lemma {:induction false} DoubleFoundFrom(x: Text, y: Text, k: nat)
    requires NoDouble(x) && k <= |x|
    ensures FirstDouble((x + ([COLON, COLON] + y))[k..]) == |x| - k
    decreases |x| - k
  {
    var s := x + ([COLON, COLON] + y);
    if k < |x| {
      DoubleFoundFrom(x, y, k + 1);
      assert s[k..][1..] == s[k + 1..];
      assert s[k..][0] == x[k];
      if k + 1 < |x| {
        assert s[k..][1] == x[k + 1];
      }
    }
  }

  lemma GroupsSplit(ps: seq<Text>)
    requires AllGroups(ps)
    ensures Pieces(Join(ps, COLON)) == ps && forall i :: 0 <= i < |ps| ==> IsHex(ps[i])
  {
    GroupsNoDouble(ps);
    if ps != [] {
      forall i | 0 <= i < |ps|
        ensures COLON !in ps[i]
      {
        assert IsGroup(ps[i]);
      }
      SplitJoin(ps, COLON);
    }
  }

  // ----- Every legal form reads as its address ---------------------------------------------------------------

  function PlainBody(head: seq<Text>, elided: bool, tail: seq<Text>): Text {
    if elided then Join(head, COLON) + ([COLON, COLON] + Join(tail, COLON)) else Join(head, COLON)
  }

  lemma FullReadsBack(head: seq<Text>)
    requires AllGroups(head) && |head| == 8
    ensures ParseGroups(Join(head, COLON)) == Some(PieceValues(head))
  {
    var s := Join(head, COLON);
    GroupsNoDouble(head);
    NoDoubleFound(s);
    GroupsSplit(head);
    GroupValuesSmall(head);
    assert s[..|s|] == s;
  }

  lemma ElidedParts(x: Text, y: Text)
    requires NoDouble(x) && NoDouble(y)
    ensures var s := x + ([COLON, COLON] + y);
            FirstDouble(s) == |x| && s[..|x|] == x && s[|x| + 2..] == y && y[..FirstDouble(y)] == y
  {
    DoubleFound(x, y);
    NoDoubleFound(y);
  }

  lemma ElidedReadsBack(head: seq<Text>, tail: seq<Text>)
    requires AllGroups(head) && AllGroups(tail) && |head| + |tail| <= 7
    ensures ParseGroups(PlainBody(head, true, tail))
         == Some(PieceValues(head) + Zeros(8 - |head| - |tail|) + PieceValues(tail))
  {
    var x, y := Join(head, COLON), Join(tail, COLON);
    GroupsNoDouble(head);
    GroupsNoDouble(tail);
    ElidedParts(x, y);
    GroupsSplit(head);
    GroupsSplit(tail);
    FilledUpGroups(head, tail);
    ElidedParse(x + ([COLON, COLON] + y), |x|, y, head, tail);
  }

  lemma FilledUpGroups(head: seq<Text>, tail: seq<Text>)
    requires AllGroups(head) && AllGroups(tail) && |head| + |tail| <= 7
    requires !SomeMalformed(head) && !SomeMalformed(tail)
    ensures FilledUp(head, tail) == Some(PieceValues(head) + Zeros(8 - |head| - |tail|) + PieceValues(tail))
  {
    ElidedNumbers(head, tail);
  }

  lemma ElidedNumbers(head: seq<Text>, tail: seq<Text>)
    requires AllGroups(head) && AllGroups(tail) && |head| + |tail| <= 7
    ensures var v := PieceValues(head) + Zeros(8 - |head| - |tail|) + PieceValues(tail); Numbers(v) == Some(v)
  {
    GroupValuesSmall(head);
    GroupValuesSmall(tail);
  }

  lemma ElidedParse(s: Text, k: nat, rest: Text, h: seq<Text>, t: seq<Text>)
    requires FirstDouble(s) == k < |s| && Pieces(s[..k]) == h && s[k + 2..] == rest
    requires Pieces(rest[..FirstDouble(rest)]) == t
    ensures ParseGroups(s) == FilledUp(h, t)
  {
  }

  function QuadGroups(quad: Option<Quad>): seq<Text> {
    match quad
    case None => []
    case Some(q) => [Hex(q[0] * 256 + q[1]), Hex(q[2] * 256 + q[3])]
  }

  function Front(f: Form): seq<Text> {
    if f.elided then f.head else f.head + QuadGroups(f.quad)
  }

  function Back(f: Form): seq<Text> {
    if f.elided then f.tail + QuadGroups(f.quad) else f.tail
  }

  lemma QuadGroupsRead(quad: Option<Quad>)
    ensures AllGroups(QuadGroups(quad)) && PieceValues(QuadGroups(quad)) == QuadHextets(quad)
  {
    if quad.Some? {
      var q := quad.value;
      var a, b := q[0] * 256 + q[1], q[2] * 256 + q[3];
      HexReadsBack(a);
      HexReadsBack(b);
      HexShort(a);
      HexShort(b);
      assert [Hex(a), Hex(b)][1..] == [Hex(b)];
      assert PieceValues([Hex(b)]) == [b];
    }
  }

  lemma {:induction false} PieceValuesConcat(a: seq<Text>, b: seq<Text>)
    requires (forall i :: 0 <= i < |a| ==> IsHex(a[i])) && forall i :: 0 <= i < |b| ==> IsHex(b[i])
    ensures PieceValues(a + b) == PieceValues(a) + PieceValues(b)
  {
    if a == [] {
      assert a + b == b;
    } else {
      PieceValuesConcat(a[1..], b);
      assert (a + b)[1..] == a[1..] + b;
    }
  }

  lemma JoinTwoMore(ps: seq<Text>, x: Text, y: Text)
    requires ps != []
    ensures Join(ps + [x, y], COLON) == Join(ps, COLON) + ([COLON] + x) + ([COLON] + y)
  {
    assert ps + [x, y] == (ps + [x]) + [y];
    JoinAppend(ps, COLON, x);
    JoinAppend(ps + [x], COLON, y);
  }

  /** The texts of a quad and of the two groups it stands for. */
  predicate QuadTexts(q: Quad, quad: Text, x: Text, y: Text) {
    quad == QuadText(q) && x == Hex(q[0] * 256 + q[1]) && y == Hex(q[2] * 256 + q[3])
  }

  lemma ExpandQuadAfter(p: Text, q: Quad, quad: Text, x: Text, y: Text)
    requires QuadTexts(q, quad, x, y)
    ensures ExpandQuad(p + ([COLON] + quad)) == p + ([COLON] + x) + ([COLON] + y)
  {
    ExpandQuadAt(p, q);
    Regroup(p, [COLON], QuadText(q));
    Regroup(p, [COLON], x);
    Regroup(p + [COLON] + x, [COLON], y);
  }

  lemma ExpandBody(f: Form)
    requires Legal(f)
    ensures ExpandQuad(Body(f)) == PlainBody(Front(f), f.elided, Back(f))
  {
    if f.quad.None? {
      assert f.head + [] == f.head && f.tail + [] == f.tail;
      assert Body(f) == PlainBody(f.head, f.elided, f.tail);
      GroupUnits(f.head, DOT);
      GroupUnits(f.tail, DOT);
      NoDotNotExpanded(Body(f));
    } else {
      var q := f.quad.value;
      ExpandQuadBody(f, q, QuadText(q), Hex(q[0] * 256 + q[1]), Hex(q[2] * 256 + q[3]));
    }
  }

  lemma TailTexts(h: Text, t: Text, quad: Text, x: Text, y: Text)
    ensures h + ([COLON, COLON] + t) + ([COLON] + quad) == h + ([COLON, COLON] + (t + ([COLON] + quad)))
    ensures h + ([COLON, COLON] + t) + ([COLON] + x) + ([COLON] + y)
         == h + ([COLON, COLON] + (t + ([COLON] + x) + ([COLON] + y)))
  {
  }

  lemma NoTailTexts(h: Text, quad: Text, x: Text, y: Text)
    ensures h + [COLON] + ([COLON] + quad) == h + ([COLON, COLON] + quad)
    ensures h + [COLON] + ([COLON] + x) + ([COLON] + y) == h + ([COLON, COLON] + Join([x, y], COLON))
  {
    assert [x, y][1..] == [y];
    assert Join([x, y], COLON) == x + [COLON] + y;
  }

  lemma ExpandFull(head: seq<Text>, q: Quad, quad: Text, x: Text, y: Text)
    requires head != [] && QuadTexts(q, quad, x, y)
    ensures ExpandQuad(Join(head + [quad], COLON)) == Join(head + [x, y], COLON)
  {
    JoinAppend(head, COLON, quad);
    JoinTwoMore(head, x, y);
    ExpandQuadAfter(Join(head, COLON), q, quad, x, y);
  }

  lemma QuadBodyTexts(f: Form, q: Quad, quad: Text, x: Text, y: Text)
    requires f.quad == Some(q) && QuadTexts(q, quad, x, y)
    ensures Body(f) == if f.elided then Join(f.head, COLON) + ([COLON, COLON] + Join(f.tail + [quad], COLON))
                       else Join(f.head + [quad], COLON)
    ensures PlainBody(Front(f), f.elided, Back(f))
         == if f.elided then Join(f.head, COLON) + ([COLON, COLON] + Join(f.tail + [x, y], COLON))
            else Join(f.head + [x, y], COLON)
  {
    assert LastGroup(f.quad) == [quad] && QuadGroups(f.quad) == [x, y];
  }

  lemma ExpandElided(h: Text, tail: seq<Text>, q: Quad, quad: Text, x: Text, y: Text)
    requires QuadTexts(q, quad, x, y)
    ensures ExpandQuad(h + ([COLON, COLON] + Join(tail + [quad], COLON)))
         == h + ([COLON, COLON] + Join(tail + [x, y], COLON))
  {
    if tail == [] {
      ExpandWithoutTail(h, q, quad, x, y);
      assert tail + [quad] == [quad] && tail + [x, y] == [x, y];
    } else {
      ExpandWithTail(h, tail, q, quad, x, y);
    }
  }

  lemma ExpandQuadBody(f: Form, q: Quad, quad: Text, x: Text, y: Text)
    requires Legal(f) && f.quad == Some(q) && QuadTexts(q, quad, x, y)
    ensures ExpandQuad(Body(f)) == PlainBody(Front(f), f.elided, Back(f))
  {
    QuadBodyTexts(f, q, quad, x, y);
    if f.elided {
      ExpandElided(Join(f.head, COLON), f.tail, q, quad, x, y);
    } else {
      ExpandFull(f.head, q, quad, x, y);
    }
  }

  lemma ExpandWithoutTail(h: Text, q: Quad, quad: Text, x: Text, y: Text)
    requires QuadTexts(q, quad, x, y)
    ensures ExpandQuad(h + ([COLON, COLON] + quad)) == h + ([COLON, COLON] + Join([x, y], COLON))
  {
    ExpandQuadAfter(h + [COLON], q, quad, x, y);
    NoTailTexts(h, quad, x, y);
  }

  lemma ExpandWithTail(h: Text, tail: seq<Text>, q: Quad, quad: Text, x: Text, y: Text)
    requires tail != [] && QuadTexts(q, quad, x, y)
    ensures ExpandQuad(h + ([COLON, COLON] + Join(tail + [quad], COLON)))
         == h + ([COLON, COLON] + Join(tail + [x, y], COLON))
  {
    var t := Join(tail, COLON);
    JoinAppend(tail, COLON, quad);
    JoinTwoMore(tail, x, y);
    ExpandQuadAfter(h + ([COLON, COLON] + t), q, quad, x, y);
    TailTexts(h, t, quad, x, y);
  }

  lemma ElidedAddress(f: Form)
    requires Legal(f) && f.elided
    ensures AllGroups(Back(f)) && |f.head| + |Back(f)| <= 7
    ensures PieceValues(f.head) + Zeros(8 - |f.head| - |Back(f)|) + PieceValues(Back(f)) == Address(f)
  {
    QuadGroupsRead(f.quad);
    PieceValuesConcat(f.tail, QuadGroups(f.quad));
  }

  lemma FullAddress(f: Form)
    requires Legal(f) && !f.elided
    ensures AllGroups(Front(f)) && |Front(f)| == 8 && PieceValues(Front(f)) == Address(f)
  {
    QuadGroupsRead(f.quad);
    PieceValuesConcat(f.head, QuadGroups(f.quad));
    assert PieceValues(f.tail) + QuadHextets(f.quad) == QuadHextets(f.quad);
  }

  lemma BodyReadsBack(f: Form)
    requires Legal(f)
    ensures ParseGroups(ExpandQuad(Body(f))) == Some(Address(f))
  {
    ExpandBody(f);
    if f.elided {
      ElidedAddress(f);
      ElidedReadsBack(f.head, Back(f));
    } else {
      FullAddress(f);
      FullReadsBack(Front(f));
    }
  }

  function LowerForm(f: Form): Form {
    Form(LowerAll(f.head), f.elided, LowerAll(f.tail), f.quad, None)
  }

  lemma {:induction false} LowerAllAppend(ps: seq<Text>, last: Text)
    ensures LowerAll(ps + [last]) == LowerAll(ps) + [Lower(last)]
  {
  }

  lemma LowerGroupList(ps: seq<Text>, quad: Option<Quad>)
    ensures Lower(Join(ps + LastGroup(quad), COLON)) == Join(LowerAll(ps) + LastGroup(quad), COLON)
  {
    LowerJoin(ps + LastGroup(quad));
    if quad.Some? {
      QuadUnits(quad.value);
      PlainLower(QuadText(quad.value));
      LowerAllAppend(ps, QuadText(quad.value));
    } else {
      assert ps + [] == ps && LowerAll(ps) + [] == LowerAll(ps);
    }
  }

  lemma LowerBody(f: Form)
    requires Legal(f)
    ensures Lower(Body(f)) == Body(LowerForm(f))
    ensures Legal(LowerForm(f)) && Address(LowerForm(f)) == Address(f)
  {
    LowerGroups(f.head);
    LowerGroups(f.tail);
    if f.elided {
      LowerJoin(f.head);
      LowerGroupList(f.tail, f.quad);
      var x, y := Join(f.head, COLON), Join(f.tail + LastGroup(f.quad), COLON);
      LowerConcat(x, [COLON, COLON] + y);
      LowerConcat([COLON, COLON], y);
      assert Lower([COLON, COLON]) == [COLON, COLON];
    } else {
      LowerGroupList(f.head, f.quad);
    }
  }

  /** A body holds only hex digits, dots and colons. */
  lemma BodyUnits(f: Form, c: Unit)
    requires Legal(f) && HexDigitValue(c).None? && c != COLON && c != DOT
    ensures c !in Body(f)
  {
    BodyPartUnits(f.head, f.quad, c);
    BodyPartUnits(f.tail, f.quad, c);
    GroupUnits(f.head, c);
  }

  lemma BodyPartUnits(ps: seq<Text>, quad: Option<Quad>, c: Unit)
    requires AllGroups(ps) && HexDigitValue(c).None? && c != COLON && c != DOT
    ensures c !in Join(ps + LastGroup(quad), COLON)
  {
    var all := ps + LastGroup(quad);
    forall i | 0 <= i < |all|
      ensures c !in all[i]
    {
      if i < |ps| {
        assert all[i] == ps[i] && IsGroup(ps[i]);
      } else {
        QuadUnits(quad.value);
        assert all[i] == QuadText(quad.value);
      }
    }
    JoinLacks(all, COLON, c);
  }

  lemma NoBrackets(f: Form)
    requires Legal(f)
    ensures StripBrackets(Render(f)) == Render(f)
  {
    BodyUnits(f, OPEN);
    BodyUnits(f, CLOSE);
    var s := Render(f);
    forall i | 0 <= i < |s|
      ensures s[i] != OPEN && s[i] != CLOSE
    {
      if i < |Body(f)| {
        assert s[i] == Body(f)[i];
      }
    }
  }

  /** The text that is left once brackets and zone are gone. */
  lemma LowerRender(f: Form)
    requires Legal(f)
    ensures StripBrackets(Render(f)) == Render(f)
    ensures Split(Lower(Render(f)), PERCENT)[0] == Body(LowerForm(f))
  {
    var g := LowerForm(f);
    NoBrackets(f);
    LowerBody(f);
    BodyUnits(g, PERCENT);
    if f.zone.Some? {
      LowerZone(Body(f), Body(g), f.zone.value);
    } else {
      assert Render(f) == Body(f) + [] == Body(f);
      SplitPlain(Body(g), PERCENT);
    }
  }

  lemma LowerZone(body: Text, lowered: Text, zone: Text)
    requires Lower(body) == lowered && PERCENT !in lowered
    ensures Split(Lower(body + ([PERCENT] + zone)), PERCENT)[0] == lowered
  {
    LowerConcat(body, [PERCENT] + zone);
    LowerConcat([PERCENT], zone);
    assert Lower([PERCENT]) == [PERCENT];
    Regroup(lowered, [PERCENT], Lower(zone));
    SplitFirst(lowered, Lower(zone), PERCENT);
  }

  /** Every legal text form of an IPv6 address reads as the eight numbers of that address. */
  lemma HextetsOfLegal(f: Form)
    requires Legal(f)
    ensures ParseHextets(Render(f)) == Some(Address(f))
  {
    LowerRender(f);
    LowerBody(f);
    BodyReadsBack(LowerForm(f));
  }
}
