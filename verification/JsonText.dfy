/** Printing a JSON value without spaces, and reading such a text back. */
module JsonText {
  import opened Prelude
  import opened Texts
  import opened CanonicalJson

  // ----- Strings ------------------------------------------------------------------------------

  predicate IsHigh(c: Unit) {
    0xD800 <= c <= 0xDBFF
  }

  predicate IsLow(c: Unit) {
    0xDC00 <= c <= 0xDFFF
  }

  function HexEscape(c: Unit): Text {
    [BACKSLASH, 117, HexDigit(c / 4096), HexDigit(c / 256 % 16), HexDigit(c / 16 % 16), HexDigit(c % 16)]
  }

  /** One code unit that is not part of a surrogate pair. */
  function EscapeUnit(c: Unit): Text {
    if c == QUOTE then [BACKSLASH, QUOTE]
    else if c == BACKSLASH then [BACKSLASH, BACKSLASH]
    else if c == 8 then [BACKSLASH, 98]
    else if c == 9 then [BACKSLASH, 116]
    else if c == 10 then [BACKSLASH, 110]
    else if c == 12 then [BACKSLASH, 102]
    else if c == 13 then [BACKSLASH, 114]
    else if c < 32 || IsHigh(c) || IsLow(c) then HexEscape(c)
    else [c]
  }

  /** Surrogate pairs are kept, unpaired surrogates are escaped. */
  function Escape(t: Text): Text {
    if t == [] then []
    else if |t| >= 2 && IsHigh(t[0]) && IsLow(t[1]) then t[..2] + Escape(t[2..])
    else EscapeUnit(t[0]) + Escape(t[1..])
  }

  function Quote(t: Text): Text {
    [QUOTE] + Escape(t) + [QUOTE]
  }

  /** One escape or plain unit of a string body, and what follows it. */
  function ReadUnit(s: Text): (r: Option<(Unit, Text)>)
    requires s != [] && s[0] != QUOTE
    ensures r.Some? ==> |r.value.1| < |s|
  {
    if s[0] < 32 then None
    else if s[0] != BACKSLASH then Some((s[0], s[1..]))
    else if |s| < 2 then None
    else if s[1] == QUOTE || s[1] == BACKSLASH || s[1] == 47 then Some((s[1], s[2..]))
    else if s[1] == 98 then Some((8, s[2..]))
    else if s[1] == 116 then Some((9, s[2..]))
    else if s[1] == 110 then Some((10, s[2..]))
    else if s[1] == 102 then Some((12, s[2..]))
    else if s[1] == 114 then Some((13, s[2..]))
    else if s[1] == 117 && |s| >= 6 then
      var a, b, c, d := HexDigitValue(s[2]), HexDigitValue(s[3]), HexDigitValue(s[4]), HexDigitValue(s[5]);
      if a.Some? && b.Some? && c.Some? && d.Some?
      then Some((((a.value * 16 + b.value) * 16 + c.value) * 16 + d.value, s[6..]))
      else None
    else None
  }

  /** The body of a string up to its closing quote, and what follows the quote. */
  function ReadBody(s: Text): (r: Option<(Text, Text)>)
    ensures r.Some? ==> |r.value.1| < |s|
    decreases |s|
  {
    if s == [] then None
    else if s[0] == QUOTE then Some(([], s[1..]))
    else
      match ReadUnit(s)
      case None => None
      case Some((c, rest)) =>
        match ReadBody(rest)
        case None => None
        case Some((t, after)) => Some(([c] + t, after))
  }

  lemma HexEscapeReadsBack(c: Unit, rest: Text)
    ensures ReadUnit(HexEscape(c) + rest) == Some((c, rest))
  {
    var s := HexEscape(c) + rest;
    var a: nat, b: nat := c / 16, c / 256;
    assert c == a * 16 + c % 16 && a == b * 16 + a % 16 && b == b / 16 * 16 + b % 16;
    assert c / 4096 == b / 16 && c / 256 % 16 == b % 16 && c / 16 % 16 == a % 16;
    assert s[6..] == rest;
  }

  lemma UnitReadsBack(c: Unit, rest: Text)
    ensures EscapeUnit(c) != [] && EscapeUnit(c)[0] != QUOTE
    ensures ReadUnit(EscapeUnit(c) + rest) == Some((c, rest))
  {
    if EscapeUnit(c) == HexEscape(c) {
      HexEscapeReadsBack(c, rest);
    } else {
      var s := EscapeUnit(c) + rest;
      assert s[|EscapeUnit(c)|..] == rest;
    }
  }

  lemma BodyStep(s: Text, c: Unit, tail: Text, t: Text, rest: Text)
    requires s != [] && s[0] != QUOTE && ReadUnit(s) == Some((c, tail))
    requires ReadBody(tail) == Some((t, rest))
    ensures ReadBody(s) == Some(([c] + t, rest))
  {
  }

  lemma PlainReadsBack(c: Unit, tail: Text)
    requires c >= 32 && c != QUOTE && c != BACKSLASH
    ensures ReadUnit([c] + tail) == Some((c, tail))
  {
    assert ([c] + tail)[1..] == tail;
  }

  lemma PairRegroup(a: Unit, b: Unit, e: Text, end: Text)
    ensures [a, b] + e + end == [a] + ([b] + (e + end))
  {
  }

  lemma {:induction false} BodyReadsBack(t: Text, end: Text)
    requires end != [] && end[0] == QUOTE
    ensures ReadBody(Escape(t) + end) == Some((t, end[1..]))
  {
    if t == [] {
      assert Escape(t) + end == end;
    } else if |t| >= 2 && IsHigh(t[0]) && IsLow(t[1]) {
      var tail := Escape(t[2..]) + end;
      BodyReadsBack(t[2..], end);
      assert t[..2] == [t[0], t[1]];
      PairRegroup(t[0], t[1], Escape(t[2..]), end);
      assert t == [t[0]] + ([t[1]] + t[2..]);
      PlainReadsBack(t[1], tail);
      BodyStep([t[1]] + tail, t[1], tail, t[2..], end[1..]);
      PlainReadsBack(t[0], [t[1]] + tail);
      BodyStep([t[0]] + ([t[1]] + tail), t[0], [t[1]] + tail, [t[1]] + t[2..], end[1..]);
    } else {
      var tail := Escape(t[1..]) + end;
      BodyReadsBack(t[1..], end);
      Regroup(EscapeUnit(t[0]), Escape(t[1..]), end);
      assert t == [t[0]] + t[1..];
      UnitReadsBack(t[0], tail);
      BodyStep(EscapeUnit(t[0]) + tail, t[0], tail, t[1..], end[1..]);
    }
  }

  // ----- Values ---------------------------------------------------------------------------------

  function Print(v: Json): Text {
    match v
    case Null => NULL
    case Bool(b) => if b then TRUE else FALSE
    case Num(t) => t
    case Str(t) => Quote(t)
    case Arr(xs) => [OPEN_LIST] + (if xs == [] then [] else PrintItems(xs)) + [CLOSE_LIST]
    case Obj(ms) => [OPEN_OBJECT] + (if ms == [] then [] else PrintMembers(ms)) + [CLOSE_OBJECT]
  }

  function PrintItems(xs: seq<Json>): Text
    requires xs != []
  {
    Print(xs[0]) + (if |xs| == 1 then [] else [COMMA] + PrintItems(xs[1..]))
  }

  function PrintMembers(ms: seq<Member>): Text
    requires ms != []
  {
    Quote(ms[0].key) + [COLON] + Print(ms[0].value) + (if |ms| == 1 then [] else [COMMA] + PrintMembers(ms[1..]))
  }

  /** How many leading characters of `s` can belong to a number. */
  function NumberLength(s: Text): (n: nat)
    ensures n <= |s|
  {
    if s == [] || !IsNumberChar(s[0]) then 0 else 1 + NumberLength(s[1..])
  }

  function ParseValue(s: Text): (r: Option<(Json, Text)>)
    ensures r.Some? ==> |r.value.1| < |s|
    decreases |s|, 0
  {
    if s == [] then None
    else if s[0] == OPEN_LIST then
      if |s| >= 2 && s[1] == CLOSE_LIST then Some((Arr([]), s[2..]))
      else
        match ParseItems(s[1..])
        case None => None
        case Some((xs, rest)) => Some((Arr(xs), rest))
    else if s[0] == OPEN_OBJECT then
      if |s| >= 2 && s[1] == CLOSE_OBJECT then Some((Obj([]), s[2..]))
      else
        match ParseMembers(s[1..])
        case None => None
        case Some((ms, rest)) => Some((Obj(ms), rest))
    else ParseAtom(s)
  }

  function ParseAtom(s: Text): (r: Option<(Json, Text)>)
    ensures r.Some? ==> |r.value.1| < |s|
  {
    if |s| >= 1 && s[0] == QUOTE then
      match ReadBody(s[1..])
      case None => None
      case Some((t, rest)) => Some((Str(t), rest))
    else if |s| >= 4 && s[..4] == NULL then Some((Null, s[4..]))
    else if |s| >= 4 && s[..4] == TRUE then Some((Bool(true), s[4..]))
    else if |s| >= 5 && s[..5] == FALSE then Some((Bool(false), s[5..]))
    else
      var n := NumberLength(s);
      if IsNumber(s[..n]) then Some((Num(s[..n]), s[n..])) else None
  }

  /** Values separated by commas, up to and including the closing bracket. */
  function ParseItems(s: Text): (r: Option<(seq<Json>, Text)>)
    ensures r.Some? ==> |r.value.1| < |s|
    decreases |s|, 1
  {
    match ParseValue(s)
    case None => None
    case Some((x, rest)) =>
      if rest == [] then None
      else if rest[0] == CLOSE_LIST then Some(([x], rest[1..]))
      else if rest[0] != COMMA then None
      else
        match ParseItems(rest[1..])
        case None => None
        case Some((xs, after)) => Some(([x] + xs, after))
  }

  /** A key, a colon and what follows. */
  function ParseKey(s: Text): (r: Option<(Text, Text)>)
    ensures r.Some? ==> |r.value.1| < |s|
  {
    if s == [] || s[0] != QUOTE then None
    else
      match ReadBody(s[1..])
      case None => None
      case Some((k, rest)) => if rest == [] || rest[0] != COLON then None else Some((k, rest[1..]))
  }

  function ParseMembers(s: Text): (r: Option<(seq<Member>, Text)>)
    ensures r.Some? ==> |r.value.1| < |s|
    decreases |s|, 1
  {
    match ParseKey(s)
    case None => None
    case Some((k, s1)) =>
      match ParseValue(s1)
      case None => None
      case Some((v, rest)) =>
        if rest == [] then None
        else if rest[0] == CLOSE_OBJECT then Some(([Member(k, v)], rest[1..]))
        else if rest[0] != COMMA then None
        else
          match ParseMembers(rest[1..])
          case None => None
          case Some((ms, after)) => Some(([Member(k, v)] + ms, after))
  }

  function Parse(s: Text): Option<Json> {
    match ParseValue(s)
    case None => None
    case Some((v, rest)) => if rest == [] then Some(v) else None
  }

  // ----- Printing is unambiguous ------------------------------------------------------------------

  /** What may follow a value: nothing, or a character that no number contains. */
  predicate Delimited(rest: Text) {
    rest == [] || !IsNumberChar(rest[0])
  }

  lemma {:induction false} NumberLengthExact(t: Text, rest: Text)
    requires Delimited(rest) && forall i :: 0 <= i < |t| ==> IsNumberChar(t[i])
    ensures NumberLength(t + rest) == |t|
  {
    if t == [] {
      assert t + rest == rest;
    } else {
      assert (t + rest)[1..] == t[1..] + rest;
      NumberLengthExact(t[1..], rest);
    }
  }

  lemma QuoteSplit(t: Text, rest: Text)
    ensures Quote(t) + rest == [QUOTE] + (Escape(t) + ([QUOTE] + rest))
  {
    var e := Escape(t);
    Regroup([QUOTE] + e, [QUOTE], rest);
    Regroup([QUOTE], e, [QUOTE] + rest);
  }

  lemma StringStep(s: Text, t: Text, rest: Text)
    requires s != [] && s[0] == QUOTE && ReadBody(s[1..]) == Some((t, rest))
    ensures ParseValue(s) == Some((Str(t), rest))
  {
  }

  lemma StringReadsBack(t: Text, rest: Text)
    ensures ParseValue(Quote(t) + rest) == Some((Str(t), rest))
  {
    var end := [QUOTE] + rest;
    BodyReadsBack(t, end);
    QuoteSplit(t, rest);
    var body := Escape(t) + end;
    assert ([QUOTE] + body)[1..] == body && end[1..] == rest;
    StringStep([QUOTE] + body, t, rest);
  }

  lemma KeyStep(body: Text, k: Text, rest: Text)
    requires ReadBody(body) == Some((k, [COLON] + rest))
    ensures ParseKey([QUOTE] + body) == Some((k, rest))
  {
    assert ([QUOTE] + body)[1..] == body && ([COLON] + rest)[1..] == rest;
  }

  lemma KeyReadsBack(k: Text, rest: Text)
    ensures ParseKey(Quote(k) + ([COLON] + rest)) == Some((k, rest))
  {
    var end := [QUOTE] + ([COLON] + rest);
    BodyReadsBack(k, end);
    QuoteSplit(k, [COLON] + rest);
    assert end[1..] == [COLON] + rest;
    KeyStep(Escape(k) + end, k, rest);
  }

  lemma NumberReadsBack(t: Text, rest: Text)
    requires IsNumber(t) && Delimited(rest)
    ensures ParseValue(t + rest) == Some((Num(t), rest))
  {
    NumberLengthExact(t, rest);
    var s := t + rest;
    assert s[0] == t[0] && s[..|t|] == t && s[|t|..] == rest;
    assert |s| >= 4 ==> s[..4][0] == t[0];
    assert |s| >= 5 ==> s[..5][0] == t[0];
  }

  lemma WordReadsBack(v: Json, rest: Text)
    requires v.Null? || v.Bool?
    ensures ParseValue(Print(v) + rest) == Some((v, rest))
  {
    var s := Print(v) + rest;
    assert s[|Print(v)|..] == rest && s[..|Print(v)|] == Print(v);
    assert s[0] == Print(v)[0];
    assert |s| >= 4 && s[..4][0] == s[0];
  }

  /** A printed value starts with none of the characters that close or separate. */
  lemma PrintStart(v: Json)
    requires Valid(v)
    ensures Print(v) != [] && Print(v)[0] != CLOSE_LIST && Print(v)[0] != CLOSE_OBJECT
  {
    if v.Num? {
      assert IsNumberChar(v.token[0]);
    }
  }

  lemma {:induction false} ValueReadsBack(v: Json, rest: Text)
    requires Valid(v) && Delimited(rest)
    ensures ParseValue(Print(v) + rest) == Some((v, rest))
    decreases v
  {
    match v
    case Num(t) => NumberReadsBack(t, rest);
    case Str(t) => StringReadsBack(t, rest);
    case Arr(xs) => ListReadsBack(xs, rest);
    case Obj(ms) => ObjectReadsBack(ms, rest);
    case _ => WordReadsBack(v, rest);
  }

  lemma ListStep(s: Text, xs: seq<Json>, rest: Text)
    requires |s| >= 2 && s[0] == OPEN_LIST && s[1] != CLOSE_LIST && ParseItems(s[1..]) == Some((xs, rest))
    ensures ParseValue(s) == Some((Arr(xs), rest))
  {
  }

  lemma ItemsStep(s: Text, x: Json, rest: Text, xs: seq<Json>, after: Text)
    requires ParseValue(s) == Some((x, [COMMA] + rest)) && ParseItems(rest) == Some((xs, after))
    ensures ParseItems(s) == Some(([x] + xs, after))
  {
    assert ([COMMA] + rest)[1..] == rest;
  }

  lemma ItemsEnd(s: Text, x: Json, rest: Text)
    requires ParseValue(s) == Some((x, [CLOSE_LIST] + rest))
    ensures ParseItems(s) == Some(([x], rest))
  {
    assert ([CLOSE_LIST] + rest)[1..] == rest;
  }

  lemma PrintItemsSplit(xs: seq<Json>, end: Text)
    requires |xs| > 1
    ensures PrintItems(xs) + end == Print(xs[0]) + ([COMMA] + (PrintItems(xs[1..]) + end))
  {
    var x, more := Print(xs[0]), PrintItems(xs[1..]);
    Regroup(x, [COMMA] + more, end);
    Regroup([COMMA], more, end);
  }

  lemma PrintListSplit(xs: seq<Json>, rest: Text)
    requires xs != [] && Valid(xs[0])
    ensures var s := Print(Arr(xs)) + rest;
            |s| >= 2 && s[0] == OPEN_LIST && s[1] != CLOSE_LIST && s[1..] == PrintItems(xs) + ([CLOSE_LIST] + rest)
  {
    PrintStart(xs[0]);
    assert PrintItems(xs)[0] == Print(xs[0])[0];
  }

  lemma {:induction false} ListReadsBack(xs: seq<Json>, rest: Text)
    requires forall i :: 0 <= i < |xs| ==> Valid(xs[i])
    ensures ParseValue(Print(Arr(xs)) + rest) == Some((Arr(xs), rest))
    decreases xs, 1
  {
    var s := Print(Arr(xs)) + rest;
    if xs == [] {
      assert s[2..] == rest;
    } else {
      ItemsReadBack(xs, rest);
      PrintListSplit(xs, rest);
      ListStep(s, xs, rest);
    }
  }

  lemma {:induction false} ItemsReadBack(xs: seq<Json>, rest: Text)
    requires xs != [] && forall i :: 0 <= i < |xs| ==> Valid(xs[i])
    ensures ParseItems(PrintItems(xs) + ([CLOSE_LIST] + rest)) == Some((xs, rest))
    decreases xs, 0
  {
    var end := [CLOSE_LIST] + rest;
    assert xs == [xs[0]] + xs[1..];
    if |xs| == 1 {
      assert xs == [xs[0]] && PrintItems(xs) == Print(xs[0]);
      ValueReadsBack(xs[0], end);
      ItemsEnd(Print(xs[0]) + end, xs[0], rest);
    } else {
      var tail := PrintItems(xs[1..]) + end;
      PrintItemsSplit(xs, end);
      ItemsReadBack(xs[1..], rest);
      ValueReadsBack(xs[0], [COMMA] + tail);
      ItemsStep(Print(xs[0]) + ([COMMA] + tail), xs[0], tail, xs[1..], rest);
    }
  }

  lemma ObjectStep(s: Text, ms: seq<Member>, rest: Text)
    requires |s| >= 2 && s[0] == OPEN_OBJECT && s[1] != CLOSE_OBJECT && ParseMembers(s[1..]) == Some((ms, rest))
    ensures ParseValue(s) == Some((Obj(ms), rest))
  {
  }

  lemma MembersStep(s: Text, k: Text, s1: Text, v: Json, rest: Text, ms: seq<Member>, after: Text)
    requires ParseKey(s) == Some((k, s1)) && ParseValue(s1) == Some((v, [COMMA] + rest))
    requires ParseMembers(rest) == Some((ms, after))
    ensures ParseMembers(s) == Some(([Member(k, v)] + ms, after))
  {
    assert ([COMMA] + rest)[1..] == rest;
  }

  lemma MembersEnd(s: Text, k: Text, s1: Text, v: Json, rest: Text)
    requires ParseKey(s) == Some((k, s1)) && ParseValue(s1) == Some((v, [CLOSE_OBJECT] + rest))
    ensures ParseMembers(s) == Some(([Member(k, v)], rest))
  {
    assert ([CLOSE_OBJECT] + rest)[1..] == rest;
  }

  lemma PrintMembersSplit(ms: seq<Member>, end: Text)
    requires |ms| > 1
    ensures PrintMembers(ms) + end
         == Quote(ms[0].key) + ([COLON] + (Print(ms[0].value) + ([COMMA] + (PrintMembers(ms[1..]) + end))))
  {
    var k, v, more := Quote(ms[0].key), Print(ms[0].value), PrintMembers(ms[1..]);
    Regroup(k + [COLON] + v, [COMMA] + more, end);
    Regroup([COMMA], more, end);
    var after := [COMMA] + (more + end);
    Regroup(k + [COLON], v, after);
    Regroup(k, [COLON], v + after);
  }

  lemma PrintMemberSplit(ms: seq<Member>, end: Text)
    requires |ms| == 1
    ensures PrintMembers(ms) + end == Quote(ms[0].key) + ([COLON] + (Print(ms[0].value) + end))
  {
    var k, v := Quote(ms[0].key), Print(ms[0].value);
    assert k + [COLON] + v + [] == k + [COLON] + v;
    Regroup(k + [COLON], v, end);
    Regroup(k, [COLON], v + end);
  }

  lemma PrintObjectSplit(ms: seq<Member>, rest: Text)
    requires ms != []
    ensures var s := Print(Obj(ms)) + rest;
            && |s| >= 2 && s[0] == OPEN_OBJECT && s[1] != CLOSE_OBJECT
            && s[1..] == PrintMembers(ms) + ([CLOSE_OBJECT] + rest)
  {
    assert PrintMembers(ms)[0] == QUOTE;
  }

  lemma {:induction false} ObjectReadsBack(ms: seq<Member>, rest: Text)
    requires ValidMembers(ms)
    ensures ParseValue(Print(Obj(ms)) + rest) == Some((Obj(ms), rest))
    decreases ms, 1
  {
    var s := Print(Obj(ms)) + rest;
    if ms == [] {
      assert s[2..] == rest;
    } else {
      MembersReadBack(ms, rest);
      PrintObjectSplit(ms, rest);
      ObjectStep(s, ms, rest);
    }
  }

  lemma {:induction false} MembersReadBack(ms: seq<Member>, rest: Text)
    requires ms != [] && ValidMembers(ms)
    ensures ParseMembers(PrintMembers(ms) + ([CLOSE_OBJECT] + rest)) == Some((ms, rest))
    decreases ms, 0
  {
    var end := [CLOSE_OBJECT] + rest;
    var Member(k, v) := ms[0];
    assert ms == [ms[0]] + ms[1..];
    if |ms| == 1 {
      assert ms == [Member(k, v)];
      PrintMemberSplit(ms, end);
      ValueReadsBack(v, end);
      KeyReadsBack(k, Print(v) + end);
      MembersEnd(Quote(k) + ([COLON] + (Print(v) + end)), k, Print(v) + end, v, rest);
    } else {
      var tail := PrintMembers(ms[1..]) + end;
      var after := Print(v) + ([COMMA] + tail);
      PrintMembersSplit(ms, end);
      MembersReadBack(ms[1..], rest);
      ValueReadsBack(v, [COMMA] + tail);
      KeyReadsBack(k, after);
      MembersStep(Quote(k) + ([COLON] + after), k, after, v, tail, ms[1..], rest);
    }
  }

  /** Reading a printed value gives it back, so two values never print alike. */
  lemma PrintReadsBack(v: Json)
    requires Valid(v)
    ensures Parse(Print(v)) == Some(v)
  {
    ValueReadsBack(v, []);
    assert Print(v) + [] == Print(v);
  }
}
