/** Subjects of a conversation with their reply and forward prefixes peeled off. */
module Subjects {
  import opened Prelude
  import opened Texts

  const MAX_STRIPS := 10
  const COLON: Unit := 58
  const OPEN: Unit := 91
  const CLOSE: Unit := 93

  function TrimStart(s: Text): (r: Text)
    ensures |r| <= |s| && (r != [] ==> !IsSpace(r[0])) && (s != [] && !IsSpace(s[0]) ==> r == s)
  {
    if s != [] && IsSpace(s[0]) then TrimStart(s[1..]) else s
  }

  function TrimEnd(s: Text): (r: Text)
    ensures |r| <= |s| && (r != [] ==> !IsSpace(r[|r| - 1])) && (s != [] && !IsSpace(s[|s| - 1]) ==> r == s)
    ensures r <= s
  {
    if s != [] && IsSpace(s[|s| - 1]) then TrimEnd(s[..|s| - 1]) else s
  }

  function Trim(s: Text): (r: Text)
    ensures |r| <= |s|
    ensures r != [] ==> !IsSpace(r[0]) && !IsSpace(r[|r| - 1])
  {
    TrimEnd(TrimStart(s))
  }

  /** How many of the first units are spaces. */
  function Spaces(s: Text): (n: nat)
    ensures n <= |s|
  {
    if s != [] && IsSpace(s[0]) then 1 + Spaces(s[1..]) else 0
  }

  function Digits(s: Text): (n: nat)
    ensures n <= |s|
  {
    if s != [] && IsDigit(s[0]) then 1 + Digits(s[1..]) else 0
  }

  /** The length of a leading `re`, `fw` or `fwd` in any case, or 0. */
  function WordLength(s: Text): (n: nat)
    ensures n <= |s|
  {
    var t := Lower(s);
    if |s| >= 2 && t[0] == 114 && t[1] == 101 then 2
    else if |s| >= 3 && t[0] == 102 && t[1] == 119 && t[2] == 100 then 3
    else if |s| >= 2 && t[0] == 102 && t[1] == 119 then 2
    else 0
  }

  /** A counter such as `[12]`, or nothing. */
  function CounterLength(s: Text): (n: nat)
    ensures n <= |s|
  {
    if s == [] || s[0] != OPEN then 0
    else
      var d := Digits(s[1..]);
      if d >= 1 && d + 1 < |s| && s[d + 1] == CLOSE then d + 2 else 0
  }

  /** The length of one leading prefix with its colon and the spaces around it, or 0. */
  function PrefixLength(s: Text): (n: nat)
    ensures n <= |s|
  {
    var w := WordLength(s);
    if w == 0 then 0
    else
      var a := w + Spaces(s[w..]);
      var b := a + CounterLength(s[a..]);
      var c := b + Spaces(s[b..]);
      if c < |s| && s[c] == COLON then c + 1 + Spaces(s[c + 1..]) else 0
  }

  /** One prefix off a trimmed subject, and the rest trimmed. */
  function Peel(s: Text): (r: Option<Text>)
    ensures r.Some? ==> |r.value| < |s| && r.value == Trim(r.value)
  {
    if PrefixLength(s) == 0 then None
    else
      TrimAgain(s[PrefixLength(s)..]);
      Some(Trim(s[PrefixLength(s)..]))
  }

  lemma TrimAgain(s: Text)
    ensures Trim(Trim(s)) == Trim(s)
  {
  }

  // ----- Peeling, for any way to take a piece off -----------------------------------------------------

  type Peeler = Text -> Option<Text>

  ghost predicate Shortens(peel: Peeler) {
    forall s :: peel(s).Some? ==> |peel(s).value| < |s|
  }

  /** At most `n` pieces off. */
  function Strip(peel: Peeler, s: Text, n: nat): Text
    decreases n
  {
    if n == 0 then s
    else
      match peel(s)
      case None => s
      case Some(rest) => Strip(peel, rest, n - 1)
  }

  /** How many pieces come off in all. */
  ghost function Stacked(peel: Peeler, s: Text): nat
    requires Shortens(peel)
    decreases |s|
  {
    match peel(s)
    case None => 0
    case Some(rest) => 1 + Stacked(peel, rest)
  }

  lemma {:induction false} StripShortens(peel: Peeler, s: Text, n: nat)
    requires Shortens(peel)
    ensures |Strip(peel, s, n)| <= |s| && (n > 0 && peel(s).Some? ==> |Strip(peel, s, n)| < |s|)
    decreases n
  {
    if n > 0 && peel(s).Some? {
      StripShortens(peel, peel(s).value, n - 1);
    }
  }

  /** Nothing is left to peel after `n` rounds exactly when at most `n` pieces are stacked. */
  lemma {:induction false} StripFinishes(peel: Peeler, s: Text, n: nat)
    requires Shortens(peel)
    ensures peel(Strip(peel, s, n)).None? <==> Stacked(peel, s) <= n
    decreases n
  {
    if n > 0 && peel(s).Some? {
      StripFinishes(peel, peel(s).value, n - 1);
    }
  }

  lemma {:induction false} StripMore(peel: Peeler, s: Text, n: nat)
    requires Shortens(peel) && Stacked(peel, s) <= n
    ensures Strip(peel, s, n + 1) == Strip(peel, s, n)
    decreases n
  {
    if n > 0 && peel(s).Some? {
      StripMore(peel, peel(s).value, n - 1);
    }
  }

  predicate Trimmed(s: Text) {
    s == Trim(s)
  }

  ghost predicate LeavesTrimmed(peel: Peeler) {
    forall s :: peel(s).Some? ==> Trimmed(peel(s).value)
  }

  lemma FirstPeeled(peel: Peeler, s: Text, rest: Text, n: nat)
    requires Shortens(peel) && peel(s) == Some(rest) && Stacked(peel, rest) < n
    ensures Strip(peel, s, n) == Strip(peel, rest, n)
  {
    StripMore(peel, rest, n - 1);
  }

  lemma {:induction false} StripTrimmed(peel: Peeler, s: Text, n: nat)
    requires LeavesTrimmed(peel) && Trimmed(s)
    ensures Trimmed(Strip(peel, s, n))
    decreases n
  {
    if n > 0 && peel(s).Some? {
      StripTrimmed(peel, peel(s).value, n - 1);
    }
  }

  // ----- Subjects -----------------------------------------------------------------------------------------

  lemma PeelShortens()
    ensures Shortens(Peel) && LeavesTrimmed(Peel)
  {
  }

  /** How many prefixes are stacked in front of a subject. */
  ghost function PrefixCount(subject: Text): nat {
    PeelShortens();
    Stacked(Peel, Trim(subject))
  }

  function Stripped(subject: Text): Text {
    Strip(Peel, Trim(subject), MAX_STRIPS)
  }

  function BaseSubject(subject: Text): Text {
    Lower(Stripped(subject))
  }

  function DisplaySubject(subject: Text): Text {
    if Stripped(subject) == [] then Trim(subject) else Stripped(subject)
  }

  method PeelPrefixes(subject: Text, rounds: nat) returns (s: Text)
    ensures s == Strip(Peel, Trim(subject), rounds)
  {
    s := Trim(subject);
    for i := 0 to rounds
      invariant Strip(Peel, Trim(subject), rounds) == Strip(Peel, s, rounds - i)
    {
      var next := Peel(s);
      if next.None? {
        break;
      }
      s := next.value;
    }
  }

  /** The base of what is displayed is the base of what came in, exactly when peeling reached the end. */
  lemma DisplayKeepsBaseAt(peel: Peeler, t: Text, n: nat)
    requires Shortens(peel) && n > 0
    ensures var x := Strip(peel, t, n);
            Lower(Strip(peel, if x == [] then t else x, n)) == Lower(x) <==> Stacked(peel, t) <= n
  {
    var x := Strip(peel, t, n);
    StripFinishes(peel, t, n);
    StripShortens(peel, x, n);
    if x != [] && peel(x).Some? {
      assert |Lower(Strip(peel, x, n))| < |Lower(x)|;
    }
  }

  /** A thread's displayed subject has the base of the subject it was made from, exactly up to ten prefixes. */
  lemma DisplayKeepsBase(subject: Text)
    ensures BaseSubject(DisplaySubject(subject)) == BaseSubject(subject) <==> PrefixCount(subject) <= MAX_STRIPS
  {
    var t, limit: nat := Trim(subject), MAX_STRIPS;
    TrimAgain(subject);
    PeelShortens();
    DisplayKeepsBaseAt(Peel, t, limit);
    StripTrimmed(Peel, t, limit);
  }

  /** Replying to or forwarding a subject does not change its base, as long as all prefixes can be peeled off. */
  lemma ReplyKeepsBase(subject: Text, reply: Text)
    requires Peel(Trim(reply)) == Some(Trim(subject)) && PrefixCount(subject) < MAX_STRIPS
    ensures BaseSubject(reply) == BaseSubject(subject)
  {
    PeelShortens();
    FirstPeeled(Peel, Trim(reply), Trim(subject), MAX_STRIPS);
  }

  // ----- Stacked replies ----------------------------------------------------------------------------------

  /** `re:` stacked `n` times in front of `x`. */
  function Replies(n: nat): Text {
    if n == 0 then [120] else [114, 101, COLON] + Replies(n - 1)
  }

  lemma ReplyPrefix(rest: Text)
    requires rest != [] && !IsSpace(rest[0])
    ensures PrefixLength([114, 101, COLON] + rest) == 3
  {
    var s := [114, 101, COLON] + rest;
    assert Lower(s)[0] == 114 && Lower(s)[1] == 101;
    assert s[2..] == [COLON] + rest && s[3..] == rest;
    assert Spaces(s[2..]) == 0 && CounterLength(s[2..]) == 0 && Spaces(s[3..]) == 0;
  }

  lemma TrimPlain(s: Text)
    requires s != [] && !IsSpace(s[0]) && !IsSpace(s[|s| - 1])
    ensures Trim(s) == s
  {
  }

  lemma {:induction false} RepliesPlain(n: nat)
    ensures var s := Replies(n); s != [] && !IsSpace(s[0]) && !IsSpace(s[|s| - 1])
  {
    if n > 0 {
      RepliesPlain(n - 1);
    }
  }

  lemma PeelReply(rest: Text)
    requires rest != [] && !IsSpace(rest[0]) && !IsSpace(rest[|rest| - 1])
    ensures Peel([114, 101, COLON] + rest) == Some(rest)
  {
    ReplyPrefix(rest);
    assert ([114, 101, COLON] + rest)[3..] == rest;
    TrimPlain(rest);
  }

  lemma PeelNoReply()
    ensures Peel([120]) == None
  {
    assert Lower([120])[0] == 120;
  }

  ghost predicate PeelsReplies(peel: Peeler) {
    peel(Replies(0)) == None && forall k: nat :: k > 0 ==> peel(Replies(k)) == Some(Replies(k - 1))
  }

  lemma PeelPeelsReplies()
    ensures PeelsReplies(Peel)
  {
    PeelNoReply();
    forall k: nat | k > 0
      ensures Peel(Replies(k)) == Some(Replies(k - 1))
    {
      RepliesPlain(k - 1);
      PeelReply(Replies(k - 1));
    }
  }

  lemma {:induction false} RepliesStacked(peel: Peeler, n: nat)
    requires Shortens(peel) && PeelsReplies(peel)
    ensures Stacked(peel, Replies(n)) == n
  {
    if n > 0 {
      RepliesStacked(peel, n - 1);
      assert peel(Replies(n)) == Some(Replies(n - 1));
    }
  }

  /** Eleven stacked replies are enough to lose the base. */
  lemma ElevenRepliesLoseBase()
    ensures BaseSubject(DisplaySubject(Replies(11))) != BaseSubject(Replies(11))
  {
    var n: nat := 11;
    RepliesPlain(n);
    TrimPlain(Replies(n));
    PeelShortens();
    PeelPeelsReplies();
    RepliesStacked(Peel, n);
    DisplayKeepsBase(Replies(n));
  }
}
