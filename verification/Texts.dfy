/** Numerals, joining and splitting of texts. */
module Texts {
  import opened Prelude

  predicate IsDigit(c: Unit) {
    48 <= c <= 57
  }

  /** White space and line ends, as regular expressions and trimming see them. */
  predicate IsSpace(c: Unit) {
    9 <= c <= 13 || c == 32 || c == 0xA0 || c == 0x1680 || 0x2000 <= c <= 0x200A || c == 0x2028 || c == 0x2029
    || c == 0x202F || c == 0x205F || c == 0x3000 || c == 0xFEFF
  }

  predicate AllDigits(t: Text) {
    forall i :: 0 <= i < |t| ==> IsDigit(t[i])
  }

  function DecimalValue(t: Text): nat
    requires AllDigits(t)
  {
    if t == [] then 0
    else
      assert IsDigit(t[|t| - 1]);
      var digit: nat := t[|t| - 1];
      DecimalValue(t[..|t| - 1]) * 10 + (digit - 48)
  }

  function Decimal(n: nat): Text {
    if n < 10 then [48 + n] else Decimal(n / 10) + [48 + n % 10]
  }

  lemma {:induction false} DecimalReadsBack(n: nat)
    ensures Decimal(n) != [] && AllDigits(Decimal(n)) && DecimalValue(Decimal(n)) == n
  {
    if n >= 10 {
      DecimalReadsBack(n / 10);
      var t := Decimal(n);
      assert t[..|t| - 1] == Decimal(n / 10);
    }
  }

  function HexDigit(n: nat): Unit
    requires n < 16
  {
    if n < 10 then 48 + n else 87 + n
  }

  function HexDigitValue(c: Unit): (v: Option<nat>)
    ensures v.Some? ==> v.value < 16
  {
    if 48 <= c <= 57 then Some(c - 48)
    else if 97 <= c <= 102 then Some(c - 87)
    else if 65 <= c <= 70 then Some(c - 55)
    else None
  }

  predicate IsHex(t: Text) {
    |t| > 0 && forall i :: 0 <= i < |t| ==> HexDigitValue(t[i]).Some?
  }

  function HexValue(t: Text): (n: nat)
    requires forall i :: 0 <= i < |t| ==> HexDigitValue(t[i]).Some?
  {
    if t == [] then 0
    else
      assert HexDigitValue(t[|t| - 1]).Some?;
      HexValue(t[..|t| - 1]) * 16 + HexDigitValue(t[|t| - 1]).value
  }

  function Hex(n: nat): Text {
    if n < 16 then [HexDigit(n)] else Hex(n / 16) + [HexDigit(n % 16)]
  }

  lemma {:induction false} HexReadsBack(n: nat)
    ensures IsHex(Hex(n)) && HexValue(Hex(n)) == n
  {
    if n < 16 {
      assert Hex(n)[..0] == [];
    } else {
      HexReadsBack(n / 16);
      var t := Hex(n);
      assert t[..|t| - 1] == Hex(n / 16);
    }
  }

  lemma HexShort(n: nat)
    requires n < 0x10000
    ensures |Hex(n)| <= 4
  {
    assert n / 16 < 0x1000 && n / 16 / 16 < 0x100 && n / 16 / 16 / 16 < 16;
    assert |Hex(n / 16 / 16 / 16)| == 1;
    assert |Hex(n / 16 / 16)| <= 2;
    assert |Hex(n / 16)| <= 3;
  }

  function PowerOf16(n: nat): nat {
    if n == 0 then 1 else 16 * PowerOf16(n - 1)
  }

  lemma {:induction false} HexValueBound(t: Text)
    requires forall i :: 0 <= i < |t| ==> HexDigitValue(t[i]).Some?
    ensures HexValue(t) < PowerOf16(|t|)
  {
    if t != [] {
      HexValueBound(t[..|t| - 1]);
    }
  }

  lemma HexValueSmall(t: Text)
    requires IsHex(t) && |t| <= 4
    ensures HexValue(t) < 0x10000
  {
    HexValueBound(t);
    assert PowerOf16(1) == 16 && PowerOf16(2) == 256 && PowerOf16(3) == 4096 && PowerOf16(4) == 65536;
  }

  // ----- Lower case, for ASCII letters

  function LowerUnit(c: Unit): Unit {
    if 65 <= c <= 90 then c + 32 else c
  }

  function Lower(t: Text): Text {
    seq(|t|, i requires 0 <= i < |t| => LowerUnit(t[i]))
  }

  lemma LowerConcat(a: Text, b: Text)
    ensures Lower(a + b) == Lower(a) + Lower(b)
  {
  }

  /** Concatenation of texts is associative. */
  lemma Regroup(a: Text, b: Text, c: Text)
    ensures a + b + c == a + (b + c)
  {
  }

  // ----- Joining and splitting at a separator -----------------------------------------------------

  function Join(parts: seq<Text>, separator: Unit): Text {
    if parts == [] then []
    else if |parts| == 1 then parts[0]
    else parts[0] + [separator] + Join(parts[1..], separator)
  }

  /** All parts between separators; a text without one is its own only part. */
  function Split(s: Text, separator: Unit): (parts: seq<Text>)
    ensures parts != []
  {
    if s == [] then [[]]
    else
      var rest := Split(s[1..], separator);
      if s[0] == separator then [[]] + rest else [[s[0]] + rest[0]] + rest[1..]
  }

  lemma {:induction false} SplitPlain(s: Text, separator: Unit)
    requires separator !in s
    ensures Split(s, separator) == [s]
  {
    if s != [] {
      SplitPlain(s[1..], separator);
      assert [s[0]] + s[1..] == s;
    }
  }

  lemma {:induction false} SplitFirst(s: Text, rest: Text, separator: Unit)
    requires separator !in s
    ensures Split(s + [separator] + rest, separator) == [s] + Split(rest, separator)
  {
    var whole := s + [separator] + rest;
    if s == [] {
      assert whole[1..] == rest;
    } else {
      SplitFirst(s[1..], rest, separator);
      assert whole[1..] == s[1..] + [separator] + rest;
      assert [s[0]] + s[1..] == s;
    }
  }

  lemma {:induction false} SplitJoin(parts: seq<Text>, separator: Unit)
    requires parts != [] && forall i :: 0 <= i < |parts| ==> separator !in parts[i]
    ensures Split(Join(parts, separator), separator) == parts
  {
    if |parts| == 1 {
      SplitPlain(parts[0], separator);
    } else {
      SplitJoin(parts[1..], separator);
      SplitFirst(parts[0], Join(parts[1..], separator), separator);
    }
  }

  /** A property of units that holds in every part and of the separator holds throughout. */
  lemma {:induction false} JoinUnits(parts: seq<Text>, separator: Unit, c: Unit)
    requires c in Join(parts, separator)
    ensures c == separator || exists i :: 0 <= i < |parts| && c in parts[i]
  {
    if |parts| == 1 {
      assert c in parts[0];
    } else if |parts| > 1 && c !in parts[0] && c != separator {
      assert c in Join(parts[1..], separator);
      JoinUnits(parts[1..], separator, c);
      var i :| 0 <= i < |parts[1..]| && c in parts[1..][i];
      assert c in parts[i + 1];
    }
  }

  /** A unit that is in no part and is not the separator is not in the joined text. */
  lemma {:induction false} JoinLacks(parts: seq<Text>, separator: Unit, c: Unit)
    requires c != separator && forall i :: 0 <= i < |parts| ==> c !in parts[i]
    ensures c !in Join(parts, separator)
  {
    if |parts| > 1 {
      JoinLacks(parts[1..], separator, c);
    }
  }

  lemma {:induction false} JoinAppend(parts: seq<Text>, separator: Unit, last: Text)
    requires parts != []
    ensures Join(parts + [last], separator) == Join(parts, separator) + ([separator] + last)
  {
    if |parts| == 1 {
      assert (parts + [last])[1..] == [last];
      assert parts[0] + [separator] + last == parts[0] + ([separator] + last);
    } else {
      assert (parts + [last])[1..] == parts[1..] + [last];
      JoinAppend(parts[1..], separator, last);
      var j := Join(parts[1..], separator);
      assert parts[0] + [separator] + (j + ([separator] + last)) == parts[0] + [separator] + j + ([separator] + last);
    }
  }
}
