/**
 * The base32 codec of the TOTP secrets. Both loops keep a 32-bit accumulator that is shifted and
 * never masked, so it wraps; the specification speaks of bit strings only, as RFC 4648 does.
 */
module Base32 {
  import opened Prelude

  type Byte = x: int | 0 <= x < 256
  type Word = x: int | 0 <= x < 0x1_0000_0000

  const ALPHABET := "ABCDEFGHIJKLMNOPQRSTUVWXYZ234567"

  // ----- 32-bit words ---------------------------------------------------------------------

  /** Shift left by `k` on 32 bits and fill in a `low` that fits the `k` vacated bits. */
  function ShiftIn(value: Word, k: nat, low: nat): Word
    requires low < Pow2(k)
  {
    (value * Pow2(k) + low) % 0x1_0000_0000
  }

  /** Shift right by `k`. */
  function Shr(value: nat, k: nat): nat {
    if k == 0 then value else Shr(value / 2, k - 1)
  }

  // ----- Bit strings, most significant bit first ---------------------------------------------

  function Bits(v: nat, n: nat): (bits: seq<bool>)
    ensures |bits| == n
  {
    if n == 0 then [] else Bits(v / 2, n - 1) + [v % 2 == 1]
  }

  function Value(bits: seq<bool>): nat {
    if bits == [] then 0 else 2 * Value(bits[..|bits| - 1]) + if bits[|bits| - 1] then 1 else 0
  }

  function OctetBits(octets: seq<Byte>): (bits: seq<bool>)
    ensures |bits| == 8 * |octets|
  {
    if octets == [] then [] else OctetBits(octets[..|octets| - 1]) + Bits(octets[|octets| - 1], 8)
  }

  function SymbolBits(symbols: seq<nat>): (bits: seq<bool>)
    ensures |bits| == 5 * |symbols|
  {
    if symbols == [] then [] else SymbolBits(symbols[..|symbols| - 1]) + Bits(symbols[|symbols| - 1], 5)
  }

  function Zeros(n: nat): seq<bool> {
    seq(n, i => false)
  }

  /** Section 6 of RFC 4648: groups of five bits, the last one filled up with zeros. */
  function Quintets(bits: seq<bool>): seq<nat> {
    if bits == [] then []
    else if |bits| < 5 then [Value(bits + Zeros(5 - |bits|))]
    else [Value(bits[..5])] + Quintets(bits[5..])
  }

  /** Whole octets only; what is left over is dropped. */
  function Octets(bits: seq<bool>): seq<nat> {
    if |bits| < 8 then [] else [Value(bits[..8])] + Octets(bits[8..])
  }

  lemma {:induction false} ValueOfBits(v: nat, n: nat)
    ensures Value(Bits(v, n)) == v % Pow2(n)
  {
    if n > 0 {
      ValueOfBits(v / 2, n - 1);
      assert Bits(v, n)[..n - 1] == Bits(v / 2, n - 1);
      HalfMod(v, Pow2(n - 1));
    }
  }

  lemma {:induction false} BitsOfValue(bits: seq<bool>)
    ensures Bits(Value(bits), |bits|) == bits
  {
    if bits != [] {
      BitsOfValue(bits[..|bits| - 1]);
      assert bits == bits[..|bits| - 1] + [bits[|bits| - 1]];
    }
  }

  lemma HalfMod(v: nat, p: nat)
    requires p > 0
    ensures v % (2 * p) == 2 * (v / 2 % p) + v % 2
  {
    var q, r := v / 2 / p, v / 2 % p;
    assert v == 2 * p * q + (2 * r + v % 2) by {
      assert v / 2 == p * q + r;
    }
    ModUnique(v, 2 * p, q, 2 * r + v % 2);
  }

  lemma ModUnique(x: nat, m: nat, q: nat, r: nat)
    requires m > 0 && r < m && x == m * q + r
    ensures x % m == r
  {
    var d := x / m - q;
    assert m * d == r - x % m by {
      assert x == m * (x / m) + x % m;
      assert m * (x / m) - m * q == m * d;
    }
    MultipleIsFar(m, d);
  }

  lemma MultipleIsFar(m: nat, d: int)
    ensures d >= 1 ==> m * d >= m
    ensures d <= -1 ==> m * d + m <= 0
  {
    if d >= 1 {
      assert m * d == m + m * (d - 1);
    } else if d <= -1 {
      assert m * d + m == m * (d + 1);
    }
  }

  lemma {:induction false} BitsIgnoreHigh(v: nat, n: nat, m: nat)
    requires n <= m
    ensures Bits(v % Pow2(m), n) == Bits(v, n)
  {
    if n > 0 {
      HalfMod(v, Pow2(m - 1));
      BitsIgnoreHigh(v / 2, n - 1, m - 1);
    }
  }

  lemma {:induction false} BitsShifted(v: nat, n: nat, k: nat, low: nat)
    requires low < Pow2(k)
    ensures Bits(v * Pow2(k) + low, n + k) == Bits(v, n) + Bits(low, k)
  {
    if k == 0 {
      assert v * Pow2(k) + low == v;
    } else {
      var half := v * Pow2(k - 1);
      DoubleProduct(v, Pow2(k - 1));
      BitsShifted(v, n, k - 1, low / 2);
      BitsOfDouble(half, low, n + k);
    }
  }

  lemma DoubleProduct(v: nat, p: nat)
    ensures v * (2 * p) == 2 * (v * p)
  {
  }

  lemma BitsOfDouble(half: nat, low: nat, n: nat)
    requires n > 0
    ensures Bits(2 * half + low, n) == Bits(half + low / 2, n - 1) + [low % 2 == 1]
  {
    assert (2 * half + low) / 2 == half + low / 2;
  }

  lemma {:induction false} BitsSplit(v: nat, n: nat, k: nat)
    requires k <= n
    ensures Bits(v, n) == Bits(Shr(v, k), n - k) + Bits(v, k)
  {
    if k > 0 {
      BitsSplit(v / 2, n - 1, k - 1);
    }
  }

  /** The wrap-around never reaches the pending bits: shifting in appends to them. */
  lemma ShiftInAppends(value: Word, bits: nat, k: nat, low: nat)
    requires low < Pow2(k) && bits + k <= 32
    ensures Bits(ShiftIn(value, k, low), bits + k) == Bits(value, bits) + Bits(low, k)
  {
    var shifted := value * Pow2(k) + low;
    assert ShiftIn(value, k, low) == shifted % 0x1_0000_0000;
    WrapKeepsLow(shifted, bits + k);
    BitsShifted(value, bits, k, low);
  }

  lemma WrapKeepsLow(v: nat, n: nat)
    requires n <= 32
    ensures Bits(v % 0x1_0000_0000, n) == Bits(v, n)
  {
    Pow2Values();
    BitsIgnoreHigh(v, n, 32);
  }

  lemma ShiftInJoins(input: seq<bool>, done: seq<bool>, value: Word, bits: nat, k: nat, low: nat)
    requires low < Pow2(k) && bits + k <= 32 && input == done + Bits(value, bits)
    ensures input + Bits(low, k) == done + Bits(ShiftIn(value, k, low), bits + k)
  {
    ShiftInAppends(value, bits, k, low);
    assert done + Bits(value, bits) + Bits(low, k) == done + (Bits(value, bits) + Bits(low, k));
  }

  lemma Pow2Values()
    ensures Pow2(5) == 32 && Pow2(8) == 256 && Pow2(16) == 65536 && Pow2(32) == 0x1_0000_0000
  {
    assert Pow2(4) == 16 && Pow2(8) == 256 && Pow2(12) == 4096 && Pow2(16) == 65536;
    assert Pow2(20) == 1048576 && Pow2(24) == 16777216 && Pow2(28) == 268435456;
  }

  // ----- The encoder -----------------------------------------------------------------------

  predicate AllSymbols(symbols: seq<nat>) {
    forall i | 0 <= i < |symbols| :: symbols[i] < 32
  }

  function Characters(symbols: seq<nat>): string
    requires AllSymbols(symbols)
  {
    seq(|symbols|, i requires 0 <= i < |symbols| => ALPHABET[symbols[i]])
  }

  lemma {:induction false} QuintetsSmall(bits: seq<bool>)
    ensures AllSymbols(Quintets(bits))
    ensures |Quintets(bits)| == (|bits| + 4) / 5
  {
    Pow2Values();
    if |bits| >= 5 {
      ValueSmall(bits[..5]);
      QuintetsSmall(bits[5..]);
    } else if bits != [] {
      ValueSmall(bits + Zeros(5 - |bits|));
    }
  }

  lemma {:induction false} ValueSmall(bits: seq<bool>)
    ensures Value(bits) < Pow2(|bits|)
  {
    if bits != [] {
      ValueSmall(bits[..|bits| - 1]);
    }
  }

  /** What section 6 of RFC 4648 prescribes, without the trailing padding characters. */
  function Encoding(octets: seq<Byte>): string {
    QuintetsSmall(OctetBits(octets));
    Characters(Quintets(OctetBits(octets)))
  }

  lemma QuintetsFirst(head: seq<bool>, tail: seq<bool>)
    requires |head| == 5
    ensures Quintets(head + tail) == [Value(head)] + Quintets(tail)
  {
    assert (head + tail)[..5] == head && (head + tail)[5..] == tail;
  }

  /** Whole groups of five can be read off the front. */
  lemma {:induction false} QuintetsAppend(a: seq<bool>, b: seq<bool>)
    requires |a| % 5 == 0
    ensures Quintets(a + b) == Quintets(a) + Quintets(b)
  {
    if a == [] {
      assert a + b == b;
    } else {
      var head, tail := a[..5], a[5..];
      QuintetsAppend(tail, b);
      QuintetsFirst(head, tail);
      QuintetsFirst(head, tail + b);
      assert a == head + tail && a + b == head + (tail + b);
    }
  }

  /** The five bits an encoder step takes off the accumulator. */
  lemma TakeSymbol(value: Word, bits: nat)
    requires 5 <= bits <= 32
    ensures Bits(value, bits)[..5] == Bits(Shr(value, bits - 5), 5)
    ensures Value(Bits(value, bits)[..5]) == Shr(value, bits - 5) % 32
    ensures Bits(value, bits)[5..] == Bits(value, bits - 5)
  {
    Pow2Values();
    BitsSplit(value, bits, bits - 5);
    ValueOfBits(Shr(value, bits - 5), 5);
  }

  /** `out` encodes `done`, and the accumulator's low `bits` bits are the input read since. */
  ghost predicate Encoded(input: seq<bool>, done: seq<bool>, value: Word, bits: nat, out: string) {
    && |done| % 5 == 0 && input == done + Bits(value, bits)
    && AllSymbols(Quintets(done)) && out == Characters(Quintets(done))
  }

  lemma ReadOctet(input: seq<bool>, done: seq<bool>, value: Word, bits: nat, out: string, octet: Byte)
    requires Encoded(input, done, value, bits, out) && bits < 5
    ensures octet < Pow2(8)
    ensures Encoded(input + Bits(octet, 8), done, ShiftIn(value, 8, octet), bits + 8, out)
  {
    Pow2Values();
    ShiftInJoins(input, done, value, bits, 8, octet);
  }

  lemma CharactersAppend(symbols: seq<nat>, x: nat)
    requires AllSymbols(symbols) && x < 32
    ensures AllSymbols(symbols + [x]) && Characters(symbols + [x]) == Characters(symbols) + [ALPHABET[x]]
  {
  }

  lemma EmitSymbol(input: seq<bool>, done: seq<bool>, value: Word, bits: nat, out: string)
    requires Encoded(input, done, value, bits, out) && 5 <= bits <= 32
    ensures Encoded(input, done + Bits(value, bits)[..5], value, bits - 5, out + [ALPHABET[Shr(value, bits - 5) % 32]])
  {
    var five := Bits(value, bits)[..5];
    TakeSymbol(value, bits);
    QuintetsAppend(done, five);
    assert five[..5] == five && five[5..] == [];
    assert Quintets(five) == [Value(five)];
    CharactersAppend(Quintets(done), Value(five));
    assert input == done + five + Bits(value, bits)[5..];
  }

  /** What is left at the end is filled up with zeros. */
  lemma RestSymbol(value: Word, bits: nat)
    requires 0 < bits < 5
    ensures 0 < Pow2(5 - bits) && Quintets(Bits(value, bits)) == [ShiftIn(value, 5 - bits, 0) % 32]
  {
    Pow2Values();
    ShiftInAppends(value, bits, 5 - bits, 0);
    ZeroBits(5 - bits);
    ValueOfBits(ShiftIn(value, 5 - bits, 0), 5);
  }

  lemma EmitRest(input: seq<bool>, done: seq<bool>, value: Word, bits: nat, out: string)
    requires Encoded(input, done, value, bits, out) && 0 < bits < 5
    ensures AllSymbols(Quintets(input))
    ensures Characters(Quintets(input)) == out + [ALPHABET[ShiftIn(value, 5 - bits, 0) % 32]]
  {
    RestSymbol(value, bits);
    QuintetsAppend(done, Bits(value, bits));
    CharactersAppend(Quintets(done), ShiftIn(value, 5 - bits, 0) % 32);
  }

  lemma {:induction false} ZeroBits(n: nat)
    ensures Bits(0, n) == Zeros(n)
  {
    if n > 0 { ZeroBits(n - 1); }
  }

  lemma OctetBitsUpTo(buf: seq<Byte>, i: nat)
    requires i < |buf|
    ensures OctetBits(buf[..i + 1]) == OctetBits(buf[..i]) + Bits(buf[i], 8)
  {
    assert buf[..i + 1][..i] == buf[..i];
  }

  method Base32Encode(buf: seq<Byte>) returns (out: string)
    ensures out == Encoding(buf)
  {
    var bits, value: Word := 0, 0;
    ghost var done: seq<bool> := [];
    out := "";
    for i := 0 to |buf|
      invariant bits < 5 && Encoded(OctetBits(buf[..i]), done, value, bits, out)
    {
      OctetBitsUpTo(buf, i);
      ReadOctet(OctetBits(buf[..i]), done, value, bits, out, buf[i]);
      value := ShiftIn(value, 8, buf[i]);
      bits := bits + 8;
      while bits >= 5
        invariant bits <= 12 && Encoded(OctetBits(buf[..i + 1]), done, value, bits, out)
      {
        EmitSymbol(OctetBits(buf[..i + 1]), done, value, bits, out);
        done := done + Bits(value, bits)[..5];
        out := out + [ALPHABET[Shr(value, bits - 5) % 32]];
        bits := bits - 5;
      }
    }
    assert buf[..|buf|] == buf;
    if bits > 0 {
      EmitRest(OctetBits(buf), done, value, bits, out);
      out := out + [ALPHABET[ShiftIn(value, 5 - bits, 0) % 32]];
    } else {
      assert done + Bits(value, 0) == done;
    }
  }

  // ----- The decoder -----------------------------------------------------------------------

  function Upper(c: char): char {
    if 'a' <= c <= 'z' then c - 'a' + 'A' else c
  }

  predicate IsSpace(c: char) {
    c in {' ', '\t', '\n', '\r'}
  }

  /** In upper case, without the padding at the end, and without spaces. */
  function Clean(s: string): string {
    RemoveSpaces(StripPadding(seq(|s|, i requires 0 <= i < |s| => Upper(s[i]))))
  }

  function StripPadding(s: string): string {
    if s != [] && s[|s| - 1] == '=' then StripPadding(s[..|s| - 1]) else s
  }

  function RemoveSpaces(s: string): string {
    if s == [] then []
    else RemoveSpaces(s[..|s| - 1]) + if IsSpace(s[|s| - 1]) then [] else [s[|s| - 1]]
  }

  /** Where a character stands in the alphabet, or -1. */
  function IndexOf(c: char): (i: int)
    ensures i == -1 ==> c !in ALPHABET
    ensures i != -1 ==> 0 <= i < 32 && ALPHABET[i] == c
  {
    IndexFrom(ALPHABET, c, 0)
  }

  function IndexFrom(s: string, c: char, k: nat): (i: int)
    requires k <= |s|
    ensures i == -1 ==> forall j :: k <= j < |s| ==> s[j] != c
    ensures i != -1 ==> k <= i < |s| && s[i] == c
    decreases |s| - k
  {
    if k == |s| then -1 else if s[k] == c then k else IndexFrom(s, c, k + 1)
  }

  /** The symbols of a text; characters outside the alphabet are skipped. */
  function Symbols(s: string): (symbols: seq<nat>)
    ensures AllSymbols(symbols)
  {
    if s == [] then []
    else
      var i := IndexOf(s[|s| - 1]);
      Symbols(s[..|s| - 1]) + if i == -1 then [] else [i]
  }

  /** The octets a text stands for, whatever separates or pads its symbols. */
  function Decoding(s: string): seq<nat> {
    Octets(SymbolBits(Symbols(Clean(s))))
  }

  lemma OctetsStep(bits: seq<bool>, first: seq<bool>, rest: seq<bool>)
    requires |first| == 8 && bits == first + rest
    ensures Octets(bits) == [Value(first)] + Octets(rest)
  {
    assert bits[..8] == first && bits[8..] == rest;
  }

  lemma {:induction false} OctetsAppend(a: seq<bool>, b: seq<bool>)
    requires |a| % 8 == 0
    ensures Octets(a + b) == Octets(a) + Octets(b)
  {
    if a == [] {
      assert a + b == b;
    } else {
      OctetsAppend(a[8..], b);
      OctetsStep(a, a[..8], a[8..]);
      OctetsStep(a + b, a[..8], a[8..] + b);
    }
  }

  /** `out` decodes `done`, and the accumulator's low `bits` bits are the input read since. */
  ghost predicate Decoded(input: seq<bool>, done: seq<bool>, value: Word, bits: nat, out: seq<nat>) {
    |done| % 8 == 0 && input == done + Bits(value, bits) && out == Octets(done)
  }

  lemma SymbolBitsAppend(symbols: seq<nat>, x: nat, k: nat)
    requires k == 5
    ensures SymbolBits(symbols + [x]) == SymbolBits(symbols) + Bits(x, k)
  {
    assert (symbols + [x])[..|symbols|] == symbols;
  }

  lemma SymbolsUpTo(clean: string, i: nat)
    requires i < |clean|
    ensures var idx := IndexOf(clean[i]);
            Symbols(clean[..i + 1]) == if idx == -1 then Symbols(clean[..i]) else Symbols(clean[..i]) + [idx]
  {
    assert clean[..i + 1][..i] == clean[..i];
  }

  lemma ReadSymbol(input: seq<nat>, done: seq<bool>, value: Word, bits: nat, out: seq<nat>, idx: nat, k: nat)
    requires k == 5 && bits < 8 && idx < 32 && Decoded(SymbolBits(input), done, value, bits, out)
    ensures idx < Pow2(k)
    ensures Decoded(SymbolBits(input + [idx]), done, ShiftIn(value, k, idx), bits + k, out)
  {
    Pow2Values();
    ShiftInJoins(SymbolBits(input), done, value, bits, k, idx);
    SymbolBitsAppend(input, idx, k);
  }

  lemma OctetTaken(value: Word, bits: nat, n: nat)
    requires n == 8 && n <= bits <= 32
    ensures Bits(value, bits)[..n] == Bits(Shr(value, bits - n), n) && Bits(value, bits)[n..] == Bits(value, bits - n)
    ensures Octets(Bits(value, bits)[..n]) == [Shr(value, bits - n) % 256]
  {
    Pow2Values();
    BitsSplit(value, bits, bits - n);
    ValueOfBits(Shr(value, bits - n), n);
    OctetsStep(Bits(value, bits)[..n], Bits(value, bits)[..n], []);
  }

  lemma EmitOctet(input: seq<bool>, done: seq<bool>, value: Word, bits: nat, out: seq<nat>)
    requires Decoded(input, done, value, bits, out) && 8 <= bits <= 32
    ensures Decoded(input, done + Bits(value, bits)[..8], value, bits - 8, out + [Shr(value, bits - 8) % 256])
  {
    var eight := Bits(value, bits)[..8];
    OctetTaken(value, bits, 8);
    OctetsAppend(done, eight);
    assert input == done + eight + Bits(value, bits)[8..];
  }

  lemma SkipCharacter(clean: string, i: nat, done: seq<bool>, value: Word, bits: nat, out: seq<nat>)
    requires i < |clean| && Decoded(SymbolBits(Symbols(clean[..i])), done, value, bits, out)
    requires IndexOf(clean[i]) == -1
    ensures Decoded(SymbolBits(Symbols(clean[..i + 1])), done, value, bits, out)
  {
    SymbolsUpTo(clean, i);
  }

  lemma ReadCharacter(clean: string, i: nat, done: seq<bool>, value: Word, bits: nat, out: seq<nat>)
    requires i < |clean| && bits < 8 && Decoded(SymbolBits(Symbols(clean[..i])), done, value, bits, out)
    requires IndexOf(clean[i]) != -1
    ensures IndexOf(clean[i]) < Pow2(5)
    ensures Decoded(SymbolBits(Symbols(clean[..i + 1])), done, ShiftIn(value, 5, IndexOf(clean[i])), bits + 5, out)
  {
    SymbolsUpTo(clean, i);
    ReadSymbol(Symbols(clean[..i]), done, value, bits, out, IndexOf(clean[i]), 5);
  }

  lemma DropRest(input: seq<bool>, done: seq<bool>, value: Word, bits: nat, out: seq<nat>)
    requires Decoded(input, done, value, bits, out) && bits < 8
    ensures out == Octets(input)
  {
    OctetsAppend(done, Bits(value, bits));
  }

  /** One turn of the decoder's loop. */
  method TakeCharacter(clean: string, i: nat, value: Word, bits: nat, out: seq<nat>, ghost done: seq<bool>)
      returns (value': Word, bits': nat, out': seq<nat>, ghost done': seq<bool>)
    requires i < |clean| && bits < 8 && Decoded(SymbolBits(Symbols(clean[..i])), done, value, bits, out)
    ensures bits' < 8 && Decoded(SymbolBits(Symbols(clean[..i + 1])), done', value', bits', out')
  {
    value', bits', out', done' := value, bits, out, done;
    var idx := IndexOf(clean[i]);
    if idx == -1 {
      SkipCharacter(clean, i, done, value, bits, out);
      return;
    }
    ReadCharacter(clean, i, done, value, bits, out);
    value' := ShiftIn(value, 5, idx);
    bits' := bits + 5;
    if bits' >= 8 {
      EmitOctet(SymbolBits(Symbols(clean[..i + 1])), done, value', bits', out);
      done' := done + Bits(value', bits')[..8];
      out' := out + [Shr(value', bits' - 8) % 256];
      bits' := bits' - 8;
    }
  }

  method Base32Decode(s: string) returns (out: seq<nat>)
    ensures out == Decoding(s)
  {
    var clean := Clean(s);
    var bits, value: Word := 0, 0;
    ghost var done: seq<bool> := [];
    out := [];
    for i := 0 to |clean|
      invariant bits < 8 && Decoded(SymbolBits(Symbols(clean[..i])), done, value, bits, out)
    {
      value, bits, out, done := TakeCharacter(clean, i, value, bits, out, done);
    }
    assert clean[..|clean|] == clean;
    DropRest(SymbolBits(Symbols(clean)), done, value, bits, out);
  }

  // ----- Round trip ------------------------------------------------------------------------

  /** The symbols of a bit string are the bit string again, filled up with fewer than five zeros. */
  lemma {:induction false} SymbolBitsOfQuintets(bits: seq<bool>)
    ensures |bits| <= |SymbolBits(Quintets(bits))| < |bits| + 5
    ensures SymbolBits(Quintets(bits)) == bits + Zeros(|SymbolBits(Quintets(bits))| - |bits|)
  {
    QuintetsSmall(bits);
    if bits == [] {
    } else if |bits| < 5 {
      var full := bits + Zeros(5 - |bits|);
      BitsOfValue(full);
      assert Quintets(bits) == [Value(full)] && Quintets(bits)[..0] == [];
    } else {
      SymbolBitsOfQuintets(bits[5..]);
      BitsOfValue(bits[..5]);
      SymbolBitsPrepend(Value(bits[..5]), Quintets(bits[5..]));
      assert bits == bits[..5] + bits[5..];
    }
  }

  lemma {:induction false} SymbolBitsPrepend(x: nat, symbols: seq<nat>)
    ensures SymbolBits([x] + symbols) == Bits(x, 5) + SymbolBits(symbols)
  {
    if symbols == [] {
      assert [x] + symbols == [x] && [x][..0] == [];
    } else {
      var n := |symbols|;
      SymbolBitsPrepend(x, symbols[..n - 1]);
      assert ([x] + symbols)[..n] == [x] + symbols[..n - 1];
    }
  }

  lemma {:induction false} OctetsOfOctetBits(octets: seq<Byte>, rest: seq<bool>)
    requires |rest| < 8
    ensures Octets(OctetBits(octets) + rest) == octets
  {
    OctetsAppend(OctetBits(octets), rest);
    WholeOctets(octets);
  }

  lemma OctetValue(octet: Byte, n: nat)
    requires n == 8
    ensures Value(Bits(octet, n)) == octet
  {
    Pow2Values();
    ValueOfBits(octet, n);
  }

  lemma OneOctet(octet: Byte, n: nat)
    requires n == 8
    ensures Octets(Bits(octet, n)) == [octet]
  {
    OctetValue(octet, n);
    OctetsStep(Bits(octet, n), Bits(octet, n), []);
  }

  lemma {:induction false} WholeOctets(octets: seq<Byte>)
    ensures Octets(OctetBits(octets)) == octets
  {
    if octets != [] {
      var n := |octets|;
      WholeOctets(octets[..n - 1]);
      OctetsAppend(OctetBits(octets[..n - 1]), Bits(octets[n - 1], 8));
      OneOctet(octets[n - 1], 8);
      assert octets == octets[..n - 1] + [octets[n - 1]];
    }
  }

  /** A text of alphabet characters has no spaces, and its symbols are read back. */
  lemma {:induction false} SymbolsOfCharacters(symbols: seq<nat>)
    requires AllSymbols(symbols)
    ensures RemoveSpaces(Characters(symbols)) == Characters(symbols)
    ensures Symbols(Characters(symbols)) == symbols
  {
    if symbols != [] {
      var n := |symbols|;
      var front, x := symbols[..n - 1], symbols[n - 1];
      assert symbols == front + [x];
      SymbolsOfCharacters(front);
      CharactersAppend(front, x);
      AlphabetCharacter(x);
      assert (Characters(front) + [ALPHABET[x]])[..n - 1] == Characters(front);
    }
  }

  lemma AlphabetAt(x: nat)
    requires x < 32
    ensures ALPHABET[x] as int == if x < 26 then 65 + x else 24 + x
  {
  }

  lemma AlphabetCharacter(x: nat)
    requires x < 32
    ensures var c := ALPHABET[x]; IndexOf(c) == x && !IsSpace(c) && Upper(c) == c && c != '='
  {
    AlphabetAt(x);
    AlphabetAt(IndexOf(ALPHABET[x]));
  }

  lemma CleanCharacters(symbols: seq<nat>)
    requires AllSymbols(symbols)
    ensures Clean(Characters(symbols)) == Characters(symbols)
  {
    var text := Characters(symbols);
    forall i | 0 <= i < |text| ensures Upper(text[i]) == text[i] && text[i] != '=' {
      AlphabetCharacter(symbols[i]);
    }
    assert seq(|text|, i requires 0 <= i < |text| => Upper(text[i])) == text;
    SymbolsOfCharacters(symbols);
  }

  /** Decoding an encoding gives the octets back, for every octet string. */
  lemma RoundTrip(octets: seq<Byte>)
    ensures Decoding(Encoding(octets)) == octets
  {
    var bits := OctetBits(octets);
    QuintetsSmall(bits);
    CleanCharacters(Quintets(bits));
    SymbolsOfCharacters(Quintets(bits));
    SymbolBitsOfQuintets(bits);
    OctetsOfOctetBits(octets, Zeros(|SymbolBits(Quintets(bits))| - |bits|));
  }
}
