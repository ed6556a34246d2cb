/**
 * The table-driven CRC-32 of PNG chunks against the bit-by-bit definition.
 *
 * An unsigned 32-bit word is the sequence of its bits, least significant first, so that `x & 1`
 * is `x[0]`, `x >>> k` drops `k` bits and refills with zeros, and `^` works bit by bit.
 */
module Crc32 {
  import opened Prelude

  type Byte = x: nat | x < 256
  type Word = w: seq<bool> | |w| == 32 witness Zeros(32)

  function Zeros(n: nat): seq<bool> {
    seq(n, i => false)
  }

  function Bit(x: nat, i: nat): bool {
    if i == 0 then x % 2 == 1 else Bit(x / 2, i - 1)
  }

  /** The `n` low bits of a number, least significant first. */
  function Bits(x: nat, n: nat): (bits: seq<bool>)
    ensures |bits| == n
  {
    seq(n, i requires 0 <= i < n => Bit(x, i))
  }

  /** The number with the given bits, least significant first. */
  function Number(bits: seq<bool>): nat {
    if bits == [] then 0 else (if bits[0] then 1 else 0) + 2 * Number(bits[1..])
  }

  lemma {:induction false} BitOfNumber(bits: seq<bool>, i: nat)
    requires i < |bits|
    ensures Bit(Number(bits), i) == bits[i]
  {
    if i > 0 {
      BitOfNumber(bits[1..], i - 1);
    }
  }

  lemma BitsOfNumber(bits: seq<bool>)
    ensures Bits(Number(bits), |bits|) == bits
  {
    forall i | 0 <= i < |bits| ensures Bits(Number(bits), |bits|)[i] == bits[i] {
      BitOfNumber(bits, i);
    }
  }

  lemma {:induction false} NumberSmall(bits: seq<bool>)
    ensures Number(bits) < Pow2(|bits|)
  {
    if bits != [] {
      NumberSmall(bits[1..]);
    }
  }

  function Xor(a: seq<bool>, b: seq<bool>): (c: seq<bool>)
    requires |a| == |b|
    ensures |c| == |a|
  {
    seq(|a|, i requires 0 <= i < |a| => a[i] != b[i])
  }

  function ShiftRight(a: Word, k: nat): Word
    requires k <= 32
  {
    a[k..] + Zeros(k)
  }

  /** A number below 2^k as a 32-bit word. */
  function Extend(bits: seq<bool>): Word
    requires |bits| <= 32
  {
    bits + Zeros(32 - |bits|)
  }

  // ----- The definition: section 3.4 of RFC 2083 --------------------------------------------

  const POLYNOMIAL: Word := Bits(0xedb88320, 32)
  const ALL_ONES: Word := Bits(0xffffffff, 32)

  /** One division step of the shift register, least significant bit first. */
  function Step(c: Word): Word {
    if c[0] then Xor(POLYNOMIAL, ShiftRight(c, 1)) else ShiftRight(c, 1)
  }

  /** The bits of a byte string in the order the register consumes them. */
  function BitStream(data: seq<Byte>): seq<bool> {
    if data == [] then [] else Bits(data[0], 8) + BitStream(data[1..])
  }

  /** The register after consuming `bits` one at a time. */
  function BitSerial(c: Word, bits: seq<bool>): Word
    decreases |bits|
  {
    if bits == [] then c else BitSerial(Step(Xor(c, Extend(bits[..1]))), bits[1..])
  }

  /** Register preset to all ones, final value complemented. */
  function Crc(data: seq<Byte>): Word {
    Xor(BitSerial(ALL_ONES, BitStream(data)), ALL_ONES)
  }

  // ----- Linearity of the register ------------------------------------------------------------

  lemma StepIsLinear(a: Word, b: Word)
    ensures Step(Xor(a, b)) == Xor(Step(a), Step(b))
  {
    assert ShiftRight(Xor(a, b), 1) == Xor(ShiftRight(a, 1), ShiftRight(b, 1));
  }

  /** The register after `n` zero bits. */
  function Steps(c: Word, n: nat): Word
    decreases n
  {
    if n == 0 then c else Steps(Step(c), n - 1)
  }

  lemma {:induction false} StepsAreLinear(a: Word, b: Word, n: nat)
    ensures Steps(Xor(a, b), n) == Xor(Steps(a, n), Steps(b, n))
    decreases n
  {
    if n > 0 {
      StepIsLinear(a, b);
      StepsAreLinear(Step(a), Step(b), n - 1);
    }
  }

  /** Zero low bits are only shifted out. */
  lemma {:induction false} ShiftsOut(c: Word, n: nat)
    requires n <= 32 && forall i | 0 <= i < n :: !c[i]
    ensures Steps(c, n) == ShiftRight(c, n)
    decreases n
  {
    if n > 0 {
      ShiftsOut(ShiftRight(c, 1), n - 1);
      assert ShiftRight(ShiftRight(c, 1), n - 1) == ShiftRight(c, n);
    }
  }

  lemma ExtendSplit(c: Word, bits: seq<bool>)
    requires 0 < |bits| <= 32
    ensures Xor(c, Extend(bits)) == Xor(Xor(c, Extend(bits[..1])), Extend([false] + bits[1..]))
  {
  }

  lemma StepEven(bits: seq<bool>)
    requires |bits| < 32
    ensures Step(Extend([false] + bits)) == Extend(bits)
  {
  }

  /** Feeding bits one at a time is the same as adding them all to the register beforehand. */
  lemma {:induction false} FeedingIsAdding(c: Word, bits: seq<bool>)
    requires |bits| <= 32
    ensures BitSerial(c, bits) == Steps(Xor(c, Extend(bits)), |bits|)
    decreases |bits|
  {
    if bits == [] {
      assert Xor(c, Extend(bits)) == c;
    } else {
      var fed := Xor(c, Extend(bits[..1]));
      ExtendSplit(c, bits);
      StepIsLinear(fed, Extend([false] + bits[1..]));
      StepEven(bits[1..]);
      FeedingIsAdding(Step(fed), bits[1..]);
    }
  }

  // ----- The table ---------------------------------------------------------------------------

  function TableEntry(n: nat): Word {
    Steps(Bits(n, 32), 8)
  }

  ghost predicate IsTable(t: seq<Word>) {
    |t| == 256 && forall n | 0 <= n < 256 :: t[n] == TableEntry(n)
  }

  /** The inner loop of the table builder. */
  method BuildEntry(n: nat) returns (c: Word)
    ensures c == TableEntry(n)
  {
    c := Bits(n, 32);
    for k := 0 to 8
      invariant Steps(c, 8 - k) == TableEntry(n)
    {
      StepsUnfold(c, 8 - k);
      c := if c[0] then Xor(POLYNOMIAL, ShiftRight(c, 1)) else ShiftRight(c, 1);
    }
  }

  method BuildTable() returns (t: array<Word>)
    ensures fresh(t) && IsTable(t[..])
  {
    t := new Word[256](_ => Zeros(32));
    for n := 0 to 256
      invariant forall m | 0 <= m < n :: t[m] == TableEntry(m)
    {
      var c := BuildEntry(n);
      t[n] := c;
    }
    assert forall m | 0 <= m < 256 :: t[..][m] == t[m];
  }

  lemma StepsUnfold(c: Word, n: nat)
    requires n > 0
    ensures Steps(c, n) == Steps(Step(c), n - 1)
  {
  }

  /** `x & 0xff`, as a table index. */
  function LowByte(x: Word): (n: nat)
    ensures n < 256
  {
    ByteSmall(x[..8]);
    Number(x[..8])
  }

  lemma ByteSmall(bits: seq<bool>)
    requires |bits| == 8
    ensures Number(bits) < 256
  {
    NumberSmall(bits);
    assert Pow2(4) == 16 && Pow2(8) == 256;
  }

  /** The word a table index stands for. */
  lemma LowByteWord(x: Word)
    ensures Bits(LowByte(x), 32) == Extend(x[..8])
  {
    NumberExtend(x[..8], 24);
    BitsOfNumber(Extend(x[..8]));
  }

  lemma {:induction false} NumberExtend(bits: seq<bool>, k: nat)
    ensures Number(bits + Zeros(k)) == Number(bits)
  {
    if bits == [] {
      NumberZeros(k);
      assert bits + Zeros(k) == Zeros(k);
    } else {
      NumberExtend(bits[1..], k);
      assert (bits + Zeros(k))[1..] == bits[1..] + Zeros(k);
    }
  }

  lemma {:induction false} NumberZeros(k: nat)
    ensures Number(Zeros(k)) == 0
  {
    if k > 0 {
      NumberZeros(k - 1);
      assert Zeros(k)[1..] == Zeros(k - 1);
    }
  }

  lemma SplitByte(x: Word)
    ensures x == Xor(Extend(x[..8]), Zeros(8) + x[8..])
  {
  }

  lemma HighBitsKept(c: Word, byte: seq<bool>)
    requires |byte| == 8
    ensures ShiftRight(Zeros(8) + Xor(c, Extend(byte))[8..], 8) == ShiftRight(c, 8)
  {
  }

  /** One table look-up consumes the eight bits of a byte. */
  lemma TableStep(c: Word, b: Byte)
    ensures var x := Xor(c, Bits(b, 32));
            BitSerial(c, Bits(b, 8)) == Xor(TableEntry(LowByte(x)), ShiftRight(c, 8))
  {
    var x := Xor(c, Bits(b, 32));
    FeedingIsAdding(c, Bits(b, 8));
    ByteWord(b);
    SplitByte(x);
    StepsAreLinear(Extend(x[..8]), Zeros(8) + x[8..], 8);
    LowByteWord(x);
    ShiftsOut(Zeros(8) + x[8..], 8);
    HighBitsKept(c, Bits(b, 8));
  }

  lemma ByteWord(b: Byte)
    ensures Bits(b, 32) == Extend(Bits(b, 8))
  {
    assert Pow2(4) == 16 && Pow2(8) == 256;
    SmallBits(b, 8, 24);
  }

  lemma SmallBits(x: nat, n: nat, k: nat)
    requires x < Pow2(n)
    ensures Bits(x, n + k) == Bits(x, n) + Zeros(k)
  {
    forall i | n <= i < n + k ensures !Bit(x, i) {
      HighBit(x, n, i);
    }
  }

  lemma {:induction false} HighBit(x: nat, n: nat, i: nat)
    requires x < Pow2(n) && n <= i
    ensures !Bit(x, i)
    decreases i
  {
    if i > 0 {
      HighBit(x / 2, if n == 0 then 0 else n - 1, i - 1);
    }
  }

  lemma {:induction false} BitSerialAppend(c: Word, a: seq<bool>, b: seq<bool>)
    ensures BitSerial(c, a + b) == BitSerial(BitSerial(c, a), b)
    decreases |a|
  {
    if a == [] {
      assert a + b == b;
    } else {
      assert (a + b)[1..] == a[1..] + b && (a + b)[..1] == a[..1];
      BitSerialAppend(Step(Xor(c, Extend(a[..1]))), a[1..], b);
    }
  }

  method ComputeCrc32(t: array<Word>, buf: seq<Byte>) returns (crc: Word)
    requires IsTable(t[..])
    ensures crc == Crc(buf)
  {
    var c: Word := ALL_ONES;
    for i := 0 to |buf|
      invariant BitSerial(c, BitStream(buf[i..])) == BitSerial(ALL_ONES, BitStream(buf))
    {
      var x := Xor(c, Bits(buf[i], 32));
      TableStep(c, buf[i]);
      assert buf[i..][1..] == buf[i + 1..];
      BitSerialAppend(c, Bits(buf[i], 8), BitStream(buf[i + 1..]));
      assert t[..][LowByte(x)] == TableEntry(LowByte(x));
      c := Xor(t[LowByte(x)], ShiftRight(c, 8));
    }
    crc := Xor(c, ALL_ONES);
  }
}
