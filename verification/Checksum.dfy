/**
 * The CRC-32 of web/protocol.ts: a reflected register with polynomial 0xEDB88320,
 * started at all ones and complemented at the end (the polynomial of RFC 1952, section 8).
 *
 * The error-detection proof treats the register as a linear map over exclusive-or. A
 * register fed at most 32 message bits holds those bits shifted that many times, and a
 * shift loses nothing, so a difference confined to 32 consecutive bits can never vanish.
 */
module Checksum {
  import opened Basics
  import opened Bits

  const POLYNOMIAL: Word := 0xEDB8_8320
  const ALL_ONES: Word := 0xFFFF_FFFF

  // ----- The register, byte by byte -----

  function Shift(c: Word): Word {
    WordXor(c / 2, if c % 2 == 1 then POLYNOMIAL else 0)
  }

  function ShiftTimes(n: nat, c: Word): Word {
    if n == 0 then c else ShiftTimes(n - 1, Shift(c))
  }

  function Register(c: Word, data: seq<Byte>): Word
    decreases |data|
  {
    if data == [] then c
    else Register(ShiftTimes(8, WordXor(c, data[0])), data[1..])
  }

  function Crc32(data: seq<Byte>): Word {
    WordXor(Register(ALL_ONES, data), ALL_ONES)
  }

  lemma {:induction false} RegisterAppend(c: Word, data: seq<Byte>, b: Byte)
    ensures Register(c, data + [b]) == ShiftTimes(8, WordXor(Register(c, data), b))
    decreases |data|
  {
    if data == [] {
      assert Register(ShiftTimes(8, WordXor(c, b)), []) == ShiftTimes(8, WordXor(c, b));
      assert data + [b] == [b];
    } else {
      assert (data + [b])[1..] == data[1..] + [b];
      RegisterAppend(ShiftTimes(8, WordXor(c, data[0])), data[1..], b);
    }
  }

  lemma {:induction false} ShiftTimesLast(n: nat, c: Word)
    ensures ShiftTimes(n + 1, c) == Shift(ShiftTimes(n, c))
    decreases n
  {
    if n > 0 {
      ShiftTimesLast(n - 1, Shift(c));
    }
  }

  /** The checksum loop. */
  method CalculateChecksum(data: array<Byte>) returns (sum: Word)
    ensures sum == Crc32(data[..])
  {
    var crc := ALL_ONES;
    var i := 0;
    while i < data.Length
      invariant 0 <= i <= data.Length
      invariant crc == Register(ALL_ONES, data[..i])
    {
      crc := WordXor(crc, data[i]);
      ghost var start := crc;
      var j := 0;
      while j < 8
        invariant 0 <= j <= 8
        invariant crc == ShiftTimes(j, start)
      {
        crc := Shift(crc);
        ShiftTimesLast(j, start);
        j := j + 1;
      }
      RegisterAppend(ALL_ONES, data[..i], data[i]);
      assert data[..i + 1] == data[..i] + [data[i]];
      i := i + 1;
    }
    assert data[..data.Length] == data[..];
    sum := WordXor(crc, ALL_ONES);
  }

  // ----- The register is linear and injective -----

  lemma {:induction false} ShiftLinear(c: Word, d: Word)
    ensures Shift(WordXor(c, d)) == WordXor(Shift(c), Shift(d))
  {
    var p := if c % 2 == 1 then POLYNOMIAL else 0;
    var q := if d % 2 == 1 then POLYNOMIAL else 0;
    XorHalves(c, d);
    XorMiddle(c / 2, p, d / 2, q);
    XorIsZero(POLYNOMIAL, POLYNOMIAL);
    XorZero(POLYNOMIAL);
    XorZero(0);
    assert Xor(p, q) == if Xor(c, d) % 2 == 1 then POLYNOMIAL else 0;
  }

  lemma {:induction false} ShiftKernel(c: Word)
    ensures Shift(c) == 0 <==> c == 0
  {
    XorIsZero(c / 2, if c % 2 == 1 then POLYNOMIAL else 0);
  }

  lemma {:induction false} ShiftTimesKernel(n: nat, c: Word)
    ensures ShiftTimes(n, c) == 0 <==> c == 0
    decreases n
  {
    if n > 0 {
      ShiftTimesKernel(n - 1, Shift(c));
      ShiftKernel(c);
    }
  }

  // ----- The same register, bit by bit -----

  function BitValue(b: bool): Word {
    if b then 1 else 0
  }

  /** The number whose binary digits are `bits`, least significant first. */
  function Number(bits: seq<bool>): (v: nat) {
    if bits == [] then 0 else BitValue(bits[0]) + 2 * Number(bits[1..])
  }

  function BitsOf(n: nat, v: nat): (bits: seq<bool>)
    ensures |bits| == n
  {
    if n == 0 then [] else [v % 2 == 1] + BitsOf(n - 1, v / 2)
  }

  /** Message bits in the order the checksum loop consumes them. */
  function MessageBits(data: seq<Byte>): (bits: seq<bool>)
    ensures |bits| == 8 * |data|
  {
    if data == [] then [] else BitsOf(8, data[0]) + MessageBits(data[1..])
  }

  function BitRegister(c: Word, bits: seq<bool>): Word
    decreases |bits|
  {
    if bits == [] then c
    else BitRegister(Shift(WordXor(c, BitValue(bits[0]))), bits[1..])
  }

  lemma {:induction false} NumberBounded(bits: seq<bool>)
    ensures Number(bits) < Pow2(|bits|)
    decreases |bits|
  {
    if bits != [] {
      NumberBounded(bits[1..]);
    }
  }

  lemma NumberFitsWord(bits: seq<bool>)
    requires |bits| <= 32
    ensures Number(bits) < TWO_32
  {
    NumberBounded(bits);
    Pow2Monotone(|bits|, 32);
    Pow2At32();
  }

  lemma {:induction false} NumberOfBits(n: nat, v: nat)
    requires v < Pow2(n)
    ensures Number(BitsOf(n, v)) == v
    decreases n
  {
    if n > 0 {
      NumberOfBits(n - 1, v / 2);
      assert BitsOf(n, v)[1..] == BitsOf(n - 1, v / 2);
    }
  }

  lemma {:induction false} NumberIsZero(bits: seq<bool>)
    ensures Number(bits) == 0 <==> forall k :: 0 <= k < |bits| ==> !bits[k]
    decreases |bits|
  {
    if bits != [] {
      NumberIsZero(bits[1..]);
      assert forall k :: 0 <= k < |bits[1..]| ==> bits[1..][k] == bits[k + 1];
      if forall k :: 0 <= k < |bits[1..]| ==> !bits[1..][k] {
        forall k | 0 < k < |bits| ensures bits[k] == bits[1..][k - 1] {}
      }
    }
  }

  lemma {:induction false} XorOfDoubled(b: bool, v: nat)
    ensures Xor(BitValue(b), 2 * v) == BitValue(b) + 2 * v
  {
    XorZero(v);
    if b || v != 0 {
      XorHalves(BitValue(b), 2 * v);
      assert Xor(0, v) == v;
    }
  }

  /** Bits above the lowest wait in the register until the shifts reach them. */
  lemma {:induction false} ShiftWithBitsAbove(c: Word, b: bool, v: nat)
    requires BitValue(b) + 2 * v < TWO_32
    ensures Shift(WordXor(c, BitValue(b) + 2 * v)) == WordXor(Shift(WordXor(c, BitValue(b))), v)
  {
    XorOfDoubled(b, v);
    XorAssociates(c, BitValue(b), 2 * v);
    ShiftLinear(WordXor(c, BitValue(b)), 2 * v);
    XorZero(v);
  }

  /** Feeding at most 32 bits amounts to adding them to the register and shifting. */
  lemma {:induction false} BitRegisterAsShift(c: Word, bits: seq<bool>)
    requires |bits| <= 32
    ensures Number(bits) < TWO_32
    ensures BitRegister(c, bits) == ShiftTimes(|bits|, WordXor(c, Number(bits)))
    decreases |bits|
  {
    NumberFitsWord(bits);
    if bits == [] {
      XorZero(c);
    } else {
      BitRegisterAsShift(Shift(WordXor(c, BitValue(bits[0]))), bits[1..]);
      ShiftWithBitsAbove(c, bits[0], Number(bits[1..]));
    }
  }

  lemma {:induction false} BitRegisterSplit(c: Word, a: seq<bool>, b: seq<bool>)
    ensures BitRegister(c, a + b) == BitRegister(BitRegister(c, a), b)
    decreases |a|
  {
    if a == [] {
      assert a + b == b;
    } else {
      assert (a + b)[1..] == a[1..] + b;
      BitRegisterSplit(Shift(WordXor(c, BitValue(a[0]))), a[1..], b);
    }
  }

  lemma {:induction false} RegisterIsBitRegister(c: Word, data: seq<Byte>)
    ensures Register(c, data) == BitRegister(c, MessageBits(data))
    decreases |data|
  {
    if data != [] {
      var bits := BitsOf(8, data[0]);
      assert Pow2(8) == 256;
      NumberOfBits(8, data[0]);
      BitRegisterAsShift(c, bits);
      BitRegisterSplit(c, bits, MessageBits(data[1..]));
      RegisterIsBitRegister(ShiftTimes(8, WordXor(c, data[0])), data[1..]);
    }
  }

  // ----- Differences between two messages -----

  function Difference(a: seq<bool>, b: seq<bool>): (d: seq<bool>)
    requires |a| == |b|
    ensures |d| == |a|
  {
    seq(|a|, k requires 0 <= k < |a| => a[k] != b[k])
  }

  lemma {:induction false} BitRegisterLinear(c: Word, d: Word, a: seq<bool>, b: seq<bool>)
    requires |a| == |b|
    ensures BitRegister(WordXor(c, d), Difference(a, b)) == WordXor(BitRegister(c, a), BitRegister(d, b))
    decreases |a|
  {
    if a != [] {
      var x, y := BitValue(a[0]), BitValue(b[0]);
      XorIsZero(x, y);
      XorZero(1);
      assert Xor(x, y) == BitValue(a[0] != b[0]);
      XorMiddle(c, d, x, y);
      ShiftLinear(WordXor(c, x), WordXor(d, y));
      assert Difference(a, b)[1..] == Difference(a[1..], b[1..]);
      BitRegisterLinear(Shift(WordXor(c, x)), Shift(WordXor(d, y)), a[1..], b[1..]);
    }
  }

  predicate Quiet(bits: seq<bool>) {
    forall k :: 0 <= k < |bits| ==> !bits[k]
  }

  lemma {:induction false} QuietBits(c: Word, bits: seq<bool>)
    requires Quiet(bits)
    ensures BitRegister(c, bits) == 0 <==> c == 0
    decreases |bits|
  {
    if bits != [] {
      XorZero(c);
      ShiftKernel(c);
      QuietBits(Shift(c), bits[1..]);
    }
  }

  lemma {:induction false} ShortWindowKernel(window: seq<bool>)
    requires |window| <= 32
    ensures BitRegister(0, window) == 0 <==> Quiet(window)
  {
    BitRegisterAsShift(0, window);
    XorZero(Number(window));
    ShiftTimesKernel(|window|, Number(window));
    NumberIsZero(window);
  }

  /** Quiet bits around a window hide nothing and add nothing. */
  lemma {:induction false} QuietSurroundings(bits: seq<bool>, s: nat, e: nat)
    requires s <= e <= |bits|
    requires forall k :: 0 <= k < |bits| && bits[k] ==> s <= k < e
    ensures BitRegister(0, bits) == 0 <==> BitRegister(0, bits[s..e]) == 0
  {
    var before, window, after := bits[..s], bits[s..e], bits[e..];
    assert bits == before + (window + after);
    QuietBits(0, before);
    BitRegisterSplit(0, before, window + after);
    BitRegisterSplit(0, window, after);
    QuietBits(BitRegister(0, window), after);
  }

  /** Bits that are set only inside a window of 32 leave a zero register only if none is set. */
  lemma {:induction false} WindowNeverVanishes(bits: seq<bool>, start: nat)
    requires forall k :: 0 <= k < |bits| && bits[k] ==> start <= k < start + 32
    ensures BitRegister(0, bits) == 0 <==> Quiet(bits)
  {
    hide BitRegister;
    var s := if start < |bits| then start else |bits|;
    var e := if s + 32 < |bits| then s + 32 else |bits|;
    QuietSurroundings(bits, s, e);
    ShortWindowKernel(bits[s..e]);
    if BitRegister(0, bits) == 0 {
      forall k | 0 <= k < |bits| ensures !bits[k] {
        if s <= k < e { assert bits[k] == bits[s..e][k - s]; }
      }
    } else {
      var j :| 0 <= j < |bits[s..e]| && bits[s..e][j];
      assert bits[s + j];
    }
  }

  lemma {:induction false} SameBitsSameBytes(a: seq<Byte>, b: seq<Byte>)
    requires |a| == |b|
    requires MessageBits(a) == MessageBits(b)
    ensures a == b
    decreases |a|
  {
    if a != [] {
      assert MessageBits(a)[..8] == BitsOf(8, a[0]) && MessageBits(a)[8..] == MessageBits(a[1..]);
      assert MessageBits(b)[..8] == BitsOf(8, b[0]) && MessageBits(b)[8..] == MessageBits(b[1..]);
      assert Pow2(8) == 256;
      NumberOfBits(8, a[0]);
      NumberOfBits(8, b[0]);
      SameBitsSameBytes(a[1..], b[1..]);
    }
  }

  /** Bodies of one length whose bits differ, if at all, only at positions start .. start + 31. */
  ghost predicate WithinBurst(a: seq<Byte>, b: seq<Byte>, start: nat) {
    |a| == |b| &&
    forall k :: 0 <= k < 8 * |a| && MessageBits(a)[k] != MessageBits(b)[k] ==> start <= k < start + 32
  }

  /** Every burst of at most 32 bits is detected. */
  lemma {:induction false} BurstDetected(a: seq<Byte>, b: seq<Byte>, start: nat)
    requires WithinBurst(a, b, start)
    ensures Crc32(a) == Crc32(b) <==> a == b
  {
    if Crc32(a) == Crc32(b) {
      var x, y := MessageBits(a), MessageBits(b);
      CrcDifference(a, b);
      WindowNeverVanishes(Difference(x, y), start);
      forall k | 0 <= k < |x| ensures x[k] == y[k] {
        assert !Difference(x, y)[k];
      }
      SameBitsSameBytes(a, b);
    }
  }

  /** The two messages differ exactly by the pattern g laid down at `start`. */
  ghost predicate DifferBy(a: seq<Byte>, b: seq<Byte>, start: nat, g: seq<bool>) {
    |a| == |b| && start + |g| <= 8 * |a| &&
    forall k :: 0 <= k < 8 * |a| ==>
      (MessageBits(a)[k] != MessageBits(b)[k]) == (start <= k < start + |g| && g[k - start])
  }

  /** Whether an error is missed depends on its pattern alone, not on the message or the place. */
  lemma {:induction false} MissedExactlyWhenVanishing(a: seq<Byte>, b: seq<Byte>, start: nat, g: seq<bool>)
    requires DifferBy(a, b, start, g)
    ensures Crc32(a) == Crc32(b) <==> BitRegister(0, g) == 0
  {
    hide BitRegister, Register, Crc32, MessageBits, Xor;
    var d := Difference(MessageBits(a), MessageBits(b));
    assert d[start..start + |g|] == g;
    QuietSurroundings(d, start, start + |g|);
    CrcDifference(a, b);
  }

  lemma {:induction false} CrcDifference(a: seq<Byte>, b: seq<Byte>)
    requires |a| == |b|
    ensures WordXor(Crc32(a), Crc32(b)) == BitRegister(0, Difference(MessageBits(a), MessageBits(b)))
    ensures Crc32(a) == Crc32(b) <==> WordXor(Crc32(a), Crc32(b)) == 0
  {
    var r, s := Register(ALL_ONES, a), Register(ALL_ONES, b);
    XorMiddle(r, ALL_ONES, s, ALL_ONES);
    XorIsZero(ALL_ONES, ALL_ONES);
    XorZero(Xor(r, s));
    RegisterIsBitRegister(ALL_ONES, a);
    RegisterIsBitRegister(ALL_ONES, b);
    BitRegisterLinear(ALL_ONES, ALL_ONES, MessageBits(a), MessageBits(b));
    XorIsZero(Crc32(a), Crc32(b));
  }

  /** One set bit followed by the 32 bits of the polynomial. */
  function Generator(): (g: seq<bool>)
    ensures |g| == 33 && g[0]
  {
    [true] + BitsOf(32, POLYNOMIAL)
  }

  /** The bound of 32 is exact: a burst of 33 bits shaped like the generator is never detected. */
  lemma GeneratorBurstMissed(a: seq<Byte>, b: seq<Byte>, start: nat)
    requires DifferBy(a, b, start, Generator())
    ensures a != b && Crc32(a) == Crc32(b)
  {
    assert MessageBits(a)[start] != MessageBits(b)[start];
    GeneratorVanishes();
    MissedExactlyWhenVanishing(a, b, start, Generator());
  }

  lemma GeneratorVanishes()
    ensures BitRegister(0, Generator()) == 0
  {
    XorZero(1);
    XorZero(POLYNOMIAL);
    assert Generator()[1..] == BitsOf(32, POLYNOMIAL);
    Pow2At32();
    NumberOfBits(32, POLYNOMIAL);
    BitRegisterAsShift(POLYNOMIAL, BitsOf(32, POLYNOMIAL));
    XorIsZero(POLYNOMIAL, POLYNOMIAL);
    ShiftTimesKernel(32, 0);
  }

  // ----- The browser's comparison -----

  /** The number a browser sees for a word that a bitwise operator produced. */
  function Signed(w: Word): int {
    if w < 0x8000_0000 then w else w - TWO_32
  }

  lemma {:induction false} XorTopBit(n: nat, a: nat, b: nat)
    requires a < Pow2(n + 1) && b < Pow2(n + 1)
    ensures Xor(a, b) >= Pow2(n) <==> ((a >= Pow2(n)) != (b >= Pow2(n)))
    decreases n
  {
    XorHalves(a, b);
    if n > 0 {
      XorTopBit(n - 1, a / 2, b / 2);
    } else {
      XorZero(0);
    }
  }

  /** Two bodies that differ only in the last message bit have checksums that differ by the polynomial. */
  lemma LastBitShowsPolynomial(a: seq<Byte>, b: seq<Byte>)
    requires a != [] && DifferBy(a, b, 8 * |a| - 1, [true])
    ensures WordXor(Crc32(a), Crc32(b)) == POLYNOMIAL
  {
    hide Crc32, MessageBits, Xor;
    var d := Difference(MessageBits(a), MessageBits(b));
    var k := 8 * |a| - 1;
    CrcDifference(a, b);
    assert d == d[..k] + [true];
    QuietBits(0, d[..k]);
    BitRegisterSplit(0, d[..k], [true]);
    XorZero(1);
    XorZero(POLYNOMIAL);
    assert BitRegister(0, [true]) == Shift(1) == POLYNOMIAL;
  }

  /**
   * A browser compares the signed number it computed with the unsigned number it read. The two
   * agree exactly when the words agree and the top bit is clear, so of two bodies that differ
   * only in the last message bit, each sent under its own checksum, it accepts exactly one.
   */
  lemma {:induction false} BrowserAcceptsHalf(a: seq<Byte>, b: seq<Byte>)
    requires a != [] && DifferBy(a, b, 8 * |a| - 1, [true])
    ensures Signed(Crc32(a)) == Crc32(a) <==> Signed(Crc32(b)) != Crc32(b)
  {
    hide Crc32, DifferBy, Xor;
    LastBitShowsPolynomial(a, b);
    Pow2At32();
    assert Pow2(31) == 0x8000_0000;
    XorTopBit(31, Crc32(a), Crc32(b));
  }
}
