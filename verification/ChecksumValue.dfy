/**
 * Which number the checksum of web/protocol.ts is. The laws of linearity speak of differences, in
 * which the start and the final complement cancel; here they are pinned by the residue that every
 * message leaves together with its own checksum, and by the check value of CRC-32.
 *
 * Concrete registers are computed on machine words, which stand for the numbers of the model.
 */
module ChecksumValue {
  import opened Basics
  import opened Bits
  import opened Checksum

  // ----- Machine words -----

  function Half(v: bv32): bv32 {
    v >> 1
  }

  predicate Odd(v: bv32) {
    v & 1 == 1
  }

  function Exor(a: bv32, b: bv32): bv32 {
    a ^ b
  }

  /** The number a word stands for. */
  function Value(v: bv32): nat
    decreases v
  {
    if v == 0 then 0 else 2 * Value(Half(v)) + (if Odd(v) then 1 else 0)
  }

  lemma ValueHalves(v: bv32)
    ensures Value(v) == 2 * Value(Half(v)) + (if Odd(v) then 1 else 0)
  {}

  lemma NoDigits()
    ensures Value(0) == 0
  {}

  lemma ExorHalves(a: bv32, b: bv32)
    ensures Half(Exor(a, b)) == Exor(Half(a), Half(b))
    ensures Odd(Exor(a, b)) == (Odd(a) != Odd(b))
  {}

  lemma ExorZero(b: bv32)
    ensures Exor(0, b) == b
  {}

  lemma HalfLess(v: bv32)
    requires v != 0
    ensures Half(v) < v
  {}

  lemma {:induction false} XorOfValues(a: bv32, b: bv32)
    ensures Xor(Value(a), Value(b)) == Value(Exor(a, b))
    decreases a
  {
    hide Value, Xor, Half, Odd, Exor;
    if a == 0 {
      NoDigits();
      ExorZero(b);
      XorZero(Value(b));
    } else {
      HalfLess(a);
      XorOfValues(Half(a), Half(b));
      ExorHalves(a, b);
      ValueHalves(a);
      ValueHalves(b);
      ValueHalves(Exor(a, b));
      XorHalves(Value(a), Value(b));
    }
  }

  // ----- Hexadecimal digits -----

  function Rest(v: bv32): bv32 {
    Half(Half(Half(Half(v))))
  }

  function LowDigit(v: bv32): (d: nat)
    ensures d < 16
  {
    (if Odd(Half(Half(Half(v)))) then 8 else 0) + (if Odd(Half(Half(v))) then 4 else 0)
    + (if Odd(Half(v)) then 2 else 0) + (if Odd(v) then 1 else 0)
  }

  lemma OneDigit(v: bv32)
    ensures Value(v) == 16 * Value(Rest(v)) + LowDigit(v)
  {
    hide Value, Half, Odd;
    ValueHalves(v);
    ValueHalves(Half(v));
    ValueHalves(Half(Half(v)));
    ValueHalves(Half(Half(Half(v))));
  }

  lemma NothingLeft(v: bv32)
    ensures Rest(Rest(Rest(Rest(Rest(Rest(Rest(Rest(v)))))))) == 0
  {}

  function HighDigits(v: bv32): bv32 {
    Rest(Rest(Rest(Rest(v))))
  }

  lemma FourDigits(v: bv32)
    ensures Value(v) == 0x1_0000 * Value(HighDigits(v)) + 0x1000 * LowDigit(Rest(Rest(Rest(v))))
      + 0x100 * LowDigit(Rest(Rest(v))) + 0x10 * LowDigit(Rest(v)) + LowDigit(v)
  {
    hide Value, Rest, LowDigit;
    OneDigit(v);
    OneDigit(Rest(v));
    OneDigit(Rest(Rest(v)));
    OneDigit(Rest(Rest(Rest(v))));
  }

  lemma InRange(v: bv32)
    ensures Value(v) < TWO_32
  {
    hide Value, Rest, LowDigit;
    FourDigits(v);
    FourDigits(HighDigits(v));
    NothingLeft(v);
    NoDigits();
  }

  function AsWord(v: bv32): (w: Word)
    ensures w == Value(v)
  {
    InRange(v);
    Value(v)
  }

  lemma KnownWords()
    ensures AsWord(0xFFFF_FFFF) == 0xFFFF_FFFF == ALL_ONES && AsWord(0xEDB8_8320) == 0xEDB8_8320
    ensures AsWord(0xCBF4_3926) == 0xCBF4_3926 && AsWord(0x2144_DF1C) == 0x2144_DF1C
  {
    hide Value, AsWord;
    FourDigits(0xFFFF_FFFF);
    FourDigits(0xFFFF);
    FourDigits(0xEDB8_8320);
    FourDigits(0xEDB8);
    FourDigits(0xCBF4_3926);
    FourDigits(0xCBF4);
    FourDigits(0x2144_DF1C);
    FourDigits(0x2144);
    NoDigits();
  }

  lemma XorOfWords(a: bv32, b: bv32)
    ensures WordXor(AsWord(a), AsWord(b)) == AsWord(Exor(a, b))
  {
    hide Value, Xor, Exor;
    XorOfValues(a, b);
  }

  // ----- The register on machine words -----

  function Moved(c: bv32): bv32 {
    Exor(Half(c), if Odd(c) then 0xEDB8_8320 else 0)
  }

  function MovedTimes(n: nat, c: bv32): bv32 {
    if n == 0 then c else MovedTimes(n - 1, Moved(c))
  }

  lemma ShiftOfWord(c: bv32)
    ensures Shift(AsWord(c)) == AsWord(Moved(c))
  {
    hide Value, Xor, WordXor, Half, Odd, Exor;
    ValueHalves(c);
    KnownWords();
    NoDigits();
    XorOfWords(Half(c), if Odd(c) then 0xEDB8_8320 else 0);
  }

  lemma {:induction false} ShiftsOfWord(n: nat, c: bv32)
    ensures ShiftTimes(n, AsWord(c)) == AsWord(MovedTimes(n, c))
    decreases n
  {
    hide Shift, Moved, AsWord;
    if n > 0 {
      ShiftOfWord(c);
      ShiftsOfWord(n - 1, Moved(c));
    }
  }

  /** The register after one more byte. */
  function Fed(c: bv32, b: bv32): bv32 {
    MovedTimes(8, Exor(c, b))
  }

  lemma ByteStep(data: seq<Byte>, k: nat, c: bv32, b: bv32)
    requires k < |data| && Register(ALL_ONES, data[..k]) == AsWord(c) && data[k] == AsWord(b)
    ensures Register(ALL_ONES, data[..k + 1]) == AsWord(Fed(c, b))
  {
    hide Register, AsWord, MovedTimes, WordXor, ShiftTimes;
    assert data[..k + 1] == data[..k] + [data[k]];
    RegisterAppend(ALL_ONES, data[..k], data[k]);
    XorOfWords(c, b);
    ShiftsOfWord(8, Exor(c, b));
  }

  lemma {:induction false} MovesSplit(m: nat, n: nat, c: bv32)
    ensures MovedTimes(m + n, c) == MovedTimes(n, MovedTimes(m, c))
    decreases m
  {
    hide Moved;
    if m > 0 { MovesSplit(m - 1, n, Moved(c)); }
  }

  lemma TwoMoves(c: bv32)
    ensures MovedTimes(2, c) == Moved(Moved(c))
  {
    hide Moved;
    assert MovedTimes(2, c) == MovedTimes(1, Moved(c));
  }

  lemma EightMoves(c: bv32)
    ensures MovedTimes(8, c) == Moved(Moved(Moved(Moved(Moved(Moved(Moved(Moved(c))))))))
  {
    hide Moved, MovedTimes;
    var d := Moved(Moved(c));
    var e := Moved(Moved(d));
    MovesSplit(2, 6, c);
    MovesSplit(2, 4, d);
    MovesSplit(2, 2, e);
    TwoMoves(c);
    TwoMoves(d);
    TwoMoves(e);
    TwoMoves(Moved(Moved(e)));
  }

  lemma CheckBytes()
    ensures AsWord(0x31) == 0x31 && AsWord(0x32) == 0x32 && AsWord(0x33) == 0x33
    ensures AsWord(0x34) == 0x34 && AsWord(0x35) == 0x35 && AsWord(0x36) == 0x36
    ensures AsWord(0x37) == 0x37 && AsWord(0x38) == 0x38 && AsWord(0x39) == 0x39
  {
    hide Value, AsWord;
    NoDigits();
    FourDigits(0x31);
    FourDigits(0x32);
    FourDigits(0x33);
    FourDigits(0x34);
    FourDigits(0x35);
    FourDigits(0x36);
    FourDigits(0x37);
    FourDigits(0x38);
    FourDigits(0x39);
  }

  lemma CheckRegisters()
    ensures Fed(0xFFFF_FFFF, 0x31) == 0x7C23_1048
    ensures Fed(0x7C23_1048, 0x32) == 0xB0AC_BB32
    ensures Fed(0xB0AC_BB32, 0x33) == 0x77B7_9C2D
    ensures Fed(0x77B7_9C2D, 0x34) == 0x641C_1F5C
    ensures Fed(0x641C_1F5C, 0x35) == 0x340A_C5E3
    ensures Fed(0x340A_C5E3, 0x36) == 0xF68D_2C9E
    ensures Fed(0xF68D_2C9E, 0x37) == 0xAFFC_9660
    ensures Fed(0xAFFC_9660, 0x38) == 0x651F_2550
    ensures Fed(0x651F_2550, 0x39) == 0x340B_C6D9
  {
    hide MovedTimes;
    EightMoves(0xFFFF_FFCE);
    EightMoves(0x7C23_107A);
    EightMoves(0xB0AC_BB01);
    EightMoves(0x77B7_9C19);
    EightMoves(0x641C_1F69);
    EightMoves(0x340A_C5D5);
    EightMoves(0xF68D_2CA9);
    EightMoves(0xAFFC_9658);
    EightMoves(0x651F_2569);
  }

  lemma CheckSteps(data: seq<Byte>)
    requires |data| == 9 && forall k :: 0 <= k < 9 ==> data[k] == 0x31 + k
    ensures Register(ALL_ONES, data) == AsWord(0x340B_C6D9)
  {
    hide *;
    CheckBytes();
    CheckRegisters();
    KnownWords();
    NothingFed(data);
    ByteStep(data, 0, 0xFFFF_FFFF, 0x31);
    ByteStep(data, 1, 0x7C23_1048, 0x32);
    ByteStep(data, 2, 0xB0AC_BB32, 0x33);
    ByteStep(data, 3, 0x77B7_9C2D, 0x34);
    ByteStep(data, 4, 0x641C_1F5C, 0x35);
    ByteStep(data, 5, 0x340A_C5E3, 0x36);
    ByteStep(data, 6, 0xF68D_2C9E, 0x37);
    ByteStep(data, 7, 0xAFFC_9660, 0x38);
    ByteStep(data, 8, 0x651F_2550, 0x39);
    assert data[..9] == data;
  }

  lemma NothingFed(data: seq<Byte>)
    ensures Register(ALL_ONES, data[..0]) == ALL_ONES == 0xFFFF_FFFF
  {}

  /** The check value of CRC-32: the checksum of the nine ASCII digits 1 to 9. */
  lemma CheckValue()
    ensures Crc32([0x31, 0x32, 0x33, 0x34, 0x35, 0x36, 0x37, 0x38, 0x39]) == 0xCBF4_3926
  {
    hide Register, Exor, AsWord, WordXor;
    CheckSteps([0x31, 0x32, 0x33, 0x34, 0x35, 0x36, 0x37, 0x38, 0x39]);
    KnownWords();
    XorOfWords(0x340B_C6D9, 0xFFFF_FFFF);
    Complement();
  }

  lemma Complement()
    ensures Exor(0x340B_C6D9, 0xFFFF_FFFF) == 0xCBF4_3926
    ensures Exor(0xDEBB_20E3, 0xFFFF_FFFF) == 0x2144_DF1C
  {}

  // ----- A message followed by its own checksum -----

  /** The four bytes of a word, the lowest first. */
  function LowestFirst(w: Word): (bytes: seq<Byte>)
    ensures |bytes| == 4
  {
    [w % 256, w / 256 % 256, w / 0x1_0000 % 256, w / 0x100_0000]
  }

  lemma {:induction false} BitsSplit(m: nat, n: nat, r: nat, q: nat)
    requires r < Pow2(m)
    ensures BitsOf(m + n, r + Pow2(m) * q) == BitsOf(m, r) + BitsOf(n, q)
    decreases m
  {
    if m > 0 {
      assert Pow2(m) * q == 2 * (Pow2(m - 1) * q);
      assert (r + 2 * (Pow2(m - 1) * q)) / 2 == r / 2 + Pow2(m - 1) * q;
      BitsSplit(m - 1, n, r / 2, q);
    }
  }

  lemma {:induction false} MessageBitsAppend(a: seq<Byte>, b: seq<Byte>)
    ensures MessageBits(a + b) == MessageBits(a) + MessageBits(b)
    decreases |a|
  {
    if a == [] {
      assert a + b == b;
    } else {
      assert (a + b)[1..] == a[1..] + b;
      MessageBitsAppend(a[1..], b);
    }
  }

  lemma FirstByteBits(b: Byte, rest: seq<Byte>)
    ensures MessageBits([b] + rest) == BitsOf(8, b) + MessageBits(rest)
  {
    assert ([b] + rest)[1..] == rest;
  }

  lemma FourByteBits(a: Byte, b: Byte, c: Byte, d: Byte)
    ensures MessageBits([a, b, c, d]) == BitsOf(8, a) + (BitsOf(8, b) + (BitsOf(8, c) + BitsOf(8, d)))
  {
    hide BitsOf, MessageBits;
    FirstByteBits(a, [b, c, d]);
    FirstByteBits(b, [c, d]);
    FirstByteBits(c, [d]);
    FirstByteBits(d, []);
    NoBits();
    assert [a, b, c, d] == [a] + [b, c, d] && [b, c, d] == [b] + [c, d] && [c, d] == [c] + [d] && [d] == [d] + [];
  }

  lemma NoBits()
    ensures MessageBits([]) == []
  {}

  lemma BitsOfLowestFirst(w: Word)
    ensures MessageBits(LowestFirst(w)) == BitsOf(32, w)
  {
    hide BitsOf, MessageBits;
    assert Pow2(8) == 256;
    BitsSplit(8, 24, w % 256, w / 256);
    BitsSplit(8, 16, w / 256 % 256, w / 0x1_0000);
    BitsSplit(8, 8, w / 0x1_0000 % 256, w / 0x100_0000);
    FourByteBits(w % 256, w / 256 % 256, w / 0x1_0000 % 256, w / 0x100_0000);
  }

  lemma ResidueRegister()
    ensures ShiftTimes(32, ALL_ONES) == AsWord(0xDEBB_20E3)
  {
    hide ShiftTimes, AsWord, MovedTimes;
    KnownWords();
    ShiftsOfWord(32, 0xFFFF_FFFF);
    MovesOfOnes();
  }

  lemma MovesOfOnes()
    ensures MovedTimes(32, 0xFFFF_FFFF) == 0xDEBB_20E3
  {
    hide MovedTimes;
    MovesSplit(8, 24, 0xFFFF_FFFF);
    MovesSplit(8, 16, 0x2DFD_1072);
    MovesSplit(8, 8, 0xBE26_ED00);
    EightMoves(0xFFFF_FFFF);
    EightMoves(0x2DFD_1072);
    EightMoves(0xBE26_ED00);
    EightMoves(0x00BE_26ED);
  }

  /** Every message followed by its checksum, lowest byte first, leaves the same residue. */
  lemma Residue(data: seq<Byte>)
    ensures Crc32(data + LowestFirst(Crc32(data))) == 0x2144_DF1C
  {
    hide BitsOf, AsWord, Xor, WordXor, LowestFirst, ShiftTimes;
    var r, w := Register(ALL_ONES, data), Crc32(data);
    RegisterIsBitRegister(ALL_ONES, data);
    RegisterIsBitRegister(ALL_ONES, data + LowestFirst(w));
    MessageBitsAppend(data, LowestFirst(w));
    BitRegisterSplit(ALL_ONES, MessageBits(data), MessageBits(LowestFirst(w)));
    BitsOfLowestFirst(w);
    Pow2At32();
    Checksum.NumberOfBits(32, w);
    BitRegisterAsShift(r, BitsOf(32, w));
    AddedToItself(r);
    ResidueRegister();
    KnownWords();
    XorOfWords(0xDEBB_20E3, 0xFFFF_FFFF);
    Complement();
  }

  lemma AddedToItself(r: Word)
    ensures WordXor(r, WordXor(r, ALL_ONES)) == ALL_ONES
  {
    XorAssociates(r, r, ALL_ONES);
    XorIsZero(r, r);
    XorZero(ALL_ONES);
  }

  lemma LowestFirstInjective(v: Word, w: Word)
    ensures LowestFirst(v) == LowestFirst(w) ==> v == w
  {
    hide BitsOf, MessageBits, LowestFirst;
    BitsOfLowestFirst(v);
    BitsOfLowestFirst(w);
    Pow2At32();
    Checksum.NumberOfBits(32, v);
    Checksum.NumberOfBits(32, w);
  }

  /** Main result: the residue tells a right checksum behind a message from every wrong one. */
  lemma ResidueExactly(data: seq<Byte>, w: Word)
    ensures Crc32(data + LowestFirst(w)) == 0x2144_DF1C <==> w == Crc32(data)
  {
    hide BitsOf, Crc32, LowestFirst, MessageBits;
    var right, other := data + LowestFirst(Crc32(data)), data + LowestFirst(w);
    Residue(data);
    MessageBitsAppend(data, LowestFirst(Crc32(data)));
    MessageBitsAppend(data, LowestFirst(w));
    assert WithinBurst(right, other, 8 * |data|);
    BurstDetected(right, other, 8 * |data|);
    LowestFirstInjective(w, Crc32(data));
    if right == other {
      assert right[|data|..] == LowestFirst(Crc32(data)) && other[|data|..] == LowestFirst(w);
    }
  }
}
