/**
 * Bitwise operators on machine words, digit by digit: the operators of C and JavaScript that
 * the checksum and the Base32 codec use. A shift to the left loses what leaves the word.
 */
module Bits {
  import opened Basics

  function Pow2(n: nat): (p: nat)
    ensures p >= 1
  {
    if n == 0 then 1 else 2 * Pow2(n - 1)
  }

  lemma Pow2At32()
    ensures Pow2(32) == TWO_32
  {
    assert Pow2(8) == 256;
    assert Pow2(16) == 65536;
    assert Pow2(24) == 16777216;
  }

  lemma {:induction false} Pow2Monotone(m: nat, n: nat)
    requires m <= n
    ensures Pow2(m) <= Pow2(n)
    decreases n
  {
    if m < n {
      Pow2Monotone(m, n - 1);
    }
  }

  // ----- Exclusive-or of naturals, bit by bit -----

  function Xor(a: nat, b: nat): nat {
    if a == 0 && b == 0 then 0
    else 2 * Xor(a / 2, b / 2) + (if a % 2 != b % 2 then 1 else 0)
  }

  lemma {:induction false} XorCommutes(a: nat, b: nat)
    ensures Xor(a, b) == Xor(b, a)
  {
    if a != 0 || b != 0 {
      XorCommutes(a / 2, b / 2);
    }
  }

  lemma {:induction false} XorAssociates(a: nat, b: nat, c: nat)
    ensures Xor(Xor(a, b), c) == Xor(a, Xor(b, c))
    decreases a + b + c
  {
    if a != 0 || b != 0 || c != 0 {
      XorAssociates(a / 2, b / 2, c / 2);
      XorHalves(a, b);
      XorHalves(b, c);
      XorHalves(Xor(a, b), c);
      XorHalves(a, Xor(b, c));
    }
  }

  lemma XorHalves(a: nat, b: nat)
    ensures Xor(a, b) / 2 == Xor(a / 2, b / 2)
    ensures Xor(a, b) % 2 == (if a % 2 != b % 2 then 1 else 0)
  {}

  lemma {:induction false} XorZero(a: nat)
    ensures Xor(a, 0) == a && Xor(0, a) == a
  {
    if a != 0 {
      XorZero(a / 2);
    }
  }

  lemma {:induction false} XorIsZero(a: nat, b: nat)
    ensures Xor(a, b) == 0 <==> a == b
    decreases a + b
  {
    if a != 0 || b != 0 {
      XorIsZero(a / 2, b / 2);
    }
  }

  lemma {:induction false} XorMiddle(a: nat, b: nat, c: nat, d: nat)
    ensures Xor(Xor(a, b), Xor(c, d)) == Xor(Xor(a, c), Xor(b, d))
  {
    XorAssociates(a, b, Xor(c, d));
    XorAssociates(b, c, d);
    XorCommutes(b, c);
    XorAssociates(c, b, d);
    XorAssociates(a, c, Xor(b, d));
  }

  lemma {:induction false} XorBounded(n: nat, a: nat, b: nat)
    requires a < Pow2(n) && b < Pow2(n)
    ensures Xor(a, b) < Pow2(n)
    decreases n
  {
    if n > 0 {
      XorBounded(n - 1, a / 2, b / 2);
      XorHalves(a, b);
    }
  }

  function WordXor(a: Word, b: Word): (r: Word)
    ensures r == Xor(a, b)
  {
    Pow2At32();
    XorBounded(32, a, b);
    Xor(a, b)
  }

  // ----- Or, and, shifts -----

  function Or(a: nat, b: nat): nat {
    if a == 0 && b == 0 then 0
    else 2 * Or(a / 2, b / 2) + (if a % 2 == 1 || b % 2 == 1 then 1 else 0)
  }

  function And(a: nat, b: nat): nat {
    if a == 0 || b == 0 then 0
    else 2 * And(a / 2, b / 2) + (if a % 2 == 1 && b % 2 == 1 then 1 else 0)
  }

  function ShiftLeft(v: Word, n: nat): Word
    decreases n
  {
    if n == 0 then v else ShiftLeft(v * 2 % TWO_32, n - 1)
  }

  function ShiftRight(v: Word, n: nat): Word
    decreases n
  {
    if n == 0 then v else ShiftRight(v / 2, n - 1)
  }

  lemma {:induction false} OrBounded(n: nat, a: nat, b: nat)
    requires a < Pow2(n) && b < Pow2(n)
    ensures Or(a, b) < Pow2(n)
    decreases n
  {
    if n > 0 {
      OrBounded(n - 1, a / 2, b / 2);
    }
  }

  function WordOr(a: Word, b: Word): (r: Word)
    ensures r == Or(a, b)
  {
    Pow2At32();
    OrBounded(32, a, b);
    Or(a, b)
  }

  // ----- The low digits of a number, most significant first -----

  function ToBits(n: nat, v: nat): (bits: seq<bool>)
    ensures |bits| == n
  {
    if n == 0 then [] else ToBits(n - 1, v / 2) + [v % 2 == 1]
  }

  function FromBits(bits: seq<bool>): (v: nat)
    ensures v < Pow2(|bits|)
  {
    if bits == [] then 0
    else 2 * FromBits(bits[..|bits| - 1]) + (if bits[|bits| - 1] then 1 else 0)
  }

  function Blank(n: nat): (bits: seq<bool>)
    ensures |bits| == n
  {
    seq(n, _ => false)
  }

  lemma {:induction false} BitsOfNumber(n: nat, v: nat)
    requires v < Pow2(n)
    ensures FromBits(ToBits(n, v)) == v
    decreases n
  {
    if n > 0 {
      assert ToBits(n, v)[..n - 1] == ToBits(n - 1, v / 2);
      BitsOfNumber(n - 1, v / 2);
    }
  }

  lemma {:induction false} NumberOfBits(bits: seq<bool>)
    ensures ToBits(|bits|, FromBits(bits)) == bits
    decreases |bits|
  {
    if bits != [] {
      NumberOfBits(bits[..|bits| - 1]);
    }
  }

  /** Digits beyond the k-th do not show among the low n. */
  lemma {:induction false} HighDigitsHidden(n: nat, k: nat, r: nat, q: nat)
    requires n <= k
    ensures ToBits(n, r + Pow2(k) * q) == ToBits(n, r)
    decreases n
  {
    if n > 0 {
      assert Pow2(k) * q == 2 * (Pow2(k - 1) * q);
      assert (r + 2 * (Pow2(k - 1) * q)) / 2 == r / 2 + Pow2(k - 1) * q;
      HighDigitsHidden(n - 1, k - 1, r / 2, q);
    }
  }

  lemma WrapHidden(n: nat, v: nat)
    requires n <= 32
    ensures ToBits(n, v % TWO_32) == ToBits(n, v)
  {
    Pow2At32();
    HighDigitsHidden(n, 32, v % TWO_32, v / TWO_32);
  }

  lemma {:induction false} ShiftLeftBits(v: Word, k: nat, n: nat)
    requires k <= n <= 32
    ensures ToBits(n, ShiftLeft(v, k)) == ToBits(n - k, v) + Blank(k)
    decreases k
  {
    if k > 0 {
      ShiftLeftBits(v * 2 % TWO_32, k - 1, n);
      WrapHidden(n - k + 1, v * 2);
      assert ToBits(n - k + 1, v * 2) == ToBits(n - k, v) + [false];
      assert [false] + Blank(k - 1) == Blank(k);
    } else {
      assert ToBits(n, v) + Blank(0) == ToBits(n, v);
    }
  }

  lemma {:induction false} ShiftRightBits(v: Word, k: nat, n: nat)
    ensures ToBits(n, ShiftRight(v, k)) == ToBits(n + k, v)[..n]
    decreases k
  {
    if k > 0 {
      ShiftRightBits(v / 2, k - 1, n);
      assert ToBits(n + k, v)[..n + k - 1] == ToBits(n + k - 1, v / 2);
    }
  }

  lemma {:induction false} SmallNumberBits(n: nat, k: nat, v: nat)
    requires k <= n && v < Pow2(k)
    ensures ToBits(n, v) == Blank(n - k) + ToBits(k, v)
    decreases n
  {
    if k > 0 {
      SmallNumberBits(n - 1, k - 1, v / 2);
    } else if n > 0 {
      SmallNumberBits(n - 1, 0, 0);
      assert Blank(n - 1) + [false] == Blank(n);
    }
  }

  lemma {:induction false} OrBits(n: nat, a: nat, b: nat)
    ensures forall i :: 0 <= i < n ==> ToBits(n, Or(a, b))[i] == (ToBits(n, a)[i] || ToBits(n, b)[i])
    decreases n
  {
    if n > 0 {
      OrBits(n - 1, a / 2, b / 2);
      assert Or(a, b) / 2 == Or(a / 2, b / 2);
    }
  }

  /** A mask of ones goes on as a mask of ones one digit up. */
  lemma MaskHalf(k: nat, v: nat)
    requires k > 0
    ensures And(v, Pow2(k) - 1) == 2 * And(v / 2, Pow2(k - 1) - 1) + v % 2
  {
    var m, h := Pow2(k) - 1, Pow2(k - 1) - 1;
    assert m / 2 == h && m % 2 == 1;
    if v == 0 { assert And(0, h) == 0; }
  }

  lemma {:induction false} MaskBits(k: nat, v: nat)
    ensures And(v, Pow2(k) - 1) == FromBits(ToBits(k, v))
    decreases k
  {
    hide And, FromBits;
    if k > 0 {
      MaskHalf(k, v);
      MaskBits(k - 1, v / 2);
      FromBitsLast(ToBits(k - 1, v / 2), v % 2 == 1);
    } else {
      NoMask(v);
    }
  }

  lemma FromBitsLast(bits: seq<bool>, b: bool)
    ensures FromBits(bits + [b]) == 2 * FromBits(bits) + (if b then 1 else 0)
  {
    assert (bits + [b])[..|bits|] == bits;
  }

  lemma NoMask(v: nat)
    ensures And(v, 0) == 0 == FromBits(ToBits(0, v))
  {}

  /** Shifting k bits in: the accumulator's low bits move up and the new ones follow them. */
  lemma PushedBits(value: Word, k: nat, low: Word, n: nat)
    requires low < Pow2(k) && n + k <= 32
    ensures ToBits(n + k, WordOr(ShiftLeft(value, k), low)) == ToBits(n, value) + ToBits(k, low)
  {
    ShiftLeftBits(value, k, n + k);
    SmallNumberBits(n + k, k, low);
    OrBits(n + k, ShiftLeft(value, k), low);
  }

  /** Shifting right and masking reads k bits out of the middle. */
  lemma ReadBits(value: Word, drop: nat, k: nat)
    ensures And(ShiftRight(value, drop), Pow2(k) - 1) == FromBits(ToBits(drop + k, value)[..k])
  {
    MaskBits(k, ShiftRight(value, drop));
    ShiftRightBits(value, drop, k);
  }

  lemma {:induction false} LowBitsAreSuffix(m: nat, n: nat, v: nat)
    requires m <= n
    ensures ToBits(n, v)[n - m..] == ToBits(m, v)
    decreases n
  {
    if m > 0 {
      LowBitsAreSuffix(m - 1, n - 1, v / 2);
      assert ToBits(n, v)[n - m..] == ToBits(n - 1, v / 2)[n - m..] + [v % 2 == 1];
    }
  }
}
