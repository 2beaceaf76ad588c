/**
 * The Base32 codec of web/security.ts (the alphabet of RFC 4648, section 6, without padding).
 *
 * The 32-bit accumulator is never masked, so old bits run off its top. At most twelve of its low
 * bits are ever read, and those are exactly the bits of the stream that are still pending.
 */
module Base32 {
  import opened Basics
  import opened Bits

  // ----- Regrouping a stream of bits -----

  type Index = i: int | 0 <= i < 32

  function ByteBits(data: seq<Byte>): (bits: seq<bool>)
    ensures |bits| == 8 * |data|
  {
    if data == [] then [] else ToBits(8, data[0]) + ByteBits(data[1..])
  }

  function IndexBits(indices: seq<Index>): (bits: seq<bool>)
    ensures |bits| == 5 * |indices|
  {
    if indices == [] then [] else ToBits(5, indices[0]) + IndexBits(indices[1..])
  }

  lemma SmallPowers()
    ensures Pow2(5) == 32 && Pow2(8) == 256
  {}

  /** Groups of five; the last is filled with zeros on the right. */
  function Fives(bits: seq<bool>): seq<Index>
    decreases |bits|
  {
    SmallPowers();
    if bits == [] then []
    else if |bits| < 5 then [FromBits(bits + Blank(5 - |bits|))]
    else [FromBits(bits[..5])] + Fives(bits[5..])
  }

  /** Groups of eight; what is left over is dropped. */
  function Eights(bits: seq<bool>): seq<Byte>
    decreases |bits|
  {
    SmallPowers();
    if |bits| < 8 then []
    else [FromBits(bits[..8])] + Eights(bits[8..])
  }

  function EncodeIndices(data: seq<Byte>): seq<Index> {
    Fives(ByteBits(data))
  }

  function DecodeIndices(indices: seq<Index>): seq<Byte> {
    Eights(IndexBits(indices))
  }

  /** The filling is shorter than a group. */
  function Filling(n: nat): (f: nat)
    ensures f < 5 && (n + f) % 5 == 0
  {
    (5 - n % 5) % 5
  }

  lemma BitsOfLastGroup(bits: seq<bool>)
    requires 0 < |bits| < 5
    ensures IndexBits(Fives(bits)) == bits + Blank(5 - |bits|)
  {
    SmallPowers();
    var group := bits + Blank(5 - |bits|);
    NumberOfBits(group);
    assert IndexBits([FromBits(group)]) == ToBits(5, FromBits(group)) + IndexBits([]);
  }

  lemma NoFilling()
    ensures Filling(0) == 0
  {}

  lemma ShortFilling(n: nat)
    requires 0 < n < 5
    ensures Filling(n) == 5 - n
  {}

  lemma FillingOfRest(n: nat)
    requires n >= 5
    ensures Filling(n) == Filling(n - 5)
  {}

  lemma {:induction false} BitsOfFives(bits: seq<bool>)
    ensures IndexBits(Fives(bits)) == bits + Blank(Filling(|bits|))
    decreases |bits|
  {
    hide ToBits, FromBits, Filling;
    SmallPowers();
    if bits == [] {
      assert Filling(0) == 0 by { NoFilling(); }
      assert IndexBits(Fives(bits)) == [];
    } else if |bits| < 5 {
      ShortFilling(|bits|);
      BitsOfLastGroup(bits);
    } else {
      var group, rest := bits[..5], bits[5..];
      NumberOfBits(group);
      BitsOfFives(rest);
      FillingOfRest(|bits|);
      assert Fives(bits) == [FromBits(group)] + Fives(rest);
      assert IndexBits(Fives(bits)) == group + IndexBits(Fives(rest));
      assert group + (rest + Blank(Filling(|bits|))) == bits + Blank(Filling(|bits|));
    }
  }

  lemma {:induction false} EightsOfBytes(data: seq<Byte>, left: seq<bool>)
    requires |left| < 8
    ensures Eights(ByteBits(data) + left) == data
    decreases |data|
  {
    SmallPowers();
    if data != [] {
      BitsOfNumber(8, data[0]);
      var bits := ByteBits(data) + left;
      assert bits[..8] == ToBits(8, data[0]);
      assert bits[8..] == ByteBits(data[1..]) + left;
      EightsOfBytes(data[1..], left);
    }
  }

  lemma {:induction false} BitsOfEights(bits: seq<bool>)
    ensures ByteBits(Eights(bits)) == bits[..|bits| - |bits| % 8]
    decreases |bits|
  {
    hide ToBits, FromBits;
    SmallPowers();
    if |bits| >= 8 {
      NumberOfBits(bits[..8]);
      BitsOfEights(bits[8..]);
      assert Eights(bits)[1..] == Eights(bits[8..]);
      assert (|bits| - 8) % 8 == |bits| % 8;
      assert bits[..8] + bits[8..][..|bits| - 8 - |bits| % 8] == bits[..|bits| - |bits| % 8];
    }
  }

  lemma {:induction false} IndexBitsInjective(a: seq<Index>, b: seq<Index>)
    requires IndexBits(a) == IndexBits(b)
    ensures a == b
    decreases |a|
  {
    assert |a| == |b|;
    if a != [] {
      SmallPowers();
      assert IndexBits(a)[..5] == ToBits(5, a[0]) && IndexBits(a)[5..] == IndexBits(a[1..]);
      assert IndexBits(b)[..5] == ToBits(5, b[0]) && IndexBits(b)[5..] == IndexBits(b[1..]);
      BitsOfNumber(5, a[0]);
      BitsOfNumber(5, b[0]);
      IndexBitsInjective(a[1..], b[1..]);
    }
  }

  /** Any bytes come back, and n of them take ceil(8n / 5) symbols. */
  lemma IndicesRoundTrip(data: seq<Byte>)
    ensures DecodeIndices(EncodeIndices(data)) == data
    ensures |EncodeIndices(data)| == (8 * |data| + 4) / 5
  {
    BitsOfFives(ByteBits(data));
    EightsOfBytes(data, Blank(Filling(8 * |data|)));
  }

  /** Symbols come back exactly when fewer than five bits are left over and all of those are zero. */
  lemma CanonicalIndices(indices: seq<Index>)
    ensures var bits := IndexBits(indices); var left := bits[|bits| - |bits| % 8..];
      EncodeIndices(DecodeIndices(indices)) == indices <==> |left| < 5 && left == Blank(|left|)
  {
    hide IndexBits, ByteBits, Fives, Eights;
    var bits := IndexBits(indices);
    var whole, left := bits[..|bits| - |bits| % 8], bits[|bits| - |bits| % 8..];
    BitsOfEights(bits);
    BitsOfFives(whole);
    var again := EncodeIndices(DecodeIndices(indices));
    var fill := Blank(Filling(|whole|));
    assert IndexBits(again) == whole + fill;
    assert bits == whole + left;
    if again == indices {
      assert bits[|whole|..] == fill;
    } else if |left| < 5 && left == Blank(|left|) {
      assert (|whole| + |left|) % 5 == 0 && |left| == |fill|;
      assert left == fill;
      IndexBitsInjective(again, indices);
    }
  }

  // ----- The same as numbers -----

  /** The number with the given digits, the first the most significant. */
  function InBase(base: nat, digits: seq<nat>): nat {
    if digits == [] then 0 else InBase(base, digits[..|digits| - 1]) * base + digits[|digits| - 1]
  }

  /** v with n binary zeros behind it. */
  function Doubled(v: nat, n: nat): nat {
    if n == 0 then v else 2 * Doubled(v, n - 1)
  }

  lemma DoubledFiveOrEight(v: nat)
    ensures Doubled(v, 5) == 32 * v && Doubled(v, 8) == 256 * v
  {
    assert Doubled(v, 1) == 2 * v && Doubled(v, 2) == 4 * v && Doubled(v, 3) == 8 * v && Doubled(v, 4) == 16 * v;
    assert Doubled(v, 5) == 32 * v && Doubled(v, 6) == 64 * v && Doubled(v, 7) == 128 * v;
  }

  lemma {:induction false} NumberAppend(a: seq<bool>, b: seq<bool>)
    ensures FromBits(a + b) == Doubled(FromBits(a), |b|) + FromBits(b)
    decreases |b|
  {
    if b == [] {
      assert a + b == a;
    } else {
      var n := |b| - 1;
      assert (a + b)[..|a + b| - 1] == a + b[..n];
      NumberAppend(a, b[..n]);
    }
  }

  lemma {:induction false} NumberOfBlank(n: nat)
    ensures FromBits(Blank(n)) == 0
    decreases n
  {
    if n > 0 {
      assert Blank(n)[..n - 1] == Blank(n - 1);
      NumberOfBlank(n - 1);
    }
  }

  lemma {:induction false} ByteBitsAppend(data: seq<Byte>, b: Byte)
    ensures ByteBits(data + [b]) == ByteBits(data) + ToBits(8, b)
    decreases |data|
  {
    hide ToBits;
    if data == [] {
      assert data + [b] == [b] && ByteBits([b]) == ToBits(8, b) + ByteBits([]);
    } else {
      assert (data + [b])[1..] == data[1..] + [b];
      ByteBitsAppend(data[1..], b);
    }
  }

  lemma {:induction false} IndexBitsAppend(indices: seq<Index>, i: Index)
    ensures IndexBits(indices + [i]) == IndexBits(indices) + ToBits(5, i)
    decreases |indices|
  {
    hide ToBits;
    if indices == [] {
      assert indices + [i] == [i] && IndexBits([i]) == ToBits(5, i) + IndexBits([]);
    } else {
      assert (indices + [i])[1..] == indices[1..] + [i];
      IndexBitsAppend(indices[1..], i);
    }
  }

  lemma {:induction false} NumberOfBytes(data: seq<Byte>)
    ensures FromBits(ByteBits(data)) == InBase(256, data)
    decreases |data|
  {
    hide ToBits, FromBits, Doubled;
    if data == [] {
      assert FromBits([]) == 0 by { NumberOfBlank(0); assert Blank(0) == []; }
    } else {
      var front, b := data[..|data| - 1], data[|data| - 1];
      assert data == front + [b];
      ByteBitsAppend(front, b);
      NumberAppend(ByteBits(front), ToBits(8, b));
      SmallPowers();
      BitsOfNumber(8, b);
      DoubledFiveOrEight(FromBits(ByteBits(front)));
      NumberOfBytes(front);
    }
  }

  lemma {:induction false} NumberOfIndices(indices: seq<Index>)
    ensures FromBits(IndexBits(indices)) == InBase(32, indices)
    decreases |indices|
  {
    hide ToBits, FromBits, Doubled;
    if indices == [] {
      assert FromBits([]) == 0 by { NumberOfBlank(0); assert Blank(0) == []; }
    } else {
      var front, i := indices[..|indices| - 1], indices[|indices| - 1];
      assert indices == front + [i];
      IndexBitsAppend(front, i);
      NumberAppend(IndexBits(front), ToBits(5, i));
      SmallPowers();
      BitsOfNumber(5, i);
      DoubledFiveOrEight(FromBits(IndexBits(front)));
      NumberOfIndices(front);
    }
  }

  /**
   * Encoding is a change of base: the indices are the digits in base 32 of the bytes read as a number
   * in base 256, shifted up by the bits that fill the last group.
   */
  lemma EncodingChangesBase(data: seq<Byte>)
    ensures 0 <= 5 * |EncodeIndices(data)| - 8 * |data| < 5
    ensures InBase(32, EncodeIndices(data)) == Doubled(InBase(256, data), 5 * |EncodeIndices(data)| - 8 * |data|)
  {
    hide FromBits, Fives, ByteBits, IndexBits;
    var f := Filling(8 * |data|);
    BitsOfFives(ByteBits(data));
    assert 5 * |EncodeIndices(data)| == 8 * |data| + f;
    NumberOfIndices(EncodeIndices(data));
    NumberOfBytes(data);
    NumberAppend(ByteBits(data), Blank(f));
    NumberOfBlank(f);
  }

  // ----- Characters -----

  const ALPHABET: string := "ABCDEFGHIJKLMNOPQRSTUVWXYZ234567"

  function Letter(i: Index): char {
    ALPHABET[i]
  }

  /**
   * alphabet.indexOf(c.toUpperCase()). Besides the ASCII letters, dotless i and long s upper-case
   * into the alphabet, and the two st ligatures upper-case to "ST", which occurs in it.
   */
  function IndexOf(c: char): Option<Index> {
    if 'A' <= c <= 'Z' then Some((c - 'A') as int)
    else if 'a' <= c <= 'z' then Some((c - 'a') as int)
    else if '2' <= c <= '7' then Some((c - '2') as int + 26)
    else if c == '\U{0131}' then Some(8)
    else if c == '\U{017F}' || c == '\U{FB05}' || c == '\U{FB06}' then Some(18)
    else None
  }

  function Letters(indices: seq<Index>): (s: string)
    ensures |s| == |indices|
  {
    seq(|indices|, k requires 0 <= k < |indices| => Letter(indices[k]))
  }

  function Indices(s: string): seq<Index> {
    if s == [] then []
    else (if IndexOf(s[0]).Some? then [IndexOf(s[0]).value] else []) + Indices(s[1..])
  }

  lemma LetterIndex(i: Index)
    ensures IndexOf(Letter(i)) == Some(i)
  {}

  /** Characters that upper-case to the letter of an index without being that letter in either case. */
  predicate ReadAs(c: char, i: Index) {
    (i == 8 && c as int == 0x131) || (i == 18 && c as int in {0x17F, 0xFB05, 0xFB06})
  }

  /** The letter of an index by its code, and which characters are read as it: it, in either case, and four more. */
  lemma LetterMeaning(i: Index, c: char)
    ensures Letter(i) as int == if i < 26 then 65 + i else 24 + i
    ensures IndexOf(c) == Some(i) <==> c == Letter(i) || (i < 26 && c as int == 97 + i) || ReadAs(c, i)
  {}

  lemma {:induction false} LettersIndices(indices: seq<Index>)
    ensures Indices(Letters(indices)) == indices
    decreases |indices|
  {
    if indices != [] {
      LetterIndex(indices[0]);
      assert Letters(indices)[1..] == Letters(indices[1..]);
      LettersIndices(indices[1..]);
    }
  }

  function Encode(data: seq<Byte>): string {
    Letters(EncodeIndices(data))
  }

  function Decode(s: string): seq<Byte> {
    DecodeIndices(Indices(s))
  }

  /** s is t with letters put in either case and characters outside the alphabet put in between. */
  predicate Dressed(s: string, t: string)
    decreases |s|
  {
    if s == [] then t == []
    else (IndexOf(s[0]).None? && Dressed(s[1..], t)) ||
         (t != [] && IndexOf(s[0]).Some? && IndexOf(s[0]) == IndexOf(t[0]) && Dressed(s[1..], t[1..]))
  }

  lemma {:induction false} DressingIgnored(s: string, t: string)
    requires Dressed(s, t)
    ensures Indices(s) == Indices(t)
    decreases |s|
  {
    if s != [] {
      if IndexOf(s[0]).None? {
        DressingIgnored(s[1..], t);
      } else {
        DressingIgnored(s[1..], t[1..]);
      }
    }
  }

  /** What was encoded decodes to itself, whatever happened to its case and whatever was put in between. */
  lemma RoundTrip(data: seq<Byte>, s: string)
    requires Dressed(s, Encode(data))
    ensures Decode(s) == data
    ensures |Encode(data)| == (8 * |data| + 4) / 5
  {
    DressingIgnored(s, Encode(data));
    LettersIndices(EncodeIndices(data));
    IndicesRoundTrip(data);
  }

  lemma {:induction false} PlainIsDressed(s: string)
    requires forall k :: 0 <= k < |s| ==> IndexOf(s[k]).Some?
    ensures Dressed(s, s)
    decreases |s|
  {
    if s != [] { PlainIsDressed(s[1..]); }
  }

  lemma LettersAreSymbols(indices: seq<Index>)
    ensures forall k :: 0 <= k < |Letters(indices)| ==> IndexOf(Letters(indices)[k]).Some?
  {
    hide IndexOf, Letter;
    forall k | 0 <= k < |indices| ensures IndexOf(Letters(indices)[k]).Some? { LetterIndex(indices[k]); }
  }

  /** In particular, decoding undoes encoding. */
  lemma PlainRoundTrip(data: seq<Byte>)
    ensures Decode(Encode(data)) == data
  {
    LettersAreSymbols(EncodeIndices(data));
    PlainIsDressed(Encode(data));
    RoundTrip(data, Encode(data));
  }

  // ----- The loops -----

  /** The accumulator's low bits are the pending bits. */
  ghost predicate Holds(value: Word, pending: seq<bool>) {
    |pending| <= 12 && ToBits(|pending|, value) == pending
  }

  lemma PushByte(value: Word, pending: seq<bool>, b: Byte)
    requires |pending| < 5 && Holds(value, pending)
    ensures Holds(WordOr(ShiftLeft(value, 8), b), pending + ToBits(8, b))
  {
    SmallPowers();
    PushedBits(value, 8, b, |pending|);
  }

  lemma PushIndex(value: Word, pending: seq<bool>, i: Index)
    requires |pending| < 8 && Holds(value, pending)
    ensures Holds(WordOr(ShiftLeft(value, 5), i), pending + ToBits(5, i))
  {
    SmallPowers();
    PushedBits(value, 5, i, |pending|);
  }

  /** The top k pending bits, read without taking them off the accumulator. */
  lemma TakeBits(value: Word, pending: seq<bool>, k: nat)
    requires k <= |pending| && Holds(value, pending)
    ensures And(ShiftRight(value, |pending| - k), Pow2(k) - 1) == FromBits(pending[..k])
    ensures Holds(value, pending[k..])
  {
    ReadBits(value, |pending| - k, k);
    LowBitsAreSuffix(|pending| - k, |pending|, value);
  }

  lemma LastBits(value: Word, pending: seq<bool>)
    requires 0 < |pending| < 5 && Holds(value, pending)
    ensures And(ShiftLeft(value, 5 - |pending|), 31) == FromBits(pending + Blank(5 - |pending|))
  {
    SmallPowers();
    MaskBits(5, ShiftLeft(value, 5 - |pending|));
    ShiftLeftBits(value, 5 - |pending|, 5);
  }

  lemma LettersAppend(a: seq<Index>, i: Index)
    ensures Letters(a + [i]) == Letters(a) + [Letter(i)]
  {}

  lemma NextByte(pending: seq<bool>, data: seq<Byte>, i: nat)
    requires i < |data|
    ensures pending + ByteBits(data[i..]) == pending + ToBits(8, data[i]) + ByteBits(data[i + 1..])
  {}

  lemma NextFive(done: seq<Index>, pending: seq<bool>, rest: seq<bool>)
    requires |pending| >= 5
    ensures FromBits(pending[..5]) < 32
    ensures done + Fives(pending + rest) == done + [FromBits(pending[..5])] + Fives(pending[5..] + rest)
  {
    SmallPowers();
    assert (pending + rest)[..5] == pending[..5] && (pending + rest)[5..] == pending[5..] + rest;
  }

  lemma NextEight(done: seq<Byte>, pending: seq<bool>, rest: seq<bool>)
    requires |pending| >= 8
    ensures FromBits(pending[..8]) < 256
    ensures done + Eights(pending + rest) == done + [FromBits(pending[..8])] + Eights(pending[8..] + rest)
  {
    SmallPowers();
    assert (pending + rest)[..8] == pending[..8] && (pending + rest)[8..] == pending[8..] + rest;
  }

  lemma NextCharacter(pending: seq<bool>, input: string, i: nat)
    requires i < |input|
    ensures var index := IndexOf(input[i]); var rest := IndexBits(Indices(input[i + 1..]));
      pending + IndexBits(Indices(input[i..]))
      == if index.None? then pending + rest else pending + ToBits(5, index.value) + rest
  {
    assert input[i..][0] == input[i] && input[i..][1..] == input[i + 1..];
    var later := Indices(input[i + 1..]);
    if IndexOf(input[i]).Some? {
      assert ([IndexOf(input[i]).value] + later)[1..] == later;
    } else {
      assert [] + later == later;
    }
  }

  method Base32Encode(data: seq<Byte>) returns (output: string)
    ensures output == Encode(data)
  {
    hide Letter, Letters, Fives, ByteBits, ToBits, FromBits, WordOr, ShiftLeft, ShiftRight, And, Holds;
    Begin(data);
    var bits, value := 0, 0;
    output := Letters([]);
    ghost var done: seq<Index>, pending: seq<bool> := [], [];
    for i := 0 to |data|
      invariant bits == |pending| < 5 && Holds(value, pending)
      invariant output == Letters(done)
      invariant done + Fives(pending + ByteBits(data[i..])) == EncodeIndices(data)
    {
      PushByte(value, pending, data[i]);
      NextByte(pending, data, i);
      value := WordOr(ShiftLeft(value, 8), data[i]);
      bits := bits + 8;
      pending := pending + ToBits(8, data[i]);
      while bits >= 5
        invariant bits == |pending| <= 12 && Holds(value, pending)
        invariant output == Letters(done)
        invariant done + Fives(pending + ByteBits(data[i + 1..])) == EncodeIndices(data)
      {
        TakeFive(value, pending);
        NextFive(done, pending, ByteBits(data[i + 1..]));
        var index := And(ShiftRight(value, bits - 5), 31);
        LettersAppend(done, index);
        output := output + [Letter(index)];
        bits := bits - 5;
        done, pending := done + [index], pending[5..];
      }
    }
    Finish(done, pending, data);
    if bits > 0 {
      LastBits(value, pending);
      var index := And(ShiftLeft(value, 5 - bits), 31);
      LettersAppend(done, index);
      output := output + [Letter(index)];
    }
  }

  lemma Begin(data: seq<Byte>)
    ensures [] + Fives([] + ByteBits(data[0..])) == EncodeIndices(data)
    ensures Holds(0, []) && Letters([]) == []
  {
    assert data[0..] == data && [] + ByteBits(data) == ByteBits(data);
  }

  lemma TakeFive(value: Word, pending: seq<bool>)
    requires 5 <= |pending| && Holds(value, pending)
    ensures And(ShiftRight(value, |pending| - 5), 31) == FromBits(pending[..5])
    ensures Holds(value, pending[5..])
  {
    SmallPowers();
    TakeBits(value, pending, 5);
  }

  lemma TakeEight(value: Word, pending: seq<bool>)
    requires 8 <= |pending| && Holds(value, pending)
    ensures And(ShiftRight(value, |pending| - 8), 255) == FromBits(pending[..8])
    ensures Holds(value, pending[8..])
  {
    SmallPowers();
    TakeBits(value, pending, 8);
  }

  lemma Finish(done: seq<Index>, pending: seq<bool>, data: seq<Byte>)
    requires |pending| < 5
    ensures FromBits(pending + Blank(5 - |pending|)) < 32
    ensures done + Fives(pending + ByteBits(data[|data|..]))
         == if pending == [] then done else done + [FromBits(pending + Blank(5 - |pending|))]
  {
    SmallPowers();
    assert pending + ByteBits(data[|data|..]) == pending;
  }

  method Base32Decode(input: string) returns (output: seq<Byte>)
    ensures output == Decode(input)
  {
    hide IndexOf, Indices, Eights, IndexBits, ToBits, FromBits, WordOr, ShiftLeft, ShiftRight, And;
    var bits, value := 0, 0;
    output := [];
    ghost var pending: seq<bool> := [];
    assert input[0..] == input && [] + IndexBits(Indices(input)) == IndexBits(Indices(input));
    for i := 0 to |input|
      invariant bits == |pending| < 8 && Holds(value, pending)
      invariant output + Eights(pending + IndexBits(Indices(input[i..]))) == Decode(input)
    {
      NextCharacter(pending, input, i);
      var index := IndexOf(input[i]);
      if index.None? {
        continue;
      }
      PushIndex(value, pending, index.value);
      value := WordOr(ShiftLeft(value, 5), index.value);
      bits := bits + 5;
      pending := pending + ToBits(5, index.value);
      if bits >= 8 {
        TakeEight(value, pending);
        NextEight(output, pending, IndexBits(Indices(input[i + 1..])));
        output := output + [And(ShiftRight(value, bits - 8), 255)];
        bits := bits - 8;
        pending := pending[8..];
      }
    }
    NothingLeft(pending, input);
  }

  lemma NothingLeft(pending: seq<bool>, input: string)
    requires |pending| < 8
    ensures Eights(pending + IndexBits(Indices(input[|input|..]))) == []
  {}
}
