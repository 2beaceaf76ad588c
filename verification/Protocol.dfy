/**
 * The wire codec of web/protocol.ts, which its C peer shares: a 64-byte big-endian message
 * header, fixed-width NUL-terminated strings, and the 423-byte user record built from them.
 *
 * A string is modelled by its UTF-8 bytes; turning text into bytes is the platform's work.
 */
module Protocol {
  import opened Basics

  const MAGIC: Word := 0x5343_5400
  const VERSION: Word := 0x0003_0000
  const HEADER_SIZE: nat := 64
  const USER_INFO_SIZE: nat := 423

  // ----- Big-endian integers -----

  function Pow256(n: nat): nat {
    if n == 0 then 1 else 256 * Pow256(n - 1)
  }

  lemma Pow256Values()
    ensures Pow256(1) == 256 && Pow256(4) == TWO_32 && Pow256(8) == TWO_64
  {}

  function BigEndian(n: nat, v: nat): (bytes: seq<Byte>)
    ensures |bytes| == n
  {
    if n == 0 then [] else BigEndian(n - 1, v / 256) + [v % 256]
  }

  function FromBigEndian(bytes: seq<Byte>): (v: nat)
    ensures v < Pow256(|bytes|)
  {
    if bytes == [] then 0
    else 256 * FromBigEndian(bytes[..|bytes| - 1]) + bytes[|bytes| - 1]
  }

  lemma {:induction false} BigEndianRoundTrip(n: nat, v: nat)
    requires v < Pow256(n)
    ensures FromBigEndian(BigEndian(n, v)) == v
    decreases n
  {
    if n > 0 {
      assert BigEndian(n, v)[..n - 1] == BigEndian(n - 1, v / 256);
      BigEndianRoundTrip(n - 1, v / 256);
    }
  }

  lemma {:induction false} BigEndianCanonical(bytes: seq<Byte>)
    ensures BigEndian(|bytes|, FromBigEndian(bytes)) == bytes
    decreases |bytes|
  {
    if bytes != [] {
      BigEndianCanonical(bytes[..|bytes| - 1]);
    }
  }

  function ReadWord(b: seq<Byte>, at: nat): Word
    requires at + 4 <= |b|
  {
    Pow256Values();
    FromBigEndian(b[at..at + 4])
  }

  function ReadQuad(b: seq<Byte>, at: nat): Quad
    requires at + 8 <= |b|
  {
    Pow256Values();
    FromBigEndian(b[at..at + 8])
  }

  /** Byte by byte, the most significant first. */
  function WordAt(b: seq<Byte>, at: nat): Word
    requires at + 4 <= |b|
  {
    var w: nat, x: nat, y: nat, z: nat := b[at], b[at + 1], b[at + 2], b[at + 3];
    0x100_0000 * w + 0x1_0000 * x + 0x100 * y + z
  }

  function QuadAt(b: seq<Byte>, at: nat): Quad
    requires at + 8 <= |b|
  {
    var high: nat, low: nat := WordAt(b, at), WordAt(b, at + 4);
    0x1_0000_0000 * high + low
  }

  lemma LastByte(b: seq<Byte>, at: nat, n: nat)
    requires at + n < |b|
    ensures FromBigEndian(b[at..at + n + 1]) == 256 * FromBigEndian(b[at..at + n]) + b[at + n]
  {
    var s := b[at..at + n + 1];
    assert s[..n] == b[at..at + n];
  }

  lemma ReadWordMeaning(b: seq<Byte>, at: nat)
    requires at + 4 <= |b|
    ensures ReadWord(b, at) == WordAt(b, at)
  {
    hide FromBigEndian;
    LastByte(b, at, 0);
    LastByte(b, at, 1);
    LastByte(b, at, 2);
    LastByte(b, at, 3);
    assert b[at..at] == [] && FromBigEndian([]) == 0 by { NoBytes(); }
  }

  lemma NoBytes()
    ensures FromBigEndian([]) == 0
  {}

  lemma ReadQuadMeaning(b: seq<Byte>, at: nat)
    requires at + 8 <= |b|
    ensures ReadQuad(b, at) == QuadAt(b, at)
  {
    hide FromBigEndian;
    ReadWordMeaning(b, at);
    LastByte(b, at, 4);
    LastByte(b, at, 5);
    LastByte(b, at, 6);
    LastByte(b, at, 7);
  }

  lemma ReadBackWord(b: seq<Byte>, at: nat, w: Word)
    requires at + 4 <= |b| && b[at..at + 4] == BigEndian(4, w)
    ensures ReadWord(b, at) == w
  {
    Pow256Values();
    BigEndianRoundTrip(4, w);
  }

  lemma ReadBackQuad(b: seq<Byte>, at: nat, q: Quad)
    requires at + 8 <= |b| && b[at..at + 8] == BigEndian(8, q)
    ensures ReadQuad(b, at) == q
  {
    Pow256Values();
    BigEndianRoundTrip(8, q);
  }

  function Zeros(n: nat): (z: seq<Byte>)
    ensures |z| == n
  {
    seq(n, _ => 0)
  }

  /** A run of DataView or typed-array stores. */
  method Store(buffer: array<Byte>, at: nat, bytes: seq<Byte>)
    requires at + |bytes| <= buffer.Length
    modifies buffer
    ensures buffer[..] == old(buffer[..at]) + bytes + old(buffer[at + |bytes|..])
  {
    for i := 0 to |bytes|
      invariant buffer[..at] == old(buffer[..at])
      invariant buffer[at..at + i] == bytes[..i]
      invariant buffer[at + i..] == old(buffer[at + i..])
    {
      buffer[at + i] := bytes[i];
      assert buffer[at..at + i + 1] == buffer[at..at + i] + [bytes[i]];
      assert old(buffer[at + i + 1..]) == old(buffer[at + i..])[1..];
    }
    assert buffer[..] == buffer[..at] + buffer[at..at + |bytes|] + buffer[at + |bytes|..];
  }

  /** One field appended at the write offset; the rest of the buffer is still clear. */
  method Append(buffer: array<Byte>, offset: nat, bytes: seq<Byte>) returns (next: nat)
    requires offset + |bytes| <= buffer.Length
    modifies buffer
    ensures next == offset + |bytes|
    ensures buffer[..next] == old(buffer[..offset]) + bytes
  {
    Store(buffer, offset, bytes);
    next := offset + |bytes|;
  }

  // ----- The header -----

  datatype Header = Header(
    magic: Word, version: Word, kind: Word, flags: Word,
    timestamp: Quad, messageId: Quad, correlationId: Quad,
    bodyLength: Word, checksum: Word)

  function KindBytes(h: Header): (b: seq<Byte>)
    ensures |b| == 16
  {
    BigEndian(4, h.magic) + BigEndian(4, h.version) + BigEndian(4, h.kind) + BigEndian(4, h.flags)
  }

  function RoutingBytes(h: Header): (b: seq<Byte>)
    ensures |b| == 32
  {
    BigEndian(8, h.timestamp) + BigEndian(8, h.messageId) + BigEndian(8, h.correlationId)
    + BigEndian(4, h.bodyLength) + BigEndian(4, h.checksum)
  }

  /** The layout: nine big-endian fields and sixteen reserved zero bytes. */
  function HeaderBytes(h: Header): (b: seq<Byte>)
    ensures |b| == HEADER_SIZE
  {
    KindBytes(h) + RoutingBytes(h) + Zeros(16)
  }

  method WriteKind(buffer: array<Byte>, h: Header) returns (offset: nat)
    requires buffer.Length >= 16
    modifies buffer
    ensures offset == 16 && buffer[..offset] == KindBytes(h)
  {
    offset := Append(buffer, 0, BigEndian(4, h.magic));
    offset := Append(buffer, offset, BigEndian(4, h.version));
    offset := Append(buffer, offset, BigEndian(4, h.kind));
    offset := Append(buffer, offset, BigEndian(4, h.flags));
  }

  method WriteRouting(buffer: array<Byte>, start: nat, h: Header) returns (offset: nat)
    requires start + 32 <= buffer.Length
    modifies buffer
    ensures offset == start + 32 && buffer[..offset] == old(buffer[..start]) + RoutingBytes(h)
  {
    offset := Append(buffer, start, BigEndian(8, h.timestamp));
    offset := Append(buffer, offset, BigEndian(8, h.messageId));
    offset := Append(buffer, offset, BigEndian(8, h.correlationId));
    offset := Append(buffer, offset, BigEndian(4, h.bodyLength));
    offset := Append(buffer, offset, BigEndian(4, h.checksum));
  }

  method SerializeHeader(h: Header) returns (buffer: array<Byte>)
    ensures fresh(buffer) && buffer[..] == HeaderBytes(h)
  {
    buffer := new Byte[HEADER_SIZE](_ => 0);
    var offset := WriteKind(buffer, h);
    offset := WriteRouting(buffer, offset, h);
    ghost var fields := buffer[..48];
    for i := 48 to HEADER_SIZE
      invariant buffer[..48] == fields
      invariant forall k :: 48 <= k < i ==> buffer[k] == 0
    {
      buffer[i] := 0;
    }
    assert buffer[48..] == Zeros(16);
    assert buffer[..] == fields + buffer[48..];
  }

  function ParseHeader(buffer: seq<Byte>): Option<Header> {
    if |buffer| < HEADER_SIZE then None
    else Some(Header(
      ReadWord(buffer, 0), ReadWord(buffer, 4), ReadWord(buffer, 8), ReadWord(buffer, 12),
      ReadQuad(buffer, 16), ReadQuad(buffer, 24), ReadQuad(buffer, 32),
      ReadWord(buffer, 40), ReadWord(buffer, 44)))
  }

  predicate ValidateHeader(h: Header) {
    h.magic == MAGIC && h.version == VERSION
  }

  lemma HeaderFields(h: Header, b: seq<Byte>)
    requires HeaderBytes(h) <= b
    ensures b[0..4] == BigEndian(4, h.magic) && b[4..8] == BigEndian(4, h.version)
    ensures b[8..12] == BigEndian(4, h.kind) && b[12..16] == BigEndian(4, h.flags)
    ensures b[16..24] == BigEndian(8, h.timestamp) && b[24..32] == BigEndian(8, h.messageId)
    ensures b[32..40] == BigEndian(8, h.correlationId)
    ensures b[40..44] == BigEndian(4, h.bodyLength) && b[44..48] == BigEndian(4, h.checksum)
  {}

  /** A header read from the front of any longer buffer is the header written there. */
  lemma HeaderRoundTrip(h: Header, b: seq<Byte>)
    requires HeaderBytes(h) <= b
    ensures ParseHeader(b) == Some(h)
  {
    HeaderFields(h, b);
    ReadBackWord(b, 0, h.magic);
    ReadBackWord(b, 4, h.version);
    ReadBackWord(b, 8, h.kind);
    ReadBackWord(b, 12, h.flags);
    ReadBackQuad(b, 16, h.timestamp);
    ReadBackQuad(b, 24, h.messageId);
    ReadBackQuad(b, 32, h.correlationId);
    ReadBackWord(b, 40, h.bodyLength);
    ReadBackWord(b, 44, h.checksum);
  }

  /** Which bytes of a header are which field, whoever wrote them. */
  lemma HeaderFieldsAt(b: seq<Byte>)
    requires |b| >= 64
    ensures ParseHeader(b) == Some(Header(
      WordAt(b, 0), WordAt(b, 4), WordAt(b, 8), WordAt(b, 12),
      QuadAt(b, 16), QuadAt(b, 24), QuadAt(b, 32), WordAt(b, 40), WordAt(b, 44)))
  {
    hide ReadWord, ReadQuad, WordAt, QuadAt;
    ReadWordMeaning(b, 0);
    ReadWordMeaning(b, 4);
    ReadWordMeaning(b, 8);
    ReadWordMeaning(b, 12);
    ReadQuadMeaning(b, 16);
    ReadQuadMeaning(b, 24);
    ReadQuadMeaning(b, 32);
    ReadWordMeaning(b, 40);
    ReadWordMeaning(b, 44);
  }

  lemma HeaderReadBack(h: Header)
    ensures ParseHeader(HeaderBytes(h)) == Some(h)
  {
    HeaderRoundTrip(h, HeaderBytes(h));
  }

  lemma FieldsCanonical(b: seq<Byte>)
    requires |b| == HEADER_SIZE
    ensures KindBytes(ParseHeader(b).value) + RoutingBytes(ParseHeader(b).value) == b[..48]
  {
    BigEndianCanonical(b[0..4]);
    BigEndianCanonical(b[4..8]);
    BigEndianCanonical(b[8..12]);
    BigEndianCanonical(b[12..16]);
    BigEndianCanonical(b[16..24]);
    BigEndianCanonical(b[24..32]);
    BigEndianCanonical(b[32..40]);
    BigEndianCanonical(b[40..44]);
    BigEndianCanonical(b[44..48]);
    assert b[..16] == b[0..4] + b[4..8] + b[8..12] + b[12..16];
    assert b[16..48] == b[16..24] + b[24..32] + b[32..40] + b[40..44] + b[44..48];
    assert b[..48] == b[..16] + b[16..48];
  }

  /** Conversely 64 bytes are reproduced exactly when their reserved tail is clear. */
  lemma HeaderCanonical(b: seq<Byte>)
    requires |b| == HEADER_SIZE
    ensures HeaderBytes(ParseHeader(b).value) == b <==> b[48..] == Zeros(16)
  {
    FieldsCanonical(b);
    assert b == b[..48] + b[48..];
    assert HeaderBytes(ParseHeader(b).value)[48..] == Zeros(16);
  }

  // ----- Fixed-width strings -----

  function Least(a: nat, b: nat): nat {
    if a <= b then a else b
  }

  /** What the field of width n holds: the bytes that fit before a final NUL, then zeros. */
  function FixedString(s: seq<Byte>, n: nat): (b: seq<Byte>)
    requires n >= 1
    ensures |b| == n
  {
    var k := Least(|s|, n - 1);
    s[..k] + Zeros(n - k)
  }

  /** The field of n bytes at `at` holds as much of s as leaves room for a NUL, and zeros behind it. */
  predicate TextAt(b: seq<Byte>, at: nat, n: nat, s: seq<Byte>) {
    at + n <= |b| && forall i :: 0 <= i < n ==> b[at..at + n][i] == if i < |s| && i < n - 1 then s[i] else 0
  }

  lemma FieldHoldsText(b: seq<Byte>, at: nat, n: nat, s: seq<Byte>)
    requires n >= 1 && at + n <= |b| && b[at..at + n] == FixedString(s, n)
    ensures TextAt(b, at, n, s)
  {}

  method SerializeString(encoded: seq<Byte>, maxLength: nat) returns (buffer: array<Byte>)
    requires maxLength >= 1
    ensures fresh(buffer) && buffer[..] == FixedString(encoded, maxLength)
  {
    buffer := new Byte[maxLength](_ => 0);
    var length := Least(|encoded|, maxLength - 1);
    Store(buffer, 0, encoded[..length]);
    buffer[length] := 0;
  }

  /** Length of the string in a field: up to the first NUL, the field's end, or the buffer's end. */
  function StringEnd(b: seq<Byte>, maxLength: nat, from: nat): (e: nat)
    requires from <= maxLength && from <= |b|
    ensures from <= e <= maxLength && e <= |b|
    ensures forall k :: from <= k < e ==> b[k] != 0
    ensures e == maxLength || e == |b| || b[e] == 0
    decreases maxLength - from
  {
    if from < maxLength && from < |b| && b[from] != 0 then StringEnd(b, maxLength, from + 1) else from
  }

  function ReadString(b: seq<Byte>, maxLength: nat): seq<Byte> {
    b[..StringEnd(b, maxLength, 0)]
  }

  /** Reading past the view yields undefined, which is not NUL, so the scan runs on to maxLength. */
  method DeserializeString(b: seq<Byte>, maxLength: nat) returns (s: seq<Byte>)
    ensures s == ReadString(b, maxLength)
  {
    var length := 0;
    while length < maxLength && !(length < |b| && b[length] == 0)
      invariant length <= maxLength
      invariant length <= |b| ==> StringEnd(b, maxLength, 0) == StringEnd(b, maxLength, length)
      invariant length > |b| ==> StringEnd(b, maxLength, 0) == |b|
    {
      length := length + 1;
    }
    s := b[..Least(length, |b|)];
  }

  predicate Storable(s: seq<Byte>, n: nat) {
    |s| < n && 0 !in s
  }

  /** A string survives a field exactly when it is shorter than the field and holds no NUL. */
  lemma StringRoundTrip(s: seq<Byte>, n: nat)
    requires n >= 1
    ensures ReadString(FixedString(s, n), n) == s <==> Storable(s, n)
  {
    var b := FixedString(s, n);
    var e := StringEnd(b, n, 0);
    var k := Least(|s|, n - 1);
    assert b[k] == 0;
    if Storable(s, n) {
      assert forall i :: 0 <= i < |s| ==> b[i] == s[i] && s[i] in s;
      assert e == |s|;
      assert b[..e] == s;
    } else {
      assert forall i :: 0 <= i < e ==> b[..e][i] != 0;
    }
  }

  // ----- The user record -----

  datatype UserInfo = UserInfo(
    userId: Quad, username: seq<Byte>, nickname: seq<Byte>, email: seq<Byte>,
    avatarId: Word, status: Byte, statusMessage: seq<Byte>, lastSeen: Quad,
    friendCount: Word, groupCount: Word, isVerified: bool, isPremium: bool, createdAt: Quad)

  datatype DecodeError = RangeError

  function Flag(b: bool): Byte {
    if b then 1 else 0
  }

  function IdentityBytes(u: UserInfo): (b: seq<Byte>)
    ensures |b| == 264
  {
    BigEndian(8, u.userId) + FixedString(u.username, 64) + FixedString(u.nickname, 64)
    + FixedString(u.email, 128)
  }

  function StatusBytes(u: UserInfo): (b: seq<Byte>)
    ensures |b| == 133
  {
    BigEndian(4, u.avatarId) + [u.status] + FixedString(u.statusMessage, 128)
  }

  function ActivityBytes(u: UserInfo): (b: seq<Byte>)
    ensures |b| == 26
  {
    BigEndian(8, u.lastSeen) + BigEndian(4, u.friendCount) + BigEndian(4, u.groupCount)
    + [Flag(u.isVerified)] + [Flag(u.isPremium)] + BigEndian(8, u.createdAt)
  }

  function UserInfoBytes(u: UserInfo): (b: seq<Byte>)
    ensures |b| == USER_INFO_SIZE
  {
    IdentityBytes(u) + StatusBytes(u) + ActivityBytes(u)
  }

  method WriteIdentity(buffer: array<Byte>, u: UserInfo) returns (offset: nat)
    requires buffer.Length >= 264
    modifies buffer
    ensures offset == 264 && buffer[..offset] == IdentityBytes(u)
  {
    offset := Append(buffer, 0, BigEndian(8, u.userId));
    var field := SerializeString(u.username, 64);
    offset := Append(buffer, offset, field[..]);
    field := SerializeString(u.nickname, 64);
    offset := Append(buffer, offset, field[..]);
    field := SerializeString(u.email, 128);
    offset := Append(buffer, offset, field[..]);
  }

  method WriteStatus(buffer: array<Byte>, start: nat, u: UserInfo) returns (offset: nat)
    requires start + 133 <= buffer.Length
    modifies buffer
    ensures offset == start + 133 && buffer[..offset] == old(buffer[..start]) + StatusBytes(u)
  {
    offset := Append(buffer, start, BigEndian(4, u.avatarId));
    offset := Append(buffer, offset, [u.status]);
    var field := SerializeString(u.statusMessage, 128);
    offset := Append(buffer, offset, field[..]);
  }

  method WriteActivity(buffer: array<Byte>, start: nat, u: UserInfo) returns (offset: nat)
    requires start + 26 <= buffer.Length
    modifies buffer
    ensures offset == start + 26 && buffer[..offset] == old(buffer[..start]) + ActivityBytes(u)
  {
    offset := Append(buffer, start, BigEndian(8, u.lastSeen));
    offset := Append(buffer, offset, BigEndian(4, u.friendCount));
    offset := Append(buffer, offset, BigEndian(4, u.groupCount));
    offset := Append(buffer, offset, [Flag(u.isVerified)]);
    offset := Append(buffer, offset, [Flag(u.isPremium)]);
    offset := Append(buffer, offset, BigEndian(8, u.createdAt));
  }

  method SerializeUserInfo(u: UserInfo) returns (bytes: seq<Byte>)
    ensures bytes == UserInfoBytes(u)
  {
    var buffer := new Byte[512](_ => 0);
    var offset := WriteIdentity(buffer, u);
    offset := WriteStatus(buffer, offset, u);
    offset := WriteActivity(buffer, offset, u);
    bytes := buffer[..offset];
  }

  /** A short buffer makes one of the fixed-width reads throw; the last one if no other. */
  function ParseUserInfo(b: seq<Byte>): Result<UserInfo, DecodeError> {
    if |b| < USER_INFO_SIZE then Err(RangeError)
    else Ok(UserInfo(
      ReadQuad(b, 0), ReadString(b[8..72], 64), ReadString(b[72..136], 64), ReadString(b[136..264], 128),
      ReadWord(b, 264), b[268], ReadString(b[269..397], 128), ReadQuad(b, 397),
      ReadWord(b, 405), ReadWord(b, 409), b[413] != 0, b[414] != 0, ReadQuad(b, 415)))
  }

  lemma UserInfoFields(u: UserInfo)
    ensures var b := UserInfoBytes(u);
      && b[0..8] == BigEndian(8, u.userId) && b[8..72] == FixedString(u.username, 64)
      && b[72..136] == FixedString(u.nickname, 64) && b[136..264] == FixedString(u.email, 128)
      && b[264..268] == BigEndian(4, u.avatarId) && b[268] == u.status
      && b[269..397] == FixedString(u.statusMessage, 128) && b[397..405] == BigEndian(8, u.lastSeen)
      && b[405..409] == BigEndian(4, u.friendCount) && b[409..413] == BigEndian(4, u.groupCount)
      && b[413] == Flag(u.isVerified) && b[414] == Flag(u.isPremium)
      && b[415..423] == BigEndian(8, u.createdAt)
  {}

  /** Which bytes of a written record are which field. */
  lemma UserInfoLayout(u: UserInfo)
    ensures var b := UserInfoBytes(u);
      && QuadAt(b, 0) == u.userId && TextAt(b, 8, 64, u.username) && TextAt(b, 72, 64, u.nickname)
      && TextAt(b, 136, 128, u.email) && WordAt(b, 264) == u.avatarId && b[268] == u.status
      && TextAt(b, 269, 128, u.statusMessage) && QuadAt(b, 397) == u.lastSeen
      && WordAt(b, 405) == u.friendCount && WordAt(b, 409) == u.groupCount
      && b[413] == (if u.isVerified then 1 else 0) && b[414] == (if u.isPremium then 1 else 0)
      && QuadAt(b, 415) == u.createdAt
  {
    hide UserInfoBytes, BigEndian, FixedString, ReadWord, ReadQuad, WordAt, QuadAt, TextAt;
    var b := UserInfoBytes(u);
    UserInfoFields(u);
    WrittenNumbers(b, u);
    FieldHoldsText(b, 8, 64, u.username);
    FieldHoldsText(b, 72, 64, u.nickname);
    FieldHoldsText(b, 136, 128, u.email);
    FieldHoldsText(b, 269, 128, u.statusMessage);
  }

  lemma WrittenNumbers(b: seq<Byte>, u: UserInfo)
    requires |b| == USER_INFO_SIZE && b[0..8] == BigEndian(8, u.userId) && b[264..268] == BigEndian(4, u.avatarId)
    requires b[397..405] == BigEndian(8, u.lastSeen) && b[405..409] == BigEndian(4, u.friendCount)
    requires b[409..413] == BigEndian(4, u.groupCount) && b[415..423] == BigEndian(8, u.createdAt)
    ensures QuadAt(b, 0) == u.userId && WordAt(b, 264) == u.avatarId && QuadAt(b, 397) == u.lastSeen
    ensures WordAt(b, 405) == u.friendCount && WordAt(b, 409) == u.groupCount && QuadAt(b, 415) == u.createdAt
  {
    hide BigEndian, ReadWord, ReadQuad, WordAt, QuadAt;
    ReadBackQuad(b, 0, u.userId);
    ReadQuadMeaning(b, 0);
    ReadBackWord(b, 264, u.avatarId);
    ReadWordMeaning(b, 264);
    ReadBackQuad(b, 397, u.lastSeen);
    ReadQuadMeaning(b, 397);
    ReadBackWord(b, 405, u.friendCount);
    ReadWordMeaning(b, 405);
    ReadBackWord(b, 409, u.groupCount);
    ReadWordMeaning(b, 409);
    ReadBackQuad(b, 415, u.createdAt);
    ReadQuadMeaning(b, 415);
  }

  /** And which field of a record read from any buffer is which bytes; a flag is any byte but 0. */
  lemma UserInfoFieldsAt(b: seq<Byte>)
    ensures ParseUserInfo(b).Ok? <==> |b| >= 423
    ensures ParseUserInfo(b).Ok? ==> var u := ParseUserInfo(b).value;
      && u.userId == QuadAt(b, 0) && u.avatarId == WordAt(b, 264) && u.status == b[268]
      && u.lastSeen == QuadAt(b, 397) && u.friendCount == WordAt(b, 405) && u.groupCount == WordAt(b, 409)
      && (u.isVerified <==> b[413] != 0) && (u.isPremium <==> b[414] != 0) && u.createdAt == QuadAt(b, 415)
      && UpToNul(u.username, b[8..72]) && UpToNul(u.nickname, b[72..136]) && UpToNul(u.email, b[136..264])
      && UpToNul(u.statusMessage, b[269..397])
  {
    hide ReadWord, ReadQuad, WordAt, QuadAt;
    if |b| >= 423 {
      ReadQuadMeaning(b, 0);
      ReadWordMeaning(b, 264);
      ReadQuadMeaning(b, 397);
      ReadWordMeaning(b, 405);
      ReadWordMeaning(b, 409);
      ReadQuadMeaning(b, 415);
    }
  }

  /** What stands in a field before its first NUL. */
  predicate UpToNul(s: seq<Byte>, field: seq<Byte>) {
    s <= field && 0 !in s && (|s| == |field| || field[|s|] == 0)
  }

  /** A user record survives the wire exactly when its four strings fit their fields. */
  lemma UserInfoRoundTrip(u: UserInfo)
    ensures ParseUserInfo(UserInfoBytes(u)) == Ok(u) <==>
      Storable(u.username, 64) && Storable(u.nickname, 64)
      && Storable(u.email, 128) && Storable(u.statusMessage, 128)
  {
    var b := UserInfoBytes(u);
    UserInfoFields(u);
    ReadBackQuad(b, 0, u.userId);
    StringRoundTrip(u.username, 64);
    StringRoundTrip(u.nickname, 64);
    StringRoundTrip(u.email, 128);
    ReadBackWord(b, 264, u.avatarId);
    StringRoundTrip(u.statusMessage, 128);
    ReadBackQuad(b, 397, u.lastSeen);
    ReadBackWord(b, 405, u.friendCount);
    ReadBackWord(b, 409, u.groupCount);
    ReadBackQuad(b, 415, u.createdAt);
  }
}
