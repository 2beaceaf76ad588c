/**
 * The framed byte stream between client and server (client/core.c): what the sender writes, and
 * what the receive loop makes of a buffer as a function of its bytes.
 */
module Framing {
  import opened Basics
  import opened Checksum
  import opened Protocol

  // ----- Sending -----

  /** One call of the send path: `sent` messages went out before it, at time `clock`. */
  datatype Packet = Packet(kind: Word, body: seq<Byte>, clock: Quad, sent: nat)

  /** The length and identifier fields keep the low 32 and 64 bits of what they are given. */
  function HeaderFor(p: Packet): Header {
    Header(MAGIC, VERSION, p.kind, 0, p.clock, (p.sent + 1) % TWO_64, 0, |p.body| % TWO_32, Crc32(p.body))
  }

  function Frame(p: Packet): seq<Byte> {
    HeaderBytes(HeaderFor(p)) + p.body
  }

  function Stream(packets: seq<Packet>): seq<Byte> {
    if packets == [] then [] else Frame(packets[0]) + Stream(packets[1..])
  }

  // ----- Which byte of a frame is what -----

  /**
   * The 64 bytes in front of a body: magic, version, type, no flags, time, message number, no
   * correlation, length and checksum, and sixteen zeros.
   */
  predicate IsHeaderOf(b: seq<Byte>, kind: Word, clock: Quad, number: nat, body: seq<Byte>) {
    |b| == 64 && WordAt(b, 0) == 0x5343_5400 && WordAt(b, 4) == 0x0003_0000 && WordAt(b, 8) == kind &&
    WordAt(b, 12) == 0 && QuadAt(b, 16) == clock && QuadAt(b, 24) == number % TWO_64 && QuadAt(b, 32) == 0 &&
    WordAt(b, 40) == |body| % TWO_32 && WordAt(b, 44) == Crc32(body) && b[48..] == Zeros(16)
  }

  predicate IsFrameOf(f: seq<Byte>, kind: Word, clock: Quad, number: nat, body: seq<Byte>) {
    |f| == 64 + |body| && IsHeaderOf(f[..64], kind, clock, number, body) && f[64..] == body
  }

  lemma HeaderLayout(p: Packet)
    ensures IsHeaderOf(HeaderBytes(HeaderFor(p)), p.kind, p.clock, p.sent + 1, p.body)
  {
    hide Crc32, BigEndian, HeaderBytes, WordAt, QuadAt, ParseHeader;
    var h := HeaderFor(p);
    HeaderReadBack(h);
    HeaderFieldsAt(HeaderBytes(h));
    ReservedTail(h);
  }

  lemma ReservedTail(h: Header)
    ensures HeaderBytes(h)[48..] == Zeros(16)
  {}

  lemma FrameLayout(p: Packet)
    ensures IsFrameOf(Frame(p), p.kind, p.clock, p.sent + 1, p.body)
  {
    hide HeaderFor, HeaderBytes, IsHeaderOf;
    HeaderLayout(p);
    assert Frame(p)[..64] == HeaderBytes(HeaderFor(p)) && Frame(p)[64..] == p.body;
  }

  // ----- Receiving -----

  datatype Message = Message(header: Header, body: seq<Byte>)

  datatype Drained = Drained(messages: seq<Message>, rest: seq<Byte>)

  /** What one turn of the receive loop does with the bytes held. */
  datatype Turn =
    | Wait                              // not even a header, or not yet the whole frame
    | Skip(bytes: nat)                  // a byte before a magic, or a frame with a wrong checksum
    | Take(message: Message, bytes: nat)

  function NextTurn(b: seq<Byte>): (t: Turn)
    ensures !t.Wait? ==> 0 < t.bytes <= |b|
  {
    if |b| < HEADER_SIZE then Wait
    else
      var h := ParseHeader(b).value;
      var total := HEADER_SIZE + h.bodyLength;
      if h.magic != MAGIC then Skip(1)
      else if |b| < total then Wait
      else if Crc32(b[HEADER_SIZE..total]) != h.checksum then Skip(total)
      else Take(Message(h, b[HEADER_SIZE..total]), total)
  }

  /** The receive loop run until it stops. */
  function Drain(b: seq<Byte>): Drained
    decreases |b|
  {
    match NextTurn(b)
    case Wait => Drained([], b)
    case Skip(n) => Drain(b[n..])
    case Take(m, n) => var d := Drain(b[n..]); Drained([m] + d.messages, d.rest)
  }

  /** A header is read from the first 64 bytes only. */
  lemma HeaderFromFront(a: seq<Byte>, b: seq<Byte>)
    requires |a| >= HEADER_SIZE
    ensures ParseHeader(a + b) == ParseHeader(a)
  {
    var c := a + b;
    assert c[0..4] == a[0..4] && c[4..8] == a[4..8] && c[8..12] == a[8..12] && c[12..16] == a[12..16];
    assert c[16..24] == a[16..24] && c[24..32] == a[24..32] && c[32..40] == a[32..40];
    assert c[40..44] == a[40..44] && c[44..48] == a[44..48];
  }

  lemma TurnFromFront(a: seq<Byte>, b: seq<Byte>)
    requires !NextTurn(a).Wait?
    ensures NextTurn(a + b) == NextTurn(a)
  {
    HeaderFromFront(a, b);
    var total := HEADER_SIZE + ParseHeader(a).value.bodyLength;
    assert total <= |a| ==> (a + b)[HEADER_SIZE..total] == a[HEADER_SIZE..total];
  }

  /** Draining early and going on later is draining everything at once. */
  lemma {:induction false} DrainInTwoReads(a: seq<Byte>, b: seq<Byte>)
    ensures var d := Drain(a); var e := Drain(d.rest + b);
      Drain(a + b) == Drained(d.messages + e.messages, e.rest)
    decreases |a|
  {
    hide NextTurn;
    var t := NextTurn(a);
    if t.Wait? {
      assert [] + Drain(a + b).messages == Drain(a + b).messages;
    } else {
      TurnFromFront(a, b);
      assert (a + b)[t.bytes..] == a[t.bytes..] + b;
      DrainInTwoReads(a[t.bytes..], b);
      if t.Take? {
        var d := Drain(a[t.bytes..]);
        var e := Drain(d.rest + b);
        assert [t.message] + d.messages + e.messages == [t.message] + (d.messages + e.messages);
      }
    }
  }

  function Concat(pieces: seq<seq<Byte>>): seq<Byte> {
    if pieces == [] then [] else pieces[0] + Concat(pieces[1..])
  }

  /** Appending each read to what is held and draining after each of them. */
  function DrainEach(held: seq<Byte>, pieces: seq<seq<Byte>>): Drained
    decreases |pieces|
  {
    if pieces == [] then Drained([], held)
    else
      var d := Drain(held + pieces[0]);
      var e := DrainEach(d.rest, pieces[1..]);
      Drained(d.messages + e.messages, e.rest)
  }

  lemma {:induction false} DrainTwice(b: seq<Byte>)
    ensures NextTurn(Drain(b).rest).Wait?
    decreases |b|
  {
    var t := NextTurn(b);
    if !t.Wait? {
      DrainTwice(b[t.bytes..]);
    }
  }

  lemma {:induction false} FragmentationFrom(held: seq<Byte>, pieces: seq<seq<Byte>>)
    requires NextTurn(held).Wait?
    ensures DrainEach(held, pieces) == Drain(held + Concat(pieces))
    decreases |pieces|
  {
    if pieces == [] {
      assert held + Concat(pieces) == held;
    } else {
      var first, later := held + pieces[0], Concat(pieces[1..]);
      assert held + Concat(pieces) == first + later;
      DrainTwice(first);
      FragmentationFrom(Drain(first).rest, pieces[1..]);
      DrainInTwoReads(first, later);
    }
  }

  lemma NothingHeld()
    ensures NextTurn([]).Wait?
  {}

  /** However a stream is cut into reads, the same messages come out and the same bytes stay. */
  lemma FragmentationIrrelevant(pieces: seq<seq<Byte>>)
    ensures DrainEach([], pieces) == Drain(Concat(pieces))
  {
    hide Drain, Concat, DrainEach, NextTurn;
    NothingHeld();
    FragmentationFrom([], pieces);
    assert [] + Concat(pieces) == Concat(pieces);
  }

  // ----- What is delivered, and what is kept -----

  /** m stands intact in b after `skip` bytes. */
  ghost predicate IntactAt(b: seq<Byte>, skip: nat, m: Message) {
    skip + HEADER_SIZE + |m.body| <= |b| &&
    m.header.magic == MAGIC && m.header.bodyLength == |m.body| && m.header.checksum == Crc32(m.body) &&
    ParseHeader(b[skip..]) == Some(m.header) &&
    b[skip + HEADER_SIZE..skip + HEADER_SIZE + |m.body|] == m.body
  }

  lemma IntactInTail(b: seq<Byte>, n: nat, at: nat, m: Message)
    requires n <= |b| && IntactAt(b[n..], at, m)
    ensures IntactAt(b, n + at, m)
  {}

  function Moved(places: seq<nat>, n: nat): (moved: seq<nat>)
    ensures |moved| == |places| && forall i :: 0 <= i < |places| ==> moved[i] == places[i] + n
  {
    seq(|places|, i requires 0 <= i < |places| => places[i] + n)
  }

  /** Where the delivered messages stand in the buffer. */
  function Places(b: seq<Byte>): (places: seq<nat>)
    ensures |places| == |Drain(b).messages|
    decreases |b|
  {
    match NextTurn(b)
    case Wait => []
    case Skip(n) => Moved(Places(b[n..]), n)
    case Take(_, n) => [0] + Moved(Places(b[n..]), n)
  }

  function Span(m: Message): nat {
    HEADER_SIZE + |m.body|
  }

  /**
   * The messages stand intact in b at the given places, each after the end of the one before and
   * none before `from`; `rest` is a tail of b beyond the last.
   */
  ghost predicate Laid(b: seq<Byte>, from: nat, places: seq<nat>, ms: seq<Message>, rest: seq<Byte>)
    decreases |ms|
  {
    |places| == |ms| &&
    if ms == [] then from + |rest| <= |b| && rest == b[|b| - |rest|..]
    else from <= places[0] && IntactAt(b, places[0], ms[0]) &&
         Laid(b, places[0] + Span(ms[0]), places[1..], ms[1..], rest)
  }

  lemma {:induction false} LaidInTail(b: seq<Byte>, n: nat, from: nat, places: seq<nat>, ms: seq<Message>,
    rest: seq<Byte>)
    requires n <= |b| && Laid(b[n..], from, places, ms, rest)
    ensures Laid(b, n + from, Moved(places, n), ms, rest)
    decreases |ms|
  {
    hide IntactAt;
    if ms == [] {
      assert b[n..][|b| - n - |rest|..] == b[|b| - |rest|..];
    } else {
      IntactInTail(b, n, places[0], ms[0]);
      LaidInTail(b, n, places[0] + Span(ms[0]), places[1..], ms[1..], rest);
      assert Moved(places, n)[1..] == Moved(places[1..], n);
    }
  }

  lemma LaidEarlier(b: seq<Byte>, from: nat, places: seq<nat>, ms: seq<Message>, rest: seq<Byte>)
    requires Laid(b, from, places, ms, rest)
    ensures Laid(b, 0, places, ms, rest)
  {}

  lemma LaidBehind(b: seq<Byte>, m: Message, places: seq<nat>, ms: seq<Message>, rest: seq<Byte>)
    requires IntactAt(b, 0, m) && Laid(b[Span(m)..], 0, places, ms, rest)
    ensures Laid(b, 0, [0] + Moved(places, Span(m)), [m] + ms, rest)
  {
    var moved := Moved(places, Span(m));
    LaidInTail(b, Span(m), 0, places, ms, rest);
    assert ([0] + moved)[1..] == moved && ([m] + ms)[1..] == ms;
  }

  lemma TakenIntact(b: seq<Byte>)
    requires NextTurn(b).Take?
    ensures IntactAt(b, 0, NextTurn(b).message) && NextTurn(b).bytes == Span(NextTurn(b).message)
  {}

  /** Nothing is delivered that was not received whole, in that order, with its checksum right. */
  lemma {:induction false} DeliveredIntact(b: seq<Byte>)
    ensures Laid(b, 0, Places(b), Drain(b).messages, Drain(b).rest)
    decreases |b|
  {
    match NextTurn(b)
    case Wait =>
    case Skip(n) =>
      DeliveredIntact(b[n..]);
      LaidInTail(b, n, 0, Places(b[n..]), Drain(b[n..]).messages, Drain(b[n..]).rest);
      LaidEarlier(b, n, Places(b), Drain(b).messages, Drain(b).rest);
    case Take(m, n) =>
      DeliveredIntact(b[n..]);
      TakenIntact(b);
      LaidBehind(b, m, Places(b[n..]), Drain(b[n..]).messages, Drain(b[n..]).rest);
  }

  /** What stays behind is the beginning of at most one frame. */
  lemma {:induction false} RestIsOnePartialFrame(b: seq<Byte>)
    ensures var r := Drain(b).rest;
      |r| < HEADER_SIZE || (ParseHeader(r).value.magic == MAGIC && |r| < HEADER_SIZE + ParseHeader(r).value.bodyLength)
  {
    DrainTwice(b);
  }

  // ----- Round trip -----

  lemma DrainFront(front: seq<Byte>, h: Header, body: seq<Byte>, rest: seq<Byte>)
    requires |front| == HEADER_SIZE && ParseHeader(front) == Some(h)
    requires h.magic == MAGIC && h.bodyLength == |body|
    ensures var d := Drain(rest);
      Drain(front + body + rest)
      == if Crc32(body) == h.checksum then Drained([Message(h, body)] + d.messages, d.rest) else d
  {
    var b := front + body + rest;
    assert b == front + (body + rest);
    HeaderFromFront(front, body + rest);
    assert b[HEADER_SIZE..HEADER_SIZE + |body|] == body;
    assert b[HEADER_SIZE + |body|..] == rest;
  }

  lemma SenderHeader(p: Packet)
    requires |p.body| < TWO_32
    ensures ParseHeader(HeaderBytes(HeaderFor(p))) == Some(HeaderFor(p))
    ensures HeaderFor(p).bodyLength == |p.body|
  {
    hide Crc32;
    HeaderReadBack(HeaderFor(p));
  }

  /** Delivers a frame at the front, or drops it if its body no longer matches the checksum. */
  lemma FrameStep(p: Packet, body: seq<Byte>, rest: seq<Byte>)
    requires |p.body| == |body| < TWO_32
    ensures var d := Drain(rest);
      Drain(HeaderBytes(HeaderFor(p)) + body + rest)
      == if Crc32(body) == Crc32(p.body) then Drained([Message(HeaderFor(p), body)] + d.messages, d.rest) else d
  {
    var front, h := HeaderBytes(HeaderFor(p)), HeaderFor(p);
    assert ParseHeader(front) == Some(h) && h.bodyLength == |body| by { SenderHeader(p); }
    DrainFront(front, h, body, rest);
  }

  function Received(packets: seq<Packet>): (ms: seq<Message>)
    ensures |ms| == |packets|
  {
    seq(|packets|, i requires 0 <= i < |packets| => Message(HeaderFor(packets[i]), packets[i].body))
  }

  ghost predicate Sendable(packets: seq<Packet>) {
    forall p :: p in packets ==> |p.body| < TWO_32
  }

  lemma ReceivedFirst(packets: seq<Packet>, more: seq<Message>)
    requires packets != []
    ensures Received(packets) + more
         == [Message(HeaderFor(packets[0]), packets[0].body)] + (Received(packets[1..]) + more)
  {}

  lemma StreamFirst(packets: seq<Packet>, rest: seq<Byte>)
    requires packets != []
    ensures Stream(packets) + rest
         == HeaderBytes(HeaderFor(packets[0])) + packets[0].body + (Stream(packets[1..]) + rest)
  {}

  lemma {:induction false} StreamDelivered(packets: seq<Packet>, rest: seq<Byte>)
    requires Sendable(packets)
    ensures Drain(Stream(packets) + rest).messages == Received(packets) + Drain(rest).messages
    ensures Drain(Stream(packets) + rest).rest == Drain(rest).rest
    decreases |packets|
  {
    if packets == [] {
      assert Stream(packets) + rest == rest;
    } else {
      StreamFirst(packets, rest);
      FrameStep(packets[0], packets[0].body, Stream(packets[1..]) + rest);
      StreamDelivered(packets[1..], rest);
      ReceivedFirst(packets, Drain(rest).messages);
    }
  }

  predicate MagicAt(b: seq<Byte>, i: nat) {
    i + 4 <= |b| && ReadWord(b, i) == MAGIC
  }

  lemma {:induction false} GarbageSkipped(garbage: seq<Byte>, b: seq<Byte>)
    requires |b| >= HEADER_SIZE
    requires forall i :: 0 <= i < |garbage| ==> !MagicAt(garbage + b, i)
    ensures Drain(garbage + b) == Drain(b)
    decreases |garbage|
  {
    var all := garbage + b;
    if garbage == [] {
      assert all == b;
    } else {
      assert !MagicAt(all, 0);
      assert all[1..] == garbage[1..] + b;
      forall i | 0 <= i < |garbage[1..]| ensures !MagicAt(garbage[1..] + b, i) {
        assert all[i + 1..i + 5] == all[1..][i..i + 4];
        assert !MagicAt(all, i + 1);
      }
      GarbageSkipped(garbage[1..], b);
    }
  }

  /** The message delivered is the packet that was sent, field by field. */
  predicate Delivers(m: Message, p: Packet) {
    && m.body == p.body
    && m.header.magic == 0x5343_5400 && m.header.version == 0x0003_0000
    && m.header.kind == p.kind && m.header.flags == 0 && m.header.timestamp == p.clock
    && m.header.messageId == (p.sent + 1) % 0x1_0000_0000_0000_0000 && m.header.correlationId == 0
    && m.header.bodyLength == |p.body| && m.header.checksum == Crc32(p.body)
  }

  /**
   * Any frames behind any bytes in which the magic does not occur before the first frame's start:
   * exactly those frames are delivered, in order, and the buffer ends empty.
   */
  lemma RoundTripWithResync(garbage: seq<Byte>, packets: seq<Packet>)
    requires packets != [] && Sendable(packets)
    requires forall i :: 0 <= i < |garbage| ==> !MagicAt(garbage + Stream(packets), i)
    ensures Drain(garbage + Stream(packets)) == Drained(Received(packets), [])
    ensures var delivered := Drain(garbage + Stream(packets)).messages;
      |delivered| == |packets| && forall i :: 0 <= i < |packets| ==> Delivers(delivered[i], packets[i])
  {
    hide *;
    StreamNotShort(packets);
    GarbageSkipped(garbage, Stream(packets));
    StreamDelivered(packets, []);
    NothingToDrain();
    assert Stream(packets) + [] == Stream(packets);
    assert Received(packets) + [] == Received(packets);
    ReceivedIsSent(packets);
  }

  lemma ReceivedIsSent(packets: seq<Packet>)
    requires Sendable(packets)
    ensures forall i :: 0 <= i < |packets| ==> Delivers(Received(packets)[i], packets[i])
  {
    hide Crc32;
  }

  lemma NothingToDrain()
    ensures Drain([]) == Drained([], [])
  {}

  lemma StreamNotShort(packets: seq<Packet>)
    requires packets != []
    ensures |Stream(packets)| >= HEADER_SIZE
  {}

  lemma {:induction false} DeliveredLengths(b: seq<Byte>)
    ensures forall m :: m in Drain(b).messages ==> |m.body| < TWO_32
    decreases |b|
  {
    var t := NextTurn(b);
    if !t.Wait? {
      DeliveredLengths(b[t.bytes..]);
      if t.Take? { TakenIntact(b); }
    }
  }

  /** A frame comes through exactly when its length fits the 32-bit length field. */
  lemma FrameComesThrough(p: Packet)
    ensures Drain(Frame(p)) == Drained([Message(HeaderFor(p), p.body)], []) <==> |p.body| < TWO_32
  {
    if |p.body| < TWO_32 {
      FrameStep(p, p.body, []);
      assert HeaderBytes(HeaderFor(p)) + p.body + [] == Frame(p);
    } else {
      DeliveredLengths(Frame(p));
      assert Message(HeaderFor(p), p.body) in [Message(HeaderFor(p), p.body)];
    }
  }

  // ----- Damage -----

  /**
   * A burst of at most 32 wrong bits inside one body loses that message and nothing else: it is
   * never delivered, and the frames around it are.
   */
  lemma BurstLosesOneMessage(before: seq<Packet>, p: Packet, damaged: seq<Byte>, start: nat, after: seq<Packet>)
    requires Sendable(before) && |p.body| < TWO_32 && Sendable(after)
    requires WithinBurst(p.body, damaged, start) && damaged != p.body
    ensures Drain(Stream(before) + (HeaderBytes(HeaderFor(p)) + damaged + Stream(after)))
         == Drained(Received(before) + Received(after), [])
  {
    BurstDetected(p.body, damaged, start);
    FrameStep(p, damaged, Stream(after));
    StreamDelivered(before, HeaderBytes(HeaderFor(p)) + damaged + Stream(after));
    StreamDelivered(after, []);
    assert Stream(after) + [] == Stream(after);
    assert Received(after) + Drain([]).messages == Received(after);
  }
}
