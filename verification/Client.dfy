/**
 * The connection object of client/core.c: the send path with its counters, and the receive buffer
 * that grows, is drained in place and shifted down.
 *
 * What the operating system does is an argument: how many bytes a send accepted, what a read
 * brought, whether memory could be had.
 */
module Client {
  import opened Basics
  import opened Checksum
  import opened Protocol
  import opened Framing

  const BUFFER_SIZE: nat := 65536
  const READ_ROOM: nat := 4096

  /** memmove of a[n..used] to the front of a. */
  method MoveDown(a: array<Byte>, n: nat, used: nat)
    requires n <= used <= a.Length
    modifies a
    ensures a[..used - n] == old(a[n..used])
  {
    ghost var moved := a[n..used];
    for i := 0 to used - n
      invariant a[..i] == moved[..i]
      invariant a[n + i..used] == moved[i..]
    {
      assert a[n + i] == a[n + i..used][0];
      assert a[n + i + 1..used] == a[n + i..used][1..];
      a[i] := a[n + i];
      assert a[..i + 1] == a[..i] + [moved[i]];
    }
  }

  /** The header of a message, with the checksum computed over its body. */
  method BuildHeader(p: Packet) returns (headerBuffer: array<Byte>)
    ensures fresh(headerBuffer) && headerBuffer[..] == HeaderBytes(HeaderFor(p))
    ensures IsHeaderOf(headerBuffer[..], p.kind, p.clock, p.sent + 1, p.body)
  {
    hide Crc32, HeaderBytes, IsHeaderOf, WordAt, QuadAt;
    HeaderLayout(p);
    var content := new Byte[|p.body|](i requires 0 <= i < |p.body| => p.body[i]);
    assert content[..] == p.body;
    var checksum := CalculateChecksum(content);
    var header := Header(MAGIC, VERSION, p.kind, 0, p.clock, (p.sent + 1) % TWO_64, 0, |p.body| % TWO_32, checksum);
    headerBuffer := SerializeHeader(header);
  }

  class Connection {
    var active: bool
    var buffer: array<Byte>
    var used: nat
    var messagesReceived: nat
    var bytesReceived: nat
    var handled: seq<Message>
    var messagesSent: nat
    var bytesSent: nat
    var wire: seq<Byte>

    /** Every byte the reads have brought so far. */
    ghost var stream: seq<Byte>

    /**
     * Between reads the receiver is a function of the stream: what was handed over and what is
     * held are exactly what one drain of all the bytes received so far would give.
     */
    ghost predicate Valid()
      reads this, buffer
    {
      buffer.Length >= BUFFER_SIZE && used <= buffer.Length &&
      Drain(stream) == Drained(handled, buffer[..used]) &&
      messagesReceived == |handled| && bytesReceived == |stream|
    }

    constructor ()
      ensures Valid() && fresh(buffer) && active && stream == [] && handled == []
      ensures buffer.Length == BUFFER_SIZE && messagesSent == bytesSent == 0 && wire == []
    {
      active, used, messagesReceived, bytesReceived, handled := true, 0, 0, 0, [];
      messagesSent, bytesSent, wire := 0, 0, [];
      buffer := new Byte[BUFFER_SIZE](_ => 0);
      stream := [];
    }

    // ----- Sending -----

    /**
     * The send path. Only a frame that went out whole is counted; a short write of the header or
     * of the body leaves that prefix of the frame on the wire.
     */
    method SendMessage(kind: Word, body: seq<Byte>, clock: Quad, headerAccepted: nat, bodyAccepted: nat)
      returns (code: int)
      requires headerAccepted <= HEADER_SIZE && bodyAccepted <= |body|
      modifies this`wire, this`messagesSent, this`bytesSent
      ensures var frame := Frame(Packet(kind, body, clock, old(messagesSent)));
        if !active then code == -1 && wire == old(wire)
        else if headerAccepted < HEADER_SIZE then code == -2 && wire == old(wire) + frame[..headerAccepted]
        else if bodyAccepted < |body| then code == -3 && wire == old(wire) + frame[..HEADER_SIZE + bodyAccepted]
        else code == 0 && wire == old(wire) + frame
      ensures code == 0 ==> IsFrameOf(wire[|old(wire)|..], kind, clock, old(messagesSent) + 1, body)
      ensures messagesSent == old(messagesSent) + (if code == 0 then 1 else 0)
      ensures bytesSent == old(bytesSent) + (if code == 0 then HEADER_SIZE + |body| else 0)
    {
      hide HeaderBytes, HeaderFor, IsFrameOf, IsHeaderOf;
      if !active {
        return -1;
      }
      FrameLayout(Packet(kind, body, clock, messagesSent));
      var headerBuffer := BuildHeader(Packet(kind, body, clock, messagesSent));
      ghost var frame := headerBuffer[..] + body;
      wire := wire + headerBuffer[..headerAccepted];
      assert headerBuffer[..headerAccepted] == frame[..headerAccepted];
      if headerAccepted != HEADER_SIZE {
        return -2;
      }
      assert frame[..HEADER_SIZE] + body[..bodyAccepted] == frame[..HEADER_SIZE + bodyAccepted];
      if |body| > 0 {
        wire := wire + body[..bodyAccepted];
        if bodyAccepted != |body| {
          return -3;
        }
      }
      assert frame[..HEADER_SIZE + |body|] == frame;
      assert wire[|old(wire)|..] == frame;
      messagesSent := messagesSent + 1;
      bytesSent := bytesSent + HEADER_SIZE + |body|;
      return 0;
    }

    // ----- Receiving -----

    function GrownSize(): nat
      reads this
    {
      if used + READ_ROOM > buffer.Length then buffer.Length * 2 else buffer.Length
    }

    /** realloc to twice the size: the bytes held stay where they are. */
    method Grow()
      requires used <= buffer.Length
      modifies this`buffer
      ensures fresh(buffer) && buffer.Length == 2 * old(buffer.Length)
      ensures buffer[..used] == old(buffer[..used])
    {
      var bigger := new Byte[buffer.Length * 2](_ => 0);
      Store(bigger, 0, buffer[..used]);
      buffer := bigger;
    }

    /**
     * One read. Before it there is room for at least 4096 bytes, and a buffer that grew is smaller
     * than twice what it must hold. No bytes stands for a closed connection, no data, or an error.
     */
    method ReceiveMessage(memoryLeft: bool, bytes: seq<Byte>) returns (code: int)
      requires Valid()
      requires |bytes| <= GrownSize() - used
      modifies this, buffer
      ensures Valid() && active == old(active)
      ensures buffer == old(buffer) || fresh(buffer)
      ensures messagesSent == old(messagesSent) && bytesSent == old(bytesSent) && wire == old(wire)
      ensures var starved := old(GrownSize() != buffer.Length) && !memoryLeft;
        if !active then code == -1 && stream == old(stream)
        else if starved then code == -2 && stream == old(stream)
        else if bytes == [] then code == -3 && stream == old(stream)
        else code == |handled| - |old(handled)| && stream == old(stream) + bytes
      ensures code in {-1, -2} ==> buffer.Length == old(buffer.Length)
      ensures code !in {-1, -2} ==>
        buffer.Length == old(GrownSize()) && buffer.Length - old(used) >= READ_ROOM &&
        (buffer.Length == old(buffer.Length) || buffer.Length < 2 * (old(used) + READ_ROOM))
    {
      hide Drain;
      if !active {
        return -1;
      }
      if used + READ_ROOM > buffer.Length {
        if !memoryLeft {
          return -2;
        }
        Grow();
      }
      if bytes == [] {
        return -3;
      }
      ghost var held := buffer[..used];
      Store(buffer, used, bytes);
      assert buffer[..used + |bytes|] == held + bytes;
      DrainInTwoReads(stream, bytes);
      stream := stream + bytes;
      used := used + |bytes|;
      bytesReceived := bytesReceived + |bytes|;
      code := ProcessReceivedData();
    }

    /** Drops n bytes from the front of what is held. */
    method Discard(n: nat)
      requires 0 < n <= used <= buffer.Length
      modifies this`used, buffer
      ensures used == old(used) - n && buffer[..used] == old(buffer[n..used])
    {
      MoveDown(buffer, n, used);
      used := used - n;
    }

    /** One look at the front of the buffer: header, magic, length, checksum. */
    method Inspect() returns (turn: Turn)
      requires used <= buffer.Length
      ensures turn == NextTurn(buffer[..used])
    {
      if used < HEADER_SIZE {
        return Wait;
      }
      var header := ParseHeader(buffer[..used]).value;
      if header.magic != MAGIC {
        return Skip(1);
      }
      var total := HEADER_SIZE + header.bodyLength;
      if used < total {
        return Wait;
      }
      var body := buffer[HEADER_SIZE..total];
      assert body == buffer[..used][HEADER_SIZE..total];
      if Crc32(body) != header.checksum {
        return Skip(total);
      }
      return Take(Message(header, body), total);
    }

    /** The drain loop. Every turn that does not stop it removes at least one byte. */
    method ProcessReceivedData() returns (processed: nat)
      requires used <= buffer.Length
      modifies this`used, this`messagesReceived, this`handled, buffer
      ensures used <= buffer.Length
      ensures var d := old(Drain(buffer[..used]));
        handled == old(handled) + d.messages && buffer[..used] == d.rest && processed == |d.messages|
      ensures messagesReceived == old(messagesReceived) + processed
    {
      hide NextTurn;
      processed := 0;
      ghost var d := Drain(buffer[..used]);
      while true
        invariant used <= buffer.Length && processed <= |d.messages|
        invariant handled == old(handled) + d.messages[..processed]
        invariant Drain(buffer[..used]) == Drained(d.messages[processed..], d.rest)
        invariant messagesReceived == old(messagesReceived) + processed
        decreases used
      {
        ghost var b := buffer[..used];
        var turn := Inspect();
        match turn
        case Wait =>
          return;
        case Skip(n) =>
          Discard(n);
          assert buffer[..used] == b[n..];
        case Take(message, n) =>
          handled := handled + [message];
          Discard(n);
          assert buffer[..used] == b[n..];
          assert d.messages[processed..] == [message] + Drain(b[n..]).messages;
          assert d.messages[..processed + 1] == d.messages[..processed] + [message];
          processed := processed + 1;
          messagesReceived := messagesReceived + 1;
      }
    }
  }
}
