/**
 * Request bookkeeping of the browser client (web/websocket-client.ts): requests wait in a queue,
 * in flight under a correlation id, or are settled; the wire sees numbered frames.
 *
 * Every callback of the platform is an event, and events come in any order: the two halves of a
 * socket opening (the state change and the flush) are separate events because user callbacks run
 * between them. A promise is named by the number of its request.
 */
module WebSocketClient {
  import opened Basics
  import opened Protocol
  import opened Checksum

  const HEARTBEAT: Word := 0x0000_0002
  const LOGIN_RESPONSE: Word := 0x0100_0002
  const FLAG_RESPONSE: nat := 16

  datatype ConnectionState = Disconnected | Connecting | Connected | Authenticated | Reconnecting | Failed

  datatype Request = Request(id: nat, kind: Word, data: seq<Byte>)

  /** A frame given to the socket, with the request it serves and whether it had been queued. */
  datatype Frame = Frame(messageId: nat, correlationId: nat, kind: Word, data: seq<Byte>, request: nat, queued: bool)

  datatype Outcome = Nothing | Reply(body: seq<Byte>) | Rejected

  datatype Settlement = Settlement(request: nat, outcome: Outcome)

  datatype Submission = Submission(kind: Word, data: seq<Byte>, expects: bool)

  /** What the outside sees: what was asked for, sent and answered, and what disconnecting abandoned. */
  datatype History = History(submitted: seq<Submission>, wire: seq<Frame>, settled: seq<Settlement>, dropped: set<nat>)

  datatype State = State(
    conn: ConnectionState, socket: bool, reconnects: nat,
    pending: seq<Request>, waiting: map<nat, nat>,
    nextMessage: nat, nextCorrelation: nat, history: History)

  datatype Event =
    | Send(kind: Word, data: seq<Byte>, expects: bool, throws: bool)
    | Connect(opens: bool)
    | Opened
    | Flush(throwing: set<nat>)
    | Closed(code: int)
    | SocketError
    | RetryFailed
    | Received(raw: seq<Byte>)
    | ResponseTimeout(correlationId: nat)
    | Disconnect

  // ----- One event -----

  predicate CanSend(s: State) {
    s.socket && s.conn == Connected
  }

  function Settle(s: State, id: nat, outcome: Outcome): State {
    s.(history := s.history.(settled := s.history.settled + [Settlement(id, outcome)]))
  }

  /** The body of sendMessage for a promise that already exists. */
  function Deliver(s: State, q: Request, queued: bool, expects: bool, throws: bool): State {
    if !CanSend(s) then s.(pending := s.pending + [q])
    else
      var c := if expects then s.nextCorrelation else 0;
      var next := if expects then s.nextCorrelation + 1 else s.nextCorrelation;
      var t := s.(nextMessage := s.nextMessage + 1, nextCorrelation := next);
      if throws then Settle(t, q.id, Rejected)
      else
        var frame := Frame(s.nextMessage, c, q.kind, q.data, q.id, queued);
        var u := t.(history := t.history.(wire := t.history.wire + [frame]));
        if expects && c != 0 then u.(waiting := u.waiting[c := q.id]) else Settle(u, q.id, Nothing)
  }

  function Submit(s: State, kind: Word, data: seq<Byte>, expects: bool): State {
    s.(history := s.history.(submitted := s.history.submitted + [Submission(kind, data, expects)]))
  }

  function NewRequest(s: State, kind: Word, data: seq<Byte>): Request {
    Request(|s.history.submitted|, kind, data)
  }

  /** Flushing an open connection sends the queue from its head; otherwise everything is queued again. */
  function FlushAll(s: State, throwing: set<nat>): State
    decreases |s.pending|
  {
    if !CanSend(s) || s.pending == [] then s
    else
      var q := s.pending[0];
      FlushAll(Deliver(s.(pending := s.pending[1..]), q, true, false, q.id in throwing), throwing)
  }

  function Reconnect(s: State): State {
    s.(reconnects := s.reconnects + 1, conn := Reconnecting)
  }

  function BodyOf(raw: seq<Byte>, h: Header): seq<Byte>
    requires |raw| >= HEADER_SIZE
  {
    raw[HEADER_SIZE..Least(|raw|, HEADER_SIZE + h.bodyLength)]
  }

  function Respond(s: State, c: nat, body: seq<Byte>): State {
    if c in s.waiting then Settle(s, s.waiting[c], Reply(body)).(waiting := s.waiting - {c}) else s
  }

  function LoginAnswer(s: State, body: seq<Byte>): State {
    if |body| >= 28 && ReadWord(body, 0) == 200 && ReadWord(body, 4) == 0 then s.(conn := Authenticated) else s
  }

  function Handle(s: State, raw: seq<Byte>): State {
    var header := ParseHeader(raw);
    if header.None? || !ValidateHeader(header.value) then s
    else
      var h := header.value;
      var body := BodyOf(raw, h);
      if Signed(Crc32(body)) != h.checksum || h.kind == HEARTBEAT then s
      else if h.flags / FLAG_RESPONSE % 2 == 1 then Respond(s, h.correlationId, body)
      else if h.kind == LOGIN_RESPONSE then LoginAnswer(s, body)
      else s
  }

  function QueuedIds(pending: seq<Request>): set<nat> {
    set q | q in pending :: q.id
  }

  function Abandoned(s: State): set<nat> {
    QueuedIds(s.pending) + s.waiting.Values
  }

  function Drop(s: State): State {
    s.(conn := Disconnected, socket := false, pending := [], waiting := map[],
       history := s.history.(dropped := s.history.dropped + Abandoned(s)))
  }

  function Step(s: State, attempts: nat, e: Event): State {
    match e
    case Send(kind, data, expects, throws) =>
      Deliver(Submit(s, kind, data, expects), NewRequest(s, kind, data), false, expects, throws)
    case Connect(opens) =>
      if s.conn == Connected || s.conn == Connecting then s
      else if opens then s.(conn := Connecting, socket := true) else s.(conn := Failed)
    case Opened => s.(conn := Connected, reconnects := 0)
    case Flush(throwing) => FlushAll(s, throwing)
    case Closed(code) =>
      if code == 1000 || code == 1001 then s.(conn := Disconnected)
      else if s.reconnects < attempts then Reconnect(s) else s.(conn := Disconnected)
    case SocketError => s.(conn := Failed)
    case RetryFailed => if s.reconnects < attempts then Reconnect(s) else s
    case Received(raw) => Handle(s, raw)
    case ResponseTimeout(c) =>
      if c in s.waiting then Settle(s, s.waiting[c], Rejected).(waiting := s.waiting - {c}) else s
    case Disconnect => Drop(s)
  }

  // ----- The client -----

  class SecureChatWebSocket {
    const attempts: nat
    var state: ConnectionState
    var socket: bool
    var reconnectCount: nat
    var pendingMessages: seq<Request>
    var correlationMap: map<nat, nat>
    var nextMessageId: nat
    var nextCorrelationId: nat
    var history: History

    function Now(): State
      reads this
    {
      State(state, socket, reconnectCount, pendingMessages, correlationMap, nextMessageId, nextCorrelationId, history)
    }

    constructor (attempts: nat)
      ensures Now() == Initial() && this.attempts == attempts
    {
      this.attempts := attempts;
      state, socket, reconnectCount := Disconnected, false, 0;
      pendingMessages, correlationMap := [], map[];
      nextMessageId, nextCorrelationId := 1, 1;
      history := History([], [], [], {});
    }

    method SettlePromise(id: nat, outcome: Outcome)
      modifies this`history
      ensures Now() == Settle(old(Now()), id, outcome)
    {
      history := history.(settled := history.settled + [Settlement(id, outcome)]);
    }

    method DeliverMessage(q: Request, queued: bool, expectResponse: bool, throws: bool)
      modifies this
      ensures Now() == Deliver(old(Now()), q, queued, expectResponse, throws)
    {
      if !socket || state != Connected {
        pendingMessages := pendingMessages + [q];
        return;
      }
      var messageId, correlationId := nextMessageId, 0;
      nextMessageId := nextMessageId + 1;
      if expectResponse {
        correlationId := nextCorrelationId;
        nextCorrelationId := nextCorrelationId + 1;
      }
      if throws {
        SettlePromise(q.id, Rejected);
        return;
      }
      history := history.(wire := history.wire + [Frame(messageId, correlationId, q.kind, q.data, q.id, queued)]);
      if expectResponse && correlationId != 0 {
        correlationMap := correlationMap[correlationId := q.id];
      } else {
        SettlePromise(q.id, Nothing);
      }
    }

    method SendMessage(kind: Word, data: seq<Byte>, expectResponse: bool, throws: bool) returns (request: nat)
      modifies this
      ensures Now() == Step(old(Now()), attempts, Send(kind, data, expectResponse, throws))
    {
      request := |history.submitted|;
      history := history.(submitted := history.submitted + [Submission(kind, data, expectResponse)]);
      DeliverMessage(Request(request, kind, data), false, expectResponse, throws);
    }

    /** The queue is copied and emptied first; what cannot be sent queues itself again. */
    method FlushPendingMessages(throwing: set<nat>)
      modifies this
      ensures Now() == Step(old(Now()), attempts, Flush(throwing))
    {
      var messages := pendingMessages;
      pendingMessages := [];
      ghost var open := CanSend(Now());
      for i := 0 to |messages|
        invariant CanSend(Now()) == open
        invariant open ==> pendingMessages == []
        invariant open ==> FlushAll(Now().(pending := messages[i..]), throwing) == FlushAll(old(Now()), throwing)
        invariant !open ==> Now() == old(Now()).(pending := messages[..i])
      {
        assert messages[i..][0] == messages[i] && messages[i..][1..] == messages[i + 1..];
        DeliverEmptiesNothing(Now(), messages[i], messages[i + 1..], messages[i].id in throwing);
        DeliverMessage(messages[i], true, false, messages[i].id in throwing);
      }
    }

    method HandleMessage(raw: seq<Byte>)
      modifies this
      ensures Now() == Step(old(Now()), attempts, Received(raw))
    {
      var header := ParseHeader(raw);
      if header.None? || !ValidateHeader(header.value) { return; }
      var h := header.value;
      var body := BodyOf(raw, h);
      if Signed(Crc32(body)) != h.checksum { return; }
      if h.kind == HEARTBEAT { return; }
      if h.flags / FLAG_RESPONSE % 2 == 1 {
        if h.correlationId in correlationMap {
          SettlePromise(correlationMap[h.correlationId], Reply(body));
          correlationMap := correlationMap - {h.correlationId};
        }
        return;
      }
      if h.kind == LOGIN_RESPONSE && |body| >= 28 && ReadWord(body, 0) == 200 && ReadWord(body, 4) == 0 {
        SetState(Authenticated);
      }
    }

    method OnResponseTimeout(correlationId: nat)
      modifies this
      ensures Now() == Step(old(Now()), attempts, ResponseTimeout(correlationId))
    {
      if correlationId in correlationMap {
        var request := correlationMap[correlationId];
        correlationMap := correlationMap - {correlationId};
        SettlePromise(request, Rejected);
      }
    }

    method SetState(next: ConnectionState)
      modifies this`state, this`reconnectCount
      ensures state == next && reconnectCount == if next == Connected then 0 else old(reconnectCount)
    {
      state := next;
      if next == Connected { reconnectCount := 0; }
    }

    method ConnectSocket(opens: bool)
      modifies this
      ensures Now() == Step(old(Now()), attempts, Connect(opens))
    {
      if state == Connected || state == Connecting { return; }
      SetState(Connecting);
      if opens {
        socket := true;
      } else {
        SetState(Failed);
      }
    }

    method OnOpen()
      modifies this
      ensures Now() == Step(old(Now()), attempts, Opened)
    {
      SetState(Connected);
    }

    method OnError()
      modifies this
      ensures Now() == Step(old(Now()), attempts, SocketError)
    {
      SetState(Failed);
    }

    method ScheduleReconnect()
      modifies this
      ensures Now() == Reconnect(old(Now()))
    {
      reconnectCount := reconnectCount + 1;
      SetState(Reconnecting);
    }

    method OnClose(code: int)
      modifies this
      ensures Now() == Step(old(Now()), attempts, Closed(code))
    {
      if code == 1000 || code == 1001 {
        SetState(Disconnected);
      } else if reconnectCount < attempts {
        ScheduleReconnect();
      } else {
        SetState(Disconnected);
      }
    }

    method OnRetryFailed()
      modifies this
      ensures Now() == Step(old(Now()), attempts, RetryFailed)
    {
      if reconnectCount < attempts {
        ScheduleReconnect();
      }
    }

    method DisconnectClient()
      modifies this
      ensures Now() == Step(old(Now()), attempts, Disconnect)
    {
      history := history.(dropped := history.dropped + Abandoned(Now()));
      pendingMessages := [];
      correlationMap := map[];
      socket := false;
      SetState(Disconnected);
    }
  }

  lemma DeliverEmptiesNothing(s: State, q: Request, rest: seq<Request>, throws: bool)
    ensures CanSend(Deliver(s, q, true, false, throws)) == CanSend(s)
    ensures CanSend(s) ==>
      Deliver(s, q, true, false, throws).(pending := rest) == Deliver(s.(pending := rest), q, true, false, throws)
    ensures CanSend(s) ==> Deliver(s, q, true, false, throws).pending == s.pending
  {}

  function Initial(): State {
    State(Disconnected, false, 0, [], map[], 1, 1, History([], [], [], {}))
  }

  function Run(s: State, attempts: nat, events: seq<Event>): State
    decreases |events|
  {
    if events == [] then s
    else Step(Run(s, attempts, events[..|events| - 1]), attempts, events[|events| - 1])
  }

  // ----- What each event comes to -----

  /** Only what was asked for, the wire, the answers, the queue, the waiting and the numbers may differ. */
  predicate SameConnection(s: State, t: State) {
    t.conn == s.conn && t.socket == s.socket && t.reconnects == s.reconnects && t.history.dropped == s.history.dropped
  }

  /** A request is queued, rejected, or sent under the next number; then it waits for its reply, or is done. */
  lemma SendMeaning(s: State, attempts: nat, kind: Word, data: seq<Byte>, expects: bool, throws: bool)
    requires s.nextCorrelation > 0
    ensures var t, r := Step(s, attempts, Send(kind, data, expects, throws)), |s.history.submitted|;
      var open, c := s.socket && s.conn == Connected, if expects then s.nextCorrelation else 0;
      && SameConnection(s, t) && t.history.submitted == s.history.submitted + [Submission(kind, data, expects)]
      && t.pending == s.pending + (if open then [] else [Request(r, kind, data)])
      && t.history.wire == s.history.wire +
           (if open && !throws then [Frame(s.nextMessage, c, kind, data, r, false)] else [])
      && t.waiting == (if open && !throws && expects then s.waiting[c := r] else s.waiting)
      && t.history.settled == s.history.settled + (if !open then [] else if throws then [Settlement(r, Rejected)]
           else if expects then [] else [Settlement(r, Nothing)])
      && t.nextMessage == s.nextMessage + (if open then 1 else 0)
      && t.nextCorrelation == s.nextCorrelation + (if open && expects then 1 else 0)
  {}

  /** What a queue becomes on the wire and among the answers when it is sent from number n on. */
  function FlushedFrames(queue: seq<Request>, n: nat, throwing: set<nat>): seq<Frame> {
    if queue == [] then []
    else
      var q := queue[0];
      (if q.id in throwing then [] else [Frame(n, 0, q.kind, q.data, q.id, true)]) +
      FlushedFrames(queue[1..], n + 1, throwing)
  }

  function FlushedAnswers(queue: seq<Request>, throwing: set<nat>): seq<Settlement> {
    if queue == [] then []
    else
      var outcome := if queue[0].id in throwing then Rejected else Nothing;
      [Settlement(queue[0].id, outcome)] + FlushedAnswers(queue[1..], throwing)
  }

  /** An open flush sends the whole queue in order and settles it; any other flush changes nothing. */
  lemma {:induction false} FlushSendsQueue(s: State, throwing: set<nat>)
    ensures !(s.socket && s.conn == Connected) ==> FlushAll(s, throwing) == s
    ensures s.socket && s.conn == Connected ==> var t := FlushAll(s, throwing);
      && SameConnection(s, t) && t.pending == [] && t.waiting == s.waiting
      && t.history.submitted == s.history.submitted
      && t.history.wire == s.history.wire + FlushedFrames(s.pending, s.nextMessage, throwing)
      && t.history.settled == s.history.settled + FlushedAnswers(s.pending, throwing)
      && t.nextMessage == s.nextMessage + |s.pending| && t.nextCorrelation == s.nextCorrelation
    decreases |s.pending|
  {
    hide Deliver;
    if s.socket && s.conn == Connected && s.pending != [] {
      HeadSent(s, s.pending[0].id in throwing);
      FlushSendsQueue(
        Deliver(s.(pending := s.pending[1..]), s.pending[0], true, false, s.pending[0].id in throwing), throwing);
    }
  }

  lemma HeadSent(s: State, throws: bool)
    requires CanSend(s) && s.pending != []
    ensures var q := s.pending[0]; var t := Deliver(s.(pending := s.pending[1..]), q, true, false, throws);
      && CanSend(t) && SameConnection(s, t) && t.pending == s.pending[1..] && t.waiting == s.waiting
      && t.history.submitted == s.history.submitted
      && t.history.wire == s.history.wire +
           (if throws then [] else [Frame(s.nextMessage, 0, q.kind, q.data, q.id, true)])
      && t.history.settled == s.history.settled + [Settlement(q.id, if throws then Rejected else Nothing)]
      && t.nextMessage == s.nextMessage + 1 && t.nextCorrelation == s.nextCorrelation
  {}

  /** The body a frame carries: as much as its length field says, or as there is. */
  function Carried(raw: seq<Byte>): seq<Byte>
    requires |raw| >= 64
  {
    raw[64..if 64 + WordAt(raw, 40) <= |raw| then 64 + WordAt(raw, 40) else |raw|]
  }

  /** Magic, version, and a checksum whose top bit is clear and that is that of the body. */
  predicate Acceptable(raw: seq<Byte>) {
    |raw| >= 64 && WordAt(raw, 0) == 0x5343_5400 && WordAt(raw, 4) == 0x0003_0000 &&
    WordAt(raw, 44) == Crc32(Carried(raw)) < 0x8000_0000
  }

  /** The status code 200 and no error, in a body long enough for what is read behind them. */
  predicate LogsIn(body: seq<Byte>) {
    |body| >= 28 && WordAt(body, 0) == 200 && WordAt(body, 4) == 0
  }

  predicate IsResponse(raw: seq<Byte>)
    requires |raw| >= 64
  {
    WordAt(raw, 12) / 16 % 2 == 1
  }

  /** The request waiting under c has got this reply. */
  function WithReply(s: State, c: nat, body: seq<Byte>): State
    requires c in s.waiting
  {
    var answer := Settlement(s.waiting[c], Reply(body));
    s.(waiting := s.waiting - {c}, history := s.history.(settled := s.history.settled + [answer]))
  }

  /** A reply, no heartbeat, to a request that is waiting. */
  predicate Settles(s: State, raw: seq<Byte>) {
    Acceptable(raw) && WordAt(raw, 8) != 2 && IsResponse(raw) && QuadAt(raw, 32) in s.waiting
  }

  predicate SaysLoggedIn(raw: seq<Byte>) {
    Acceptable(raw) && WordAt(raw, 8) == 0x0100_0002 && !IsResponse(raw) && LogsIn(Carried(raw))
  }

  /** Which bytes settle a request, which log the client in, and which do nothing. */
  lemma ReceivedMeaning(s: State, attempts: nat, raw: seq<Byte>)
    ensures Settles(s, raw) ==>
      Step(s, attempts, Received(raw)) == WithReply(s, QuadAt(raw, 32), Carried(raw))
    ensures SaysLoggedIn(raw) ==> Step(s, attempts, Received(raw)) == s.(conn := Authenticated)
    ensures !Settles(s, raw) && !SaysLoggedIn(raw) ==> Step(s, attempts, Received(raw)) == s
  {
    hide Crc32, ReadWord, ReadQuad, WordAt, QuadAt;
    if |raw| >= 64 {
      HeaderFieldsAt(raw);
      var body := Carried(raw);
      if |body| >= 8 {
        ReadWordMeaning(body, 0);
        ReadWordMeaning(body, 4);
      }
    }
  }

  /** How the connection moves; nothing else does. */
  lemma ConnectionMeaning(s: State, attempts: nat, e: Event)
    requires e.Connect? || e.Opened? || e.Closed? || e.SocketError? || e.RetryFailed?
    ensures var t := Step(s, attempts, e); var again := s.reconnects < attempts;
      && t == s.(conn := t.conn, socket := t.socket, reconnects := t.reconnects)
      && (t.socket <==> s.socket || (e == Connect(true) && s.conn !in {Connected, Connecting}))
      && t.reconnects == (if e.Opened? then 0
           else if again && (e.RetryFailed? || (e.Closed? && e.code !in {1000, 1001})) then s.reconnects + 1
           else s.reconnects)
      && (e.Opened? ==> t.conn == Connected) && (e.SocketError? ==> t.conn == Failed)
      && (e.Connect? && s.conn in {Connected, Connecting} ==> t.conn == s.conn)
      && (e.Connect? && s.conn !in {Connected, Connecting} ==> t.conn == if e.opens then Connecting else Failed)
      && (e.Closed? ==> t.conn == if again && e.code !in {1000, 1001} then Reconnecting else Disconnected)
      && (e.RetryFailed? ==> t.conn == if again then Reconnecting else s.conn)
  {}

  /** Disconnecting drops exactly what was queued or waiting, and keeps everything else that happened. */
  lemma DisconnectMeaning(s: State, attempts: nat)
    ensures var t := Step(s, attempts, Disconnect);
      && t == s.(conn := Disconnected, socket := false, pending := [], waiting := map[],
           history := s.history.(dropped := t.history.dropped))
      && forall r :: r in t.history.dropped <==>
           r in s.history.dropped || (exists q :: q in s.pending && q.id == r) ||
           (exists c :: c in s.waiting && s.waiting[c] == r)
  {}

  // ----- Message and correlation numbers -----

  /** Numbers on the wire only go up, and no number in use has yet to be handed out. */
  predicate Numbered(s: State) {
    && 0 < s.nextMessage && 0 < s.nextCorrelation
    && (forall f :: f in s.history.wire ==> 0 < f.messageId < s.nextMessage && f.correlationId < s.nextCorrelation)
    && (forall i, j :: 0 <= i < j < |s.history.wire| ==> s.history.wire[i].messageId < s.history.wire[j].messageId)
    && (forall i, j :: 0 <= i < j < |s.history.wire| && s.history.wire[j].correlationId != 0 ==>
          s.history.wire[i].correlationId < s.history.wire[j].correlationId)
    && (forall c :: c in s.waiting ==> 0 < c < s.nextCorrelation)
  }

  lemma DeliverNumbered(s: State, q: Request, queued: bool, expects: bool, throws: bool)
    requires Numbered(s)
    ensures Numbered(Deliver(s, q, queued, expects, throws))
  {
    var t := Deliver(s, q, queued, expects, throws);
    if t.history.wire != s.history.wire {
      var n := |s.history.wire|;
      assert t.history.wire == s.history.wire + [t.history.wire[n]];
      assert forall i :: 0 <= i < n ==> s.history.wire[i] in s.history.wire;
    }
  }

  // ----- Where a request is -----

  datatype Place = InAir | Queued | Waiting(correlationId: nat) | Settled(at: nat) | Dropped

  predicate At(s: State, air: set<nat>, p: Place, r: nat) {
    match p
    case InAir => r in air
    case Queued => r in QueuedIds(s.pending)
    case Waiting(c) => c in s.waiting && s.waiting[c] == r
    case Settled(i) => i < |s.history.settled| && s.history.settled[i].request == r
    case Dropped => r in s.history.dropped
  }

  ghost predicate Somewhere(s: State, air: set<nat>, r: nat) {
    exists p :: At(s, air, p, r)
  }

  /** Every request handed in so far is in exactly one place, and no other number is anywhere. */
  ghost predicate Placed(s: State, air: set<nat>) {
    && (forall r: nat, p :: At(s, air, p, r) ==> r < |s.history.submitted|)
    && (forall r: nat :: r < |s.history.submitted| ==> Somewhere(s, air, r))
    && (forall r: nat, p, p' :: At(s, air, p, r) && At(s, air, p', r) ==> p == p')
  }

  lemma SettlePlaced(s: State, id: nat, outcome: Outcome)
    requires Placed(s, {id})
    ensures Placed(Settle(s, id, outcome), {})
  {
    var t := Settle(s, id, outcome);
    var n := |s.history.settled|;
    forall p, r: nat | At(t, {}, p, r)
      ensures At(s, {id}, if p == Settled(n) then InAir else p, r)
    {}
    forall r: nat | r < |t.history.submitted|
      ensures Somewhere(t, {}, r)
    {
      assert Somewhere(s, {id}, r);
      var p :| At(s, {id}, p, r);
      assert At(t, {}, if p == InAir then Settled(n) else p, r);
    }
    forall r: nat, p, p' | At(t, {}, p, r) && At(t, {}, p', r)
      ensures p == p'
    {
      assert At(s, {id}, if p == Settled(n) then InAir else p, r);
      assert At(s, {id}, if p' == Settled(n) then InAir else p', r);
    }
  }

  lemma EnqueuePlaced(s: State, q: Request)
    requires Placed(s, {q.id})
    ensures Placed(s.(pending := s.pending + [q]), {})
  {
    var t := s.(pending := s.pending + [q]);
    assert q in t.pending;
    assert QueuedIds(t.pending) == QueuedIds(s.pending) + {q.id};
    forall p, r: nat | At(t, {}, p, r)
      ensures At(s, {q.id}, if r == q.id then InAir else p, r) && (r == q.id ==> p == Queued)
    {
      assert At(s, {q.id}, InAir, q.id);
      if r == q.id && p != Queued { assert At(s, {q.id}, p, r); }
    }
    forall r: nat | r < |t.history.submitted|
      ensures Somewhere(t, {}, r)
    {
      assert Somewhere(s, {q.id}, r);
      var p :| At(s, {q.id}, p, r);
      assert At(t, {}, if p == InAir then Queued else p, r);
    }
  }

  lemma WaitPlaced(s: State, id: nat, c: nat)
    requires Placed(s, {id}) && c !in s.waiting
    ensures Placed(s.(waiting := s.waiting[c := id]), {})
  {
    var t := s.(waiting := s.waiting[c := id]);
    forall p, r: nat | At(t, {}, p, r)
      ensures At(s, {id}, if p == Waiting(c) then InAir else p, r)
    {}
    forall r: nat | r < |t.history.submitted|
      ensures Somewhere(t, {}, r)
    {
      assert Somewhere(s, {id}, r);
      var p :| At(s, {id}, p, r);
      assert At(t, {}, if p == InAir then Waiting(c) else p, r);
    }
    forall r: nat, p, p' | At(t, {}, p, r) && At(t, {}, p', r)
      ensures p == p'
    {
      assert At(s, {id}, if p == Waiting(c) then InAir else p, r);
      assert At(s, {id}, if p' == Waiting(c) then InAir else p', r);
    }
  }

  lemma PickPlaced(s: State, c: nat)
    requires Placed(s, {}) && c in s.waiting
    ensures Placed(s.(waiting := s.waiting - {c}), {s.waiting[c]})
  {
    var id := s.waiting[c];
    var t := s.(waiting := s.waiting - {c});
    assert At(s, {}, Waiting(c), id);
    forall p, r: nat | At(t, {id}, p, r)
      ensures At(s, {}, if p == InAir then Waiting(c) else p, r)
    {}
    forall r: nat | r < |t.history.submitted|
      ensures Somewhere(t, {id}, r)
    {
      assert Somewhere(s, {}, r);
      var p :| At(s, {}, p, r);
      assert At(t, {id}, if p == Waiting(c) then InAir else p, r);
    }
    forall r: nat, p, p' | At(t, {id}, p, r) && At(t, {id}, p', r)
      ensures p == p'
    {
      assert At(s, {}, if p == InAir then Waiting(c) else p, r);
      assert At(s, {}, if p' == InAir then Waiting(c) else p', r);
    }
  }

  lemma DropPlaced(s: State)
    requires Placed(s, {})
    ensures Placed(Drop(s), {})
  {
    var t := Drop(s);
    forall p, r: nat | At(t, {}, p, r)
      ensures p.Settled? || p.Dropped?
      ensures Somewhere(s, {}, r)
      ensures p == Dropped ==> forall i :: !At(s, {}, Settled(i), r)
    {
      if p == Dropped {
        if r in QueuedIds(s.pending) { assert At(s, {}, Queued, r); }
        else if r in s.waiting.Values { var c :| c in s.waiting && s.waiting[c] == r; assert At(s, {}, Waiting(c), r); }
        else { assert At(s, {}, Dropped, r); }
      } else {
        assert At(s, {}, p, r);
      }
    }
    forall r: nat | r < |t.history.submitted|
      ensures Somewhere(t, {}, r)
    {
      assert Somewhere(s, {}, r);
      var p :| At(s, {}, p, r);
      assert At(t, {}, if p.Settled? then p else Dropped, r);
    }
    forall r: nat, p, p' | At(t, {}, p, r) && At(t, {}, p', r)
      ensures p == p'
    {
      if p.Settled? { assert At(s, {}, p, r); }
      if p'.Settled? { assert At(s, {}, p', r); }
    }
  }

  lemma SubmitPlaced(s: State, kind: Word, data: seq<Byte>, expects: bool)
    requires Placed(s, {})
    ensures Placed(Submit(s, kind, data, expects), {|s.history.submitted|})
  {
    var t := Submit(s, kind, data, expects);
    var n := |s.history.submitted|;
    forall p, r: nat | At(t, {n}, p, r)
      ensures if r == n then p == InAir else At(s, {}, p, r)
    {
      if p != InAir { assert At(s, {}, p, r); }
    }
    forall r: nat | r < |t.history.submitted|
      ensures Somewhere(t, {n}, r)
    {
      if r == n {
        assert At(t, {n}, InAir, r);
      } else {
        assert Somewhere(s, {}, r);
        var p :| At(s, {}, p, r);
        assert At(t, {n}, p, r);
      }
    }
  }

  // ----- What is on the wire -----

  predicate FrameMatches(submitted: seq<Submission>, f: Frame) {
    && f.request < |submitted|
    && submitted[f.request].kind == f.kind && submitted[f.request].data == f.data
    && (f.correlationId != 0 <==> submitted[f.request].expects && !f.queued)
  }

  predicate RequestMatches(submitted: seq<Submission>, q: Request) {
    q.id < |submitted| && submitted[q.id].kind == q.kind && submitted[q.id].data == q.data
  }

  /** What is queued or sent is what was handed in, and a correlation number marks a reply being waited for. */
  predicate Faithful(s: State) {
    && (forall f :: f in s.history.wire ==> FrameMatches(s.history.submitted, f))
    && (forall q :: q in s.pending ==> RequestMatches(s.history.submitted, q))
  }

  /** No request is sent twice, and none that is still queued has been sent. */
  predicate SentOnce(s: State, air: set<nat>) {
    && (forall i, j :: 0 <= i < j < |s.history.wire| ==> s.history.wire[i].request != s.history.wire[j].request)
    && (forall f :: f in s.history.wire ==> f.request !in QueuedIds(s.pending) && f.request !in air)
  }

  ghost predicate CarriedBy(s: State, c: nat, r: nat) {
    exists f :: f in s.history.wire && f.correlationId == c && f.request == r
  }

  ghost predicate Asked(s: State, r: nat) {
    exists f :: f in s.history.wire && f.correlationId != 0 && f.request == r
  }

  /** A correlation number in the map belongs to a frame of that request, and only such requests get replies. */
  ghost predicate Traced(s: State) {
    && (forall c :: c in s.waiting ==> CarriedBy(s, c, s.waiting[c]))
    && (forall x :: x in s.history.settled && x.outcome.Reply? ==> Asked(s, x.request))
  }

  /** The queue is in the order of submission, and what left it left in that order. */
  predicate InQueueOrder(s: State) {
    && (forall i, j :: 0 <= i < j < |s.pending| ==> s.pending[i].id < s.pending[j].id)
    && (forall i, j :: 0 <= i < j < |s.history.wire| && s.history.wire[i].queued && s.history.wire[j].queued ==>
          s.history.wire[i].request < s.history.wire[j].request)
    && (forall f, q :: f in s.history.wire && q in s.pending && f.queued ==> f.request < q.id)
  }

  ghost predicate Sound(s: State) {
    Numbered(s) && Placed(s, {}) && Faithful(s) && SentOnce(s, {}) && Traced(s) && InQueueOrder(s)
  }

  /** A frame once sent stays. */
  lemma SameWire(s: State, t: State)
    requires s.history.wire <= t.history.wire
    ensures forall c, r: nat :: CarriedBy(s, c, r) ==> CarriedBy(t, c, r)
    ensures forall r: nat :: Asked(s, r) ==> Asked(t, r)
  {
    assert forall f :: f in s.history.wire ==> f in t.history.wire;
    forall c, r: nat | CarriedBy(s, c, r) ensures CarriedBy(t, c, r) {
      var f :| f in s.history.wire && f.correlationId == c && f.request == r;
      assert f in t.history.wire;
    }
    forall r: nat | Asked(s, r) ensures Asked(t, r) {
      var f :| f in s.history.wire && f.correlationId != 0 && f.request == r;
      assert f in t.history.wire;
    }
  }

  lemma DeliverFaithful(s: State, q: Request, queued: bool, expects: bool, throws: bool)
    requires Numbered(s) && Faithful(s) && RequestMatches(s.history.submitted, q)
    requires CanSend(s) ==> (expects <==> s.history.submitted[q.id].expects && !queued)
    ensures Faithful(Deliver(s, q, queued, expects, throws))
  {
    hide Numbered;
    assert 0 < s.nextCorrelation by { assert Numbered(s); NumbersStart(s); }
  }

  lemma NumbersStart(s: State)
    requires Numbered(s)
    ensures 0 < s.nextCorrelation && s.nextCorrelation !in s.waiting
  {}

  lemma DeliverSentOnce(s: State, q: Request, queued: bool, expects: bool, throws: bool)
    requires SentOnce(s, {q.id}) && q.id !in QueuedIds(s.pending)
    ensures SentOnce(Deliver(s, q, queued, expects, throws), {})
  {
    var t := Deliver(s, q, queued, expects, throws);
    assert t.pending == s.pending + [q] ==> QueuedIds(t.pending) == QueuedIds(s.pending) + {q.id};
    assert forall i :: 0 <= i < |s.history.wire| ==> s.history.wire[i] in s.history.wire;
  }

  lemma DeliverTraced(s: State, q: Request, queued: bool, expects: bool, throws: bool)
    requires Numbered(s) && Traced(s)
    ensures Traced(Deliver(s, q, queued, expects, throws))
  {}

  lemma DeliverPlaced(s: State, q: Request, queued: bool, expects: bool, throws: bool)
    requires Numbered(s) && Placed(s, {q.id})
    ensures Placed(Deliver(s, q, queued, expects, throws), {})
  {
    hide Placed, Numbered;
    NumbersStart(s);
    var t := Deliver(s, q, queued, expects, throws);
    if !CanSend(s) {
      EnqueuePlaced(s, q);
    } else if expects && !throws {
      WaitPlaced(s, q.id, s.nextCorrelation);
      SamePlaces(s.(waiting := s.waiting[s.nextCorrelation := q.id]), t);
    } else {
      var outcome := if throws then Rejected else Nothing;
      SettlePlaced(s, q.id, outcome);
      SamePlaces(Settle(s, q.id, outcome), t);
    }
  }

  /** Places depend on four things only. */
  lemma SamePlaces(s: State, t: State)
    requires Placed(s, {})
    requires t.pending == s.pending && t.waiting == s.waiting && t.history.submitted == s.history.submitted
    requires t.history.settled == s.history.settled && t.history.dropped == s.history.dropped
    ensures Placed(t, {})
  {
    forall p, r: nat ensures At(t, {}, p, r) == At(s, {}, p, r) {}
    forall r: nat | r < |t.history.submitted| ensures Somewhere(t, {}, r) {
      assert Somewhere(s, {}, r);
      var p :| At(s, {}, p, r);
      assert At(t, {}, p, r);
    }
  }

  lemma PopPlaced(s: State)
    requires Placed(s, {}) && InQueueOrder(s) && s.pending != []
    ensures Placed(s.(pending := s.pending[1..]), {s.pending[0].id})
  {
    var t, id := s.(pending := s.pending[1..]), s.pending[0].id;
    assert s.pending == [s.pending[0]] + t.pending;
    assert QueuedIds(s.pending) == QueuedIds(t.pending) + {id};
    assert id !in QueuedIds(t.pending);
    forall p, r: nat | At(t, {id}, p, r)
      ensures At(s, {}, if p == InAir then Queued else p, r) && (p == Queued ==> r != id)
    {}
    forall r: nat | r < |t.history.submitted|
      ensures Somewhere(t, {id}, r)
    {
      assert Somewhere(s, {}, r);
      var p :| At(s, {}, p, r);
      assert At(t, {id}, if p == Queued && r == id then InAir else p, r);
    }
    forall r: nat, p, p' | At(t, {id}, p, r) && At(t, {id}, p', r)
      ensures p == p'
    {
      assert At(s, {}, if p == InAir then Queued else p, r);
      assert At(s, {}, if p' == InAir then Queued else p', r);
    }
  }

  // ----- Each event keeps the books -----

  lemma SubmitAir(s: State, kind: Word, data: seq<Byte>, expects: bool)
    requires Faithful(s) && SentOnce(s, {}) && Traced(s) && Numbered(s)
    ensures var t := Submit(s, kind, data, expects);
      Faithful(t) && SentOnce(t, {|s.history.submitted|}) && Traced(t) && Numbered(t)
    ensures |s.history.submitted| !in QueuedIds(s.pending)
  {
    var t := Submit(s, kind, data, expects);
    SameWire(s, t);
  }

  lemma EnqueueOrder(s: State, q: Request)
    requires InQueueOrder(s) && (forall p :: p in s.pending ==> p.id < q.id) &&
      (forall f :: f in s.history.wire ==> f.request < q.id)
    ensures InQueueOrder(s.(pending := s.pending + [q]))
  {}

  lemma DirectOrder(s: State, t: State, f: Frame)
    requires InQueueOrder(s) && !f.queued && t.pending == s.pending && t.history.wire == s.history.wire + [f]
    ensures InQueueOrder(t)
  {}

  lemma SendOrder(s: State, kind: Word, data: seq<Byte>, expects: bool, throws: bool)
    requires Faithful(s) && InQueueOrder(s)
    ensures InQueueOrder(Deliver(Submit(s, kind, data, expects), NewRequest(s, kind, data), false, expects, throws))
  {
    var t := Submit(s, kind, data, expects);
    var u := Deliver(t, NewRequest(s, kind, data), false, expects, throws);
    if !CanSend(s) {
      EnqueueOrder(t, NewRequest(s, kind, data));
    } else if !throws {
      DirectOrder(t, u, u.history.wire[|s.history.wire|]);
    }
  }

  lemma SendSound(s: State, kind: Word, data: seq<Byte>, expects: bool, throws: bool)
    requires Sound(s)
    ensures Sound(Deliver(Submit(s, kind, data, expects), NewRequest(s, kind, data), false, expects, throws))
  {
    hide Numbered, Placed, Faithful, SentOnce, Traced, InQueueOrder, Deliver;
    var t, q := Submit(s, kind, data, expects), NewRequest(s, kind, data);
    SubmitPlaced(s, kind, data, expects);
    SubmitAir(s, kind, data, expects);
    SendOrder(s, kind, data, expects, throws);
    DeliverNumbered(t, q, false, expects, throws);
    DeliverPlaced(t, q, false, expects, throws);
    DeliverFaithful(t, q, false, expects, throws);
    DeliverSentOnce(t, q, false, expects, throws);
    DeliverTraced(t, q, false, expects, throws);
  }

  lemma PopAir(s: State)
    requires Faithful(s) && SentOnce(s, {}) && Traced(s) && Numbered(s) && InQueueOrder(s) && s.pending != []
    ensures var t := s.(pending := s.pending[1..]);
      Faithful(t) && SentOnce(t, {s.pending[0].id}) && Traced(t) && Numbered(t)
    ensures s.pending[0].id !in QueuedIds(s.pending[1..]) && RequestMatches(s.history.submitted, s.pending[0])
  {
    var t := s.(pending := s.pending[1..]);
    SameWire(s, t);
    assert s.pending[0] in s.pending;
    assert forall q :: q in t.pending ==> q in s.pending;
    assert s.pending[0].id in QueuedIds(s.pending);
  }

  lemma PopOrder(s: State, throws: bool)
    requires Faithful(s) && InQueueOrder(s) && CanSend(s) && s.pending != []
    ensures InQueueOrder(Deliver(s.(pending := s.pending[1..]), s.pending[0], true, false, throws))
  {}

  lemma {:induction false} FlushSound(s: State, throwing: set<nat>)
    requires Sound(s)
    ensures Sound(FlushAll(s, throwing))
    decreases |s.pending|
  {
    hide Numbered, Placed, Faithful, SentOnce, Traced, InQueueOrder;
    if CanSend(s) && s.pending != [] {
      var t, q := s.(pending := s.pending[1..]), s.pending[0];
      var throws := q.id in throwing;
      PopPlaced(s);
      PopAir(s);
      PopOrder(s, throws);
      DeliverNumbered(t, q, true, false, throws);
      DeliverPlaced(t, q, true, false, throws);
      DeliverFaithful(t, q, true, false, throws);
      DeliverSentOnce(t, q, true, false, throws);
      DeliverTraced(t, q, true, false, throws);
      FlushSound(Deliver(t, q, true, false, throws), throwing);
    }
  }

  lemma FinishTraced(s: State, c: nat, outcome: Outcome)
    requires Traced(s) && Numbered(s) && c in s.waiting
    ensures Traced(Settle(s, s.waiting[c], outcome).(waiting := s.waiting - {c}))
  {}

  lemma FinishSound(s: State, c: nat, outcome: Outcome)
    requires Sound(s) && c in s.waiting
    ensures Sound(Settle(s, s.waiting[c], outcome).(waiting := s.waiting - {c}))
  {
    hide Placed, Traced;
    var t := Settle(s, s.waiting[c], outcome).(waiting := s.waiting - {c});
    FinishTraced(s, c, outcome);
    PickPlaced(s, c);
    SettlePlaced(s.(waiting := s.waiting - {c}), s.waiting[c], outcome);
    assert t == Settle(s.(waiting := s.waiting - {c}), s.waiting[c], outcome);
  }

  lemma DropSound(s: State)
    requires Sound(s)
    ensures Sound(Drop(s))
  {
    hide Placed;
    var t := Drop(s);
    DropPlaced(s);
    SameWire(s, t);
  }

  lemma ConnectionSound(s: State, conn: ConnectionState, socket: bool, reconnects: nat)
    requires Sound(s)
    ensures Sound(s.(conn := conn, socket := socket, reconnects := reconnects))
  {
    hide Placed;
    var t := s.(conn := conn, socket := socket, reconnects := reconnects);
    SamePlaces(s, t);
    SameWire(s, t);
  }

  lemma StepSound(s: State, attempts: nat, e: Event)
    requires Sound(s)
    ensures Sound(Step(s, attempts, e))
  {
    hide Sound, Deliver;
    match e
    case Send(kind, data, expects, throws) => SendSound(s, kind, data, expects, throws);
    case Flush(throwing) => FlushSound(s, throwing);
    case ResponseTimeout(c) => if c in s.waiting { FinishSound(s, c, Rejected); }
    case Received(raw) => HandleSound(s, raw);
    case Disconnect => DropSound(s);
    case _ =>
      var t := Step(s, attempts, e);
      ConnectionSound(s, t.conn, t.socket, t.reconnects);
  }

  lemma HandleSound(s: State, raw: seq<Byte>)
    requires Sound(s)
    ensures Sound(Handle(s, raw))
  {
    hide Sound, Signed, Crc32, ReadWord, ReadQuad;
    var t := Handle(s, raw);
    ConnectionSound(s, t.conn, t.socket, t.reconnects);
    var header := ParseHeader(raw);
    if header.Some? && header.value.correlationId in s.waiting {
      FinishSound(s, header.value.correlationId, Reply(BodyOf(raw, header.value)));
    }
  }

  lemma InitialSound()
    ensures Sound(Initial())
  {}

  lemma {:induction false} RunSound(attempts: nat, events: seq<Event>)
    ensures Sound(Run(Initial(), attempts, events))
    decreases |events|
  {
    hide Sound;
    if events == [] {
      InitialSound();
    } else {
      RunSound(attempts, events[..|events| - 1]);
      StepSound(Run(Initial(), attempts, events[..|events| - 1]), attempts, events[|events| - 1]);
    }
  }

  // ----- The promises, over every run -----

  /** Message ids on the wire strictly increase, and every correlation id in the map is below the next one. */
  lemma WireNumbersIncrease(attempts: nat, events: seq<Event>)
    ensures var s := Run(Initial(), attempts, events);
      && (forall i, j :: 0 <= i < j < |s.history.wire| ==> s.history.wire[i].messageId < s.history.wire[j].messageId)
      && (forall f :: f in s.history.wire ==> f.messageId < s.nextMessage)
      && (forall c :: c in s.waiting ==> 0 < c < s.nextCorrelation)
  {
    hide Placed, Faithful, SentOnce, Traced, InQueueOrder;
    RunSound(attempts, events);
  }

  /** Each request is in exactly one of: queued, waiting for a reply, settled, dropped. */
  lemma EachRequestInOnePlace(attempts: nat, events: seq<Event>, r: nat)
    ensures var s := Run(Initial(), attempts, events);
      && (r < |s.history.submitted| <==> exists p :: At(s, {}, p, r))
      && (forall p, q :: At(s, {}, p, r) && At(s, {}, q, r) ==> p == q)
  {
    hide Numbered, Faithful, SentOnce, Traced, InQueueOrder;
    RunSound(attempts, events);
    var s := Run(Initial(), attempts, events);
    assert r < |s.history.submitted| ==> Somewhere(s, {}, r);
  }

  lemma SettledOnce(attempts: nat, events: seq<Event>, i: nat, j: nat)
    requires i < j < |Run(Initial(), attempts, events).history.settled|
    ensures var settled := Run(Initial(), attempts, events).history.settled; settled[i].request != settled[j].request
  {
    hide Numbered, Faithful, SentOnce, Traced, InQueueOrder, Run;
    RunSound(attempts, events);
    var s := Run(Initial(), attempts, events);
    assert At(s, {}, Settled(i), s.history.settled[i].request);
    assert At(s, {}, Settled(j), s.history.settled[j].request);
  }

  /**
   * No request is sent twice, queued requests go out in the order they were handed in, and each as
   * it was handed in.
   */
  lemma SentOnceInQueueOrder(attempts: nat, events: seq<Event>, i: nat, j: nat)
    requires i < j < |Run(Initial(), attempts, events).history.wire|
    ensures var s := Run(Initial(), attempts, events); var f, g := s.history.wire[i], s.history.wire[j];
      && f.request != g.request
      && (f.queued && g.queued ==> f.request < g.request)
      && f.request < |s.history.submitted|
      && Submission(f.kind, f.data, s.history.submitted[f.request].expects) == s.history.submitted[f.request]
  {
    hide Numbered, Placed, Traced, Run;
    RunSound(attempts, events);
    assert Run(Initial(), attempts, events).history.wire[i] in Run(Initial(), attempts, events).history.wire;
  }

  /** What has been sent, settled or dropped is never taken back. */
  lemma StepKeepsHistory(s: State, attempts: nat, e: Event)
    ensures var t := Step(s, attempts, e);
      && s.history.wire <= t.history.wire && s.history.settled <= t.history.settled
      && s.history.dropped <= t.history.dropped
  {
    hide Handle, FlushAll;
    match e
    case Flush(throwing) => FlushKeepsHistory(s, throwing);
    case Received(raw) => HandleKeepsHistory(s, raw);
    case _ =>
  }

  lemma HandleKeepsHistory(s: State, raw: seq<Byte>)
    ensures var t := Handle(s, raw);
      && s.history.wire <= t.history.wire && s.history.settled <= t.history.settled
      && s.history.dropped <= t.history.dropped
  {}

  lemma {:induction false} FlushKeepsHistory(s: State, throwing: set<nat>)
    ensures var t := FlushAll(s, throwing);
      && s.history.wire <= t.history.wire && s.history.settled <= t.history.settled
      && s.history.dropped <= t.history.dropped
    decreases |s.pending|
  {
    if CanSend(s) && s.pending != [] {
      FlushKeepsHistory(Deliver(s.(pending := s.pending[1..]), s.pending[0], true, false,
        s.pending[0].id in throwing), throwing);
    }
  }

  predicate Done(s: State, r: nat) {
    r in s.history.dropped || exists x :: x in s.history.settled && x.request == r
  }

  lemma WaitingIsOpen(s: State, c: nat)
    requires Placed(s, {}) && c in s.waiting
    ensures !Done(s, s.waiting[c])
  {
    var r := s.waiting[c];
    assert At(s, {}, Waiting(c), r);
    assert !At(s, {}, Dropped, r);
    forall i: nat | i < |s.history.settled| ensures s.history.settled[i].request != r {
      assert !At(s, {}, Settled(i), r);
    }
  }

  /** A correlation number stands for the request whose frame carried it, exactly while that request is open. */
  lemma WaitingExactly(s: State, f: Frame)
    requires Sound(s) && f in s.history.wire && f.correlationId != 0
    ensures f.correlationId in s.waiting <==> !Done(s, f.request)
    ensures f.correlationId in s.waiting ==> s.waiting[f.correlationId] == f.request
  {
    var c, r := f.correlationId, f.request;
    if c in s.waiting {
      var g :| g in s.history.wire && g.correlationId == c && g.request == s.waiting[c];
      SameFrame(s, f, g);
      WaitingIsOpen(s, c);
    } else {
      assert Somewhere(s, {}, r);
      var p :| At(s, {}, p, r);
      match p
      case Waiting(d) =>
        var g :| g in s.history.wire && g.correlationId == d && g.request == s.waiting[d];
        SameFrame(s, f, g);
      case Settled(i) => assert s.history.settled[i] in s.history.settled;
      case _ =>
    }
  }

  lemma SameFrame(s: State, f: Frame, g: Frame)
    requires Numbered(s) && SentOnce(s, {}) && f in s.history.wire && g in s.history.wire && f.correlationId != 0
    requires f.correlationId == g.correlationId || f.request == g.request
    ensures f == g
  {}

  predicate IsReplyTo(f: Frame, h: Header, body: seq<Byte>) {
    && ValidateHeader(h) && h.kind != HEARTBEAT && h.flags / FLAG_RESPONSE % 2 == 1
    && h.correlationId == f.correlationId && h.bodyLength == |body| && h.checksum == Crc32(body)
  }

  lemma ReplyIsRead(s: State, f: Frame, h: Header, body: seq<Byte>)
    requires IsReplyTo(f, h, body)
    ensures Handle(s, HeaderBytes(h) + body) ==
      if Crc32(body) < 0x8000_0000 then Respond(s, f.correlationId, body) else s
  {
    hide Crc32, HeaderBytes, ParseHeader;
    var raw := HeaderBytes(h) + body;
    HeaderRoundTrip(h, raw);
    assert |raw| >= HEADER_SIZE;
    assert BodyOf(raw, h) == body;
  }

  /**
   * Main result: a well-formed reply resolves exactly the request whose frame carried its
   * correlation id, with exactly its body, if and only if that request is still open and the
   * checksum of the body has a clear top bit; any other time it changes nothing.
   */
  lemma ReplyReachesItsRequest(attempts: nat, events: seq<Event>, f: Frame, h: Header, body: seq<Byte>)
    requires f in Run(Initial(), attempts, events).history.wire && f.correlationId != 0 && IsReplyTo(f, h, body)
    ensures var s := Run(Initial(), attempts, events); var t := Step(s, attempts, Received(HeaderBytes(h) + body));
      if Crc32(body) < 0x8000_0000 && !Done(s, f.request)
      then t.history == Settle(s, f.request, Reply(body)).history && Done(t, f.request)
      else t == s
  {
    hide Sound, Crc32, HeaderBytes, IsReplyTo, Handle, Run;
    var s := Run(Initial(), attempts, events);
    RunSound(attempts, events);
    ReplyIsRead(s, f, h, body);
    WaitingExactly(s, f);
    var x := Settlement(f.request, Reply(body));
    assert x in s.history.settled + [x];
  }

  /** A response timer fires on its own request or on nothing, however late it fires. */
  lemma TimeoutHitsItsOwn(attempts: nat, events: seq<Event>, f: Frame)
    requires f in Run(Initial(), attempts, events).history.wire && f.correlationId != 0
    ensures var s := Run(Initial(), attempts, events); var t := Step(s, attempts, ResponseTimeout(f.correlationId));
      if Done(s, f.request) then t == s
      else t == Settle(s, f.request, Rejected).(waiting := s.waiting - {f.correlationId})
  {
    hide Sound, Run;
    RunSound(attempts, events);
    WaitingExactly(Run(Initial(), attempts, events), f);
  }

  /** A request that had to queue never gets a reply, even if it asked for one. */
  lemma QueuedNeverAnswered(attempts: nat, events: seq<Event>, f: Frame, x: Settlement)
    requires f in Run(Initial(), attempts, events).history.wire && f.queued
    requires x in Run(Initial(), attempts, events).history.settled && x.request == f.request
    ensures !x.outcome.Reply?
  {
    hide Placed, InQueueOrder, Run;
    RunSound(attempts, events);
    var s := Run(Initial(), attempts, events);
    if x.outcome.Reply? {
      assert Asked(s, f.request);
      var g :| g in s.history.wire && g.correlationId != 0 && g.request == f.request;
      SameFrame(s, g, f);
    }
  }

  /** Nothing is sent in any other state than CONNECTED, so after a login everything waits for the next opening. */
  lemma {:induction false} HeldUntilReopened(s: State, attempts: nat, events: seq<Event>)
    requires s.conn != Connected && Opened !in events
    ensures Run(s, attempts, events).conn != Connected
    ensures Run(s, attempts, events).history.wire == s.history.wire
    decreases |events|
  {
    if events != [] {
      var e := events[|events| - 1];
      HeldUntilReopened(s, attempts, events[..|events| - 1]);
      assert e in events;
      NotConnectedStep(Run(s, attempts, events[..|events| - 1]), attempts, e);
    }
  }

  lemma NotConnectedStep(s: State, attempts: nat, e: Event)
    requires s.conn != Connected && e != Opened
    ensures Step(s, attempts, e).conn != Connected && Step(s, attempts, e).history.wire == s.history.wire
  {
    hide Signed, Crc32, ReadWord, ReadQuad;
  }

  /** The client never counts more reconnections than it is configured for. */
  lemma {:induction false} ReconnectsBounded(attempts: nat, events: seq<Event>)
    ensures Run(Initial(), attempts, events).reconnects <= attempts
    decreases |events|
  {
    if events != [] {
      var before, e := Run(Initial(), attempts, events[..|events| - 1]), events[|events| - 1];
      ReconnectsBounded(attempts, events[..|events| - 1]);
      SendingKeepsCount(before, attempts, e);
    }
  }

  lemma SendingKeepsCount(s: State, attempts: nat, e: Event)
    requires s.reconnects <= attempts
    ensures Step(s, attempts, e).reconnects <= attempts
  {
    hide Signed, Crc32, ReadWord, ReadQuad;
    if e.Flush? { FlushKeepsCount(s, e.throwing); }
  }

  lemma {:induction false} FlushKeepsCount(s: State, throwing: set<nat>)
    ensures FlushAll(s, throwing).reconnects == s.reconnects
    decreases |s.pending|
  {
    if CanSend(s) && s.pending != [] {
      FlushKeepsCount(Deliver(s.(pending := s.pending[1..]), s.pending[0], true, false, s.pending[0].id in throwing),
        throwing);
    }
  }
}
