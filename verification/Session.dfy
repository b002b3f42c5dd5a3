/**
 One connection of the SQL server: read a header, read a payload, handle the request, write the
 reply, and only then read the next header. Each completion callback is one step; the network may
 deliver the incoming bytes in any pieces between the steps.
 */
module Sessions {
  import opened Wire

  /** What the handler of a request makes of the database: a serialised result, or a thrown error's text. */
  datatype Answer = Answered(body: Bytes) | Failed(body: Bytes)

  /** The answer to the `k`-th request of the session, by message type and payload. */
  type Handler = (nat, Byte, Bytes) -> Answer

  datatype Phase = ReadingHeader | ReadingPayload(header: MessageHeader) | Writing(reply: Bytes) | Closed

  /** `inbox`: bytes received and not yet consumed. `sent`: bytes of completed replies. */
  datatype SessionState = SessionState(phase: Phase, inbox: Bytes, sent: Bytes, answered: nat)

  predicate IsQuery(messageType: Byte) {
    QUERY_RAW <= messageType <= QUERY_STREAM
  }

  /** The dispatch of `handle_request`, with the response type each handler uses. */
  function ReplyType(messageType: Byte, answer: Answer): Byte {
    if answer.Failed? then RESPONSE_ERROR
    else if messageType == QUERY_RAW then RESPONSE_RAW
    else if messageType == QUERY_JSON then RESPONSE_JSON
    else if messageType == QUERY_BINARY then RESPONSE_BINARY
    else if messageType == QUERY_STREAM then RESPONSE_STREAM
    else RESPONSE_ERROR
  }

  function Frame(messageType: Byte, body: Bytes): Bytes {
    HeaderBytes(MessageHeader(messageType, Cast32(|body|))) + body
  }

  function Reply(handler: Handler, k: nat, messageType: Byte, payload: Bytes): Bytes {
    var answer := handler(k, messageType, payload);
    Frame(ReplyType(messageType, answer), answer.body)
  }

  class Session {
    const handler: Handler
    var phase: Phase
    var inbox: Bytes
    var sent: Bytes
    var answered: nat

    ghost function State(): SessionState reads this {
      SessionState(phase, inbox, sent, answered)
    }

    constructor (handler: Handler)
      ensures this.handler == handler && State() == Start()
    {
      this.handler := handler;
      phase, inbox, sent, answered := ReadingHeader, [], [], 0;
    }

    method Deliver(bytes: Bytes)
      modifies this
      ensures State() == Next(handler, old(State()), Delivered(bytes))
    {
      inbox := inbox + bytes;
    }

    /** `async_read` completes when exactly the requested number of bytes is there. */
    method OnHeader()
      requires phase.ReadingHeader? && HEADER_SIZE <= |inbox|
      modifies this
      ensures State() == Next(handler, old(State()), Read)
    {
      var headerBuffer := inbox[..HEADER_SIZE];
      inbox := inbox[HEADER_SIZE..];
      phase := ReadingPayload(Deserialize(headerBuffer).value);
    }

    method OnPayload()
      requires phase.ReadingPayload? && phase.header.payloadSize <= |inbox|
      modifies this
      ensures State() == Next(handler, old(State()), Read)
    {
      var header := phase.header;
      var payloadBuffer := inbox[..header.payloadSize];
      inbox := inbox[header.payloadSize..];
      HandleRequest(header, payloadBuffer);
    }

    method HandleRequest(header: MessageHeader, payload: Bytes)
      modifies this
      ensures State() == old(State()).(phase := Writing(Reply(handler, old(answered), header.messageType, payload)),
                                       answered := old(answered) + 1)
    {
      var answer := handler(answered, header.messageType, payload);
      answered := answered + 1;
      match answer
      case Failed(error) => SendResponse(RESPONSE_ERROR, error);
      case Answered(body) =>
        if header.messageType == QUERY_RAW {
          SendResponse(RESPONSE_RAW, body);
        } else if header.messageType == QUERY_JSON {
          SendResponse(RESPONSE_JSON, body);
        } else if header.messageType == QUERY_BINARY {
          SendResponse(RESPONSE_BINARY, body);
        } else if header.messageType == QUERY_STREAM {
          SendResponse(RESPONSE_STREAM, body);
        } else {
          SendResponse(RESPONSE_ERROR, body);
        }
    }

    method SendResponse(messageType: Byte, payload: Bytes)
      modifies this`phase
      ensures phase == Writing(Frame(messageType, payload))
    {
      var headerBytes := Serialize(MessageHeader(messageType, Cast32(|payload|)));
      phase := Writing(headerBytes + payload);
    }

    method OnWritten()
      requires phase.Writing?
      modifies this
      ensures State() == Next(handler, old(State()), Written)
    {
      sent := sent + phase.reply;
      phase := ReadingHeader;
    }

    method OnError()
      modifies this
      ensures State() == Next(handler, old(State()), Error)
    {
      phase := Closed;
    }
  }

  // ---- runs -----------------------------------------------------------------------------------

  datatype Event = Delivered(bytes: Bytes) | Read | Written | Error

  function Start(): SessionState {
    SessionState(ReadingHeader, [], [], 0)
  }

  predicate CanRead(s: SessionState) {
    match s.phase
    case ReadingHeader => HEADER_SIZE <= |s.inbox|
    case ReadingPayload(h) => h.payloadSize <= |s.inbox|
    case _ => false
  }

  /** Callbacks that cannot fire in a state change nothing. */
  function Next(handler: Handler, s: SessionState, e: Event): SessionState {
    match e
    case Delivered(bytes) => s.(inbox := s.inbox + bytes)
    case Read =>
      if !CanRead(s) then s
      else if s.phase.ReadingHeader? then
        s.(phase := ReadingPayload(Deserialize(s.inbox[..HEADER_SIZE]).value), inbox := s.inbox[HEADER_SIZE..])
      else
        var h := s.phase.header;
        s.(phase := Writing(Reply(handler, s.answered, h.messageType, s.inbox[..h.payloadSize])),
           inbox := s.inbox[h.payloadSize..], answered := s.answered + 1)
    case Written => if s.phase.Writing? then s.(phase := ReadingHeader, sent := s.sent + s.phase.reply) else s
    case Error => s.(phase := Closed)
  }

  function Run(handler: Handler, s: SessionState, es: seq<Event>): SessionState {
    if es == [] then s else Next(handler, Run(handler, s, es[..|es| - 1]), es[|es| - 1])
  }

  function Received(es: seq<Event>): Bytes {
    if es == [] then []
    else Received(es[..|es| - 1]) + if es[|es| - 1].Delivered? then es[|es| - 1].bytes else []
  }

  // ---- the reference: one reply per complete request frame ------------------------------------

  predicate HasFrame(bytes: Bytes) {
    HEADER_SIZE <= |bytes| && HEADER_SIZE + Deserialize(bytes).value.payloadSize <= |bytes|
  }

  function FrameSize(bytes: Bytes): nat
    requires HasFrame(bytes)
  {
    HEADER_SIZE + Deserialize(bytes).value.payloadSize
  }

  /** The replies to the requests of a byte stream whose first request is the `k`-th. */
  function Served(handler: Handler, k: nat, bytes: Bytes): Bytes
    decreases |bytes|
  {
    if !HasFrame(bytes) then []
    else
      var n := FrameSize(bytes);
      Reply(handler, k, bytes[0], bytes[HEADER_SIZE..n]) + Served(handler, k + 1, bytes[n..])
  }

  function InFlight(s: SessionState): Bytes {
    if s.phase.Writing? then s.phase.reply else []
  }

  /** The input from the current request on: the header being processed counts as unread. */
  function Unread(s: SessionState): Bytes {
    if s.phase.ReadingPayload? then HeaderBytes(s.phase.header) + s.inbox else s.inbox
  }

  /** If `more` arrives next, what was sent and what is owed add up to the replies to the whole stream. */
  predicate AddsUp(handler: Handler, s: SessionState, received: Bytes, more: Bytes) {
    var replies := Served(handler, 0, received + more);
    if s.phase.Closed? then s.sent <= replies
    else s.sent + InFlight(s) + Served(handler, s.answered, Unread(s) + more) == replies
  }

  ghost predicate InStep(handler: Handler, s: SessionState, received: Bytes) {
    forall more: Bytes :: AddsUp(handler, s, received, more)
  }

  ghost predicate HeaderOk(s: SessionState) {
    s.phase.ReadingPayload? ==> s.phase.header.payloadSize < LIMIT
  }

  lemma Assoc(a: Bytes, b: Bytes, c: Bytes)
    ensures a + b + c == a + (b + c)
  {
  }

  lemma UnreadGrows(s: SessionState, bytes: Bytes, more: Bytes)
    ensures Unread(s.(inbox := s.inbox + bytes)) + more == Unread(s) + (bytes + more)
  {
  }

  lemma DeliveredInStep(handler: Handler, s: SessionState, received: Bytes, bytes: Bytes)
    requires InStep(handler, s, received)
    ensures InStep(handler, Next(handler, s, Delivered(bytes)), received + bytes)
  {
    forall more: Bytes ensures AddsUp(handler, Next(handler, s, Delivered(bytes)), received + bytes, more) {
      assert AddsUp(handler, s, received, bytes + more);
      Assoc(received, bytes, more);
      UnreadGrows(s, bytes, more);
    }
  }

  lemma HeaderInStep(handler: Handler, s: SessionState, received: Bytes)
    requires InStep(handler, s, received) && s.phase.ReadingHeader? && CanRead(s)
    ensures InStep(handler, Next(handler, s, Read), received) && HeaderOk(Next(handler, s, Read))
  {
    HeaderBytesRoundTrip(s.inbox[..HEADER_SIZE]);
    BytesRoundTrip(s.inbox[..HEADER_SIZE][1..5]);
    var s' := Next(handler, s, Read);
    assert Unread(s') == s.inbox;
    forall more: Bytes ensures AddsUp(handler, s', received, more) {
      assert AddsUp(handler, s, received, more);
    }
  }

  lemma ServedFrame(handler: Handler, k: nat, h: MessageHeader, payload: Bytes, rest: Bytes)
    requires h.payloadSize == |payload| < LIMIT
    ensures Served(handler, k, HeaderBytes(h) + payload + rest) ==
            Reply(handler, k, h.messageType, payload) + Served(handler, k + 1, rest)
  {
    var bytes := HeaderBytes(h) + payload + rest;
    assert bytes == HeaderBytes(h) + (payload + rest);
    HeaderRoundTrip(h, payload + rest);
    assert bytes[HEADER_SIZE..HEADER_SIZE + |payload|] == payload && bytes[HEADER_SIZE + |payload|..] == rest;
  }

  /** The unread input starts with the frame whose payload is about to be read. */
  lemma UnreadFrame(s: SessionState, more: Bytes)
    requires s.phase.ReadingPayload? && CanRead(s)
    ensures var h := s.phase.header;
            var payload, rest := s.inbox[..h.payloadSize], s.inbox[h.payloadSize..];
            Unread(s) + more == HeaderBytes(h) + payload + (rest + more)
  {
    var h := s.phase.header;
    assert s.inbox == s.inbox[..h.payloadSize] + s.inbox[h.payloadSize..];
  }

  lemma NothingInFlight(sent: Bytes, reply: Bytes, later: Bytes)
    ensures sent + [] + (reply + later) == sent + reply + later
  {
  }

  lemma PayloadInStep(handler: Handler, s: SessionState, received: Bytes)
    requires InStep(handler, s, received) && HeaderOk(s) && s.phase.ReadingPayload? && CanRead(s)
    ensures InStep(handler, Next(handler, s, Read), received)
  {
    var h, s' := s.phase.header, Next(handler, s, Read);
    forall more: Bytes ensures AddsUp(handler, s', received, more) {
      assert AddsUp(handler, s, received, more);
      UnreadFrame(s, more);
      ServedFrame(handler, s.answered, h, s.inbox[..h.payloadSize], s'.inbox + more);
      NothingInFlight(s.sent, InFlight(s'), Served(handler, s'.answered, s'.inbox + more));
    }
  }

  lemma ReplySent(sent: Bytes, reply: Bytes)
    ensures sent + reply + [] == sent + reply
  {
  }

  lemma WrittenInStep(handler: Handler, s: SessionState, received: Bytes)
    requires InStep(handler, s, received) && s.phase.Writing?
    ensures InStep(handler, Next(handler, s, Written), received)
  {
    ReplySent(s.sent, s.phase.reply);
    forall more: Bytes ensures AddsUp(handler, Next(handler, s, Written), received, more) {
      assert AddsUp(handler, s, received, more);
    }
  }

  lemma IsPrefix(sent: Bytes, reply: Bytes, later: Bytes, whole: Bytes)
    requires sent + reply + later == whole
    ensures sent <= whole
  {
  }

  lemma ErrorInStep(handler: Handler, s: SessionState, received: Bytes)
    requires InStep(handler, s, received)
    ensures InStep(handler, Next(handler, s, Error), received)
  {
    forall more: Bytes ensures AddsUp(handler, Next(handler, s, Error), received, more) {
      assert AddsUp(handler, s, received, more);
      if !s.phase.Closed? {
        var replies := Served(handler, 0, received + more);
        IsPrefix(s.sent, InFlight(s), Served(handler, s.answered, Unread(s) + more), replies);
      }
    }
  }

  lemma StartInStep(handler: Handler)
    ensures InStep(handler, Start(), [])
  {
    forall more: Bytes ensures AddsUp(handler, Start(), [], more) {
      assert [] + more == more;
    }
  }

  lemma {:induction false} RunInStep(handler: Handler, es: seq<Event>)
    ensures var s := Run(handler, Start(), es); InStep(handler, s, Received(es)) && HeaderOk(s)
  {
    if es == [] {
      StartInStep(handler);
    } else {
      var s, received := Run(handler, Start(), es[..|es| - 1]), Received(es[..|es| - 1]);
      RunInStep(handler, es[..|es| - 1]);
      assert received + [] == received;
      match es[|es| - 1]
      case Delivered(bytes) => DeliveredInStep(handler, s, received, bytes);
      case Read =>
        if CanRead(s) {
          if s.phase.ReadingHeader? { HeaderInStep(handler, s, received); } else { PayloadInStep(handler, s, received); }
        }
      case Written => if s.phase.Writing? { WrittenInStep(handler, s, received); }
      case Error => ErrorInStep(handler, s, received);
    }
  }

  // ---- main results ---------------------------------------------------------------------------

  /** Nothing is left to do until more bytes arrive. */
  predicate Quiescent(s: SessionState) {
    !s.phase.Closed? && !s.phase.Writing? && !CanRead(s)
  }

  /**
   Lockstep: in every state the completed replies are an initial part of the replies to the requests
   received, in order; and in a quiescent state they are all of them.
   */
  lemma {:induction false} RepliesInLockstep(handler: Handler, es: seq<Event>)
    ensures var s := Run(handler, Start(), es);
            && s.sent <= Served(handler, 0, Received(es))
            && (Quiescent(s) ==> s.sent == Served(handler, 0, Received(es)))
  {
    var s, received := Run(handler, Start(), es), Received(es);
    RunInStep(handler, es);
    assert AddsUp(handler, s, received, []);
    assert received + [] == received && Unread(s) + [] == Unread(s);
    if !s.phase.Closed? {
      var owed, replies := Served(handler, s.answered, Unread(s)), Served(handler, 0, received);
      IsPrefix(s.sent, InFlight(s), owed, replies);
      if Quiescent(s) {
        NothingOwed(handler, s);
        assert s.sent + [] + [] == s.sent;
      }
    }
  }

  lemma NothingOwed(handler: Handler, s: SessionState)
    requires Quiescent(s) && HeaderOk(s)
    ensures Served(handler, s.answered, Unread(s)) == []
  {
    if s.phase.ReadingPayload? { HeaderRoundTrip(s.phase.header, s.inbox); }
  }

  /** How the network cut the stream into pieces, and when the callbacks ran, makes no difference. */
  lemma PiecesDoNotMatter(handler: Handler, a: seq<Event>, b: seq<Event>)
    requires Received(a) == Received(b)
    requires Quiescent(Run(handler, Start(), a)) && Quiescent(Run(handler, Start(), b))
    ensures Run(handler, Start(), a).sent == Run(handler, Start(), b).sent
  {
    RepliesInLockstep(handler, a);
    RepliesInLockstep(handler, b);
  }

  predicate InProgress(s: SessionState) {
    s.phase.ReadingPayload? || s.phase.Writing?
  }

  /**
   In every state of every run the headers read are the replies completed, plus one while a request is
   in progress: the next header is never read before the reply to the last one is out. The same holds
   of the requests handled, and one is pending only while its reply is being written.
   */
  lemma {:induction false} NoReadWhileWriting(handler: Handler, es: seq<Event>)
    ensures var s := Run(handler, Start(), es);
            && Writes(handler, es) <= HeadersRead(handler, es) <= Writes(handler, es) + 1
            && (!s.phase.Closed? ==> HeadersRead(handler, es) == Writes(handler, es) + if InProgress(s) then 1 else 0)
            && (!s.phase.Closed? ==> s.answered == Writes(handler, es) + if s.phase.Writing? then 1 else 0)
  {
    if es != [] { NoReadWhileWriting(handler, es[..|es| - 1]); }
  }

  /** After an error the session is over: nothing more is read, handled or sent. */
  lemma {:induction false} ErrorIsFinal(handler: Handler, es: seq<Event>, after: seq<Event>)
    ensures var s, s' := Run(handler, Start(), es), Run(handler, Start(), es + [Error] + after);
            s'.phase.Closed? && s'.sent == s.sent && s'.answered == s.answered && s.inbox <= s'.inbox
  {
    var all := es + [Error] + after;
    if after == [] {
      assert all[..|all| - 1] == es;
    } else {
      assert all[..|all| - 1] == es + [Error] + after[..|after| - 1];
      ErrorIsFinal(handler, es, after[..|after| - 1]);
    }
  }

  /** How many replies a run has completed. */
  function Writes(handler: Handler, es: seq<Event>): nat {
    if es == [] then 0
    else
      var s := Run(handler, Start(), es[..|es| - 1]);
      Writes(handler, es[..|es| - 1]) + if es[|es| - 1].Written? && s.phase.Writing? then 1 else 0
  }

  /** How many headers a run has taken from the stream. */
  function HeadersRead(handler: Handler, es: seq<Event>): nat {
    if es == [] then 0
    else
      var s := Run(handler, Start(), es[..|es| - 1]);
      HeadersRead(handler, es[..|es| - 1]) + if es[|es| - 1].Read? && TakesHeader(s) then 1 else 0
  }

  /** Five bytes have arrived at a session that waits for a header. */
  predicate TakesHeader(s: SessionState) {
    s.phase.ReadingHeader? && HEADER_SIZE <= |s.inbox|
  }
}
