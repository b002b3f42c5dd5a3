/**
 The client's end of a connection: it writes request frames, reads reply frames, and turns each reply
 into the outcome of the query. Requests and replies are followed through a whole session.
 */
module Clients {
  import opened Wrappers
  import opened Wire
  import opened Sessions

  datatype Message = Message(messageType: Byte, body: Bytes)

  datatype SocketError = EndOfFile

  /** What one query call returns or throws. */
  datatype Outcome = Rows(body: Bytes) | ServerError(body: Bytes) | UnexpectedType | Disconnected

  /** The complete messages of a byte stream, in order. */
  function Messages(bytes: Bytes): seq<Message>
    decreases |bytes|
  {
    if !HasFrame(bytes) then []
    else
      var n := FrameSize(bytes);
      [Message(bytes[0], bytes[HEADER_SIZE..n])] + Messages(bytes[n..])
  }

  function OutcomeOf(responseType: Byte, m: Message): Outcome {
    if m.messageType == RESPONSE_ERROR then ServerError(m.body)
    else if m.messageType != responseType then UnexpectedType
    else Rows(m.body)
  }

  /** `inbound`: what the peer sends before it closes the connection, less what has been read. */
  class SqlClient {
    var inbound: Bytes
    var outbound: Bytes

    constructor ()
      ensures inbound == [] && outbound == []
    {
      inbound, outbound := [], [];
    }

    method SendRequest(messageType: Byte, payload: Bytes)
      modifies this`outbound
      ensures outbound == old(outbound) + Frame(messageType, payload)
    {
      var headerBytes := Serialize(MessageHeader(messageType, Cast32(|payload|)));
      outbound := outbound + headerBytes;
      outbound := outbound + payload;
      assert outbound == old(outbound) + (headerBytes + payload);
    }

    /** A blocking read of exactly `n` bytes. */
    method ReadExactly(n: nat) returns (r: Result<Bytes, SocketError>)
      modifies this`inbound
      ensures if n <= |old(inbound)| then r == Ok(old(inbound)[..n]) && inbound == old(inbound)[n..]
              else r == Err(EndOfFile)
    {
      if |inbound| < n {
        inbound := [];
        return Err(EndOfFile);
      }
      r := Ok(inbound[..n]);
      inbound := inbound[n..];
    }

    /** Successive calls return the successive messages of the stream. */
    method ReceiveResponse() returns (r: Result<Message, SocketError>)
      modifies this`inbound
      ensures r.Ok? <==> Messages(old(inbound)) != []
      ensures r.Ok? ==> Messages(old(inbound)) == [r.value] + Messages(inbound)
    {
      var headerBuffer := ReadExactly(HEADER_SIZE);
      if headerBuffer.Err? { return Err(EndOfFile); }
      ghost var stream := old(inbound);
      assert headerBuffer.value[1..5] == stream[1..5];
      var header := Deserialize(headerBuffer.value).value;
      var payload: Bytes := [];
      if header.payloadSize > 0 {
        var read := ReadExactly(header.payloadSize);
        if read.Err? { return Err(EndOfFile); }
        payload := read.value;
      }
      assert payload == stream[HEADER_SIZE..FrameSize(stream)] && inbound == stream[FrameSize(stream)..];
      return Ok(Message(header.messageType, payload));
    }

    /** The common course of the four query calls; `arriving` is what the server sends meanwhile. */
    method Query(queryType: Byte, responseType: Byte, request: Bytes, arriving: Bytes) returns (outcome: Outcome)
      modifies this
      ensures outbound == old(outbound) + Frame(queryType, request)
      ensures var replies := Messages(old(inbound) + arriving);
              if replies == [] then outcome == Disconnected
              else outcome == OutcomeOf(responseType, replies[0]) && Messages(inbound) == replies[1..]
    {
      SendRequest(queryType, request);
      inbound := inbound + arriving;
      ghost var stream := inbound;
      var response := ReceiveResponse();
      match response
      case Err(_) => outcome := Disconnected;
      case Ok(message) =>
        assert Messages(stream)[1..] == Messages(inbound);
        if message.messageType == RESPONSE_ERROR {
          outcome := ServerError(message.body);
        } else if message.messageType != responseType {
          outcome := UnexpectedType;
        } else {
          outcome := Rows(message.body);
        }
    }
  }

  // ---- frames and messages --------------------------------------------------------------------

  lemma FrameIsFirst(messageType: Byte, body: Bytes, rest: Bytes)
    requires |body| < LIMIT
    ensures Messages(Frame(messageType, body) + rest) == [Message(messageType, body)] + Messages(rest)
  {
    var h := MessageHeader(messageType, Cast32(|body|));
    var bytes := Frame(messageType, body) + rest;
    assert bytes == HeaderBytes(h) + (body + rest);
    HeaderRoundTrip(h, body + rest);
    assert bytes[HEADER_SIZE..HEADER_SIZE + |body|] == body && bytes[HEADER_SIZE + |body|..] == rest;
  }

  /** A message comes back as it was sent exactly when its size fits the header's 32 bits. */
  lemma FrameReadsBackIff(messageType: Byte, body: Bytes)
    ensures Messages(Frame(messageType, body)) == [Message(messageType, body)] <==> |body| < LIMIT
  {
    var bytes := Frame(messageType, body);
    if |body| < LIMIT {
      FrameIsFirst(messageType, body, []);
      assert bytes + [] == bytes;
    } else {
      HeaderRoundTrip(MessageHeader(messageType, Cast32(|body|)), body);
      assert Messages(bytes)[0].body == bytes[HEADER_SIZE..FrameSize(bytes)];
    }
  }

  /** A stream cut short loses messages from its end only. */
  lemma {:induction false} MessagesOfPrefix(a: Bytes, b: Bytes)
    requires a <= b
    ensures Messages(a) <= Messages(b)
    decreases |a|
  {
    if HasFrame(a) {
      assert a[1..5] == b[1..5];
      var n := FrameSize(a);
      assert a[HEADER_SIZE..n] == b[HEADER_SIZE..n];
      MessagesOfPrefix(a[n..], b[n..]);
    }
  }

  // ---- sessions of requests -------------------------------------------------------------------

  function Frames(messages: seq<Message>): Bytes {
    if messages == [] then [] else Frame(messages[0].messageType, messages[0].body) + Frames(messages[1..])
  }

  function ReplyTo(handler: Handler, k: nat, request: Message): Message {
    var answer := handler(k, request.messageType, request.body);
    Message(ReplyType(request.messageType, answer), answer.body)
  }

  /** One reply per request, in order. */
  function Replies(handler: Handler, k: nat, requests: seq<Message>): seq<Message> {
    seq(|requests|, i requires 0 <= i < |requests| => ReplyTo(handler, k + i, requests[i]))
  }

  ghost predicate Fits(messages: seq<Message>) {
    forall i :: 0 <= i < |messages| ==> |messages[i].body| < LIMIT
  }

  lemma {:induction false} MessagesOfFrames(messages: seq<Message>)
    requires Fits(messages)
    ensures Messages(Frames(messages)) == messages
  {
    if messages != [] {
      FrameIsFirst(messages[0].messageType, messages[0].body, Frames(messages[1..]));
      MessagesOfFrames(messages[1..]);
    }
  }

  lemma FramesOfReplies(handler: Handler, k: nat, requests: seq<Message>)
    requires requests != []
    ensures Frames(Replies(handler, k, requests)) ==
            Reply(handler, k, requests[0].messageType, requests[0].body) +
            Frames(Replies(handler, k + 1, requests[1..]))
  {
    var replies := Replies(handler, k, requests);
    assert replies[0] == ReplyTo(handler, k, requests[0]);
    assert replies[1..] == Replies(handler, k + 1, requests[1..]);
  }

  lemma {:induction false} ServedRequests(handler: Handler, k: nat, requests: seq<Message>)
    requires Fits(requests)
    ensures Served(handler, k, Frames(requests)) == Frames(Replies(handler, k, requests))
    decreases |requests|
  {
    if requests != [] {
      var request, later := requests[0], requests[1..];
      ServedFrame(handler, k, MessageHeader(request.messageType, |request.body|), request.body, Frames(later));
      ServedRequests(handler, k + 1, later);
      FramesOfReplies(handler, k, requests);
    }
  }

  /**
   End to end: whatever pieces the request stream arrives in, the messages the client can read are an
   initial part of the list of replies, and all of that list when the session has come to rest.
   */
  lemma {:induction false} ClientReadsReplies(handler: Handler, es: seq<Event>, requests: seq<Message>)
    requires Received(es) == Frames(requests)
    requires Fits(requests) && Fits(Replies(handler, 0, requests))
    ensures var s := Run(handler, Start(), es);
            && Messages(s.sent) <= Replies(handler, 0, requests)
            && (Quiescent(s) ==> Messages(s.sent) == Replies(handler, 0, requests))
  {
    RepliesInLockstep(handler, es);
    ServedRequests(handler, 0, requests);
    MessagesOfFrames(Replies(handler, 0, requests));
    MessagesOfPrefix(Run(handler, Start(), es).sent, Frames(Replies(handler, 0, requests)));
  }

  /** The response type each of the four query calls insists on. */
  function ResponseTypeOf(queryType: Byte): Byte
    requires IsQuery(queryType)
  {
    if queryType == QUERY_RAW then RESPONSE_RAW
    else if queryType == QUERY_JSON then RESPONSE_JSON
    else if queryType == QUERY_BINARY then RESPONSE_BINARY
    else RESPONSE_STREAM
  }

  /** The k-th query fails exactly when its handler does, and never with an unexpected type. */
  lemma {:induction false} KthQueryGetsItsAnswer(handler: Handler, es: seq<Event>, requests: seq<Message>, k: nat)
    requires Received(es) == Frames(requests)
    requires Fits(requests) && Fits(Replies(handler, 0, requests))
    requires k < |Messages(Run(handler, Start(), es).sent)|
    ensures k < |requests|
    ensures IsQuery(requests[k].messageType) ==>
      var answer := handler(k, requests[k].messageType, requests[k].body);
      OutcomeOf(ResponseTypeOf(requests[k].messageType), Messages(Run(handler, Start(), es).sent)[k]) ==
      if answer.Failed? then ServerError(answer.body) else Rows(answer.body)
  {
    ClientReadsReplies(handler, es, requests);
  }

  /** The response types by request type; a failed request and one of an unknown type get an error. */
  lemma {:induction false} RepliesByType(handler: Handler, es: seq<Event>, requests: seq<Message>, k: nat)
    requires Received(es) == Frames(requests)
    requires Fits(requests) && Fits(Replies(handler, 0, requests))
    requires k < |Messages(Run(handler, Start(), es).sent)|
    ensures k < |requests|
    ensures var reply, answer := Messages(Run(handler, Start(), es).sent)[k],
                                 handler(k, requests[k].messageType, requests[k].body);
            && reply.body == answer.body
            && reply.messageType ==
               if answer.Failed? then 99
               else match requests[k].messageType case 1 => 11 case 2 => 12 case 3 => 13 case 4 => 14 case _ => 99
  {
    ClientReadsReplies(handler, es, requests);
  }

  /** Whichever of the four query calls takes a reply: it accepts its own kind and notices any other. */
  lemma {:induction false} CrossedRepliesAreNoticed(handler: Handler, es: seq<Event>, requests: seq<Message>, k: nat,
                                                    queryType: Byte)
    requires Received(es) == Frames(requests)
    requires Fits(requests) && Fits(Replies(handler, 0, requests))
    requires k < |Messages(Run(handler, Start(), es).sent)| && 1 <= queryType <= 4
    ensures k < |requests|
    ensures var answer := handler(k, requests[k].messageType, requests[k].body);
            OutcomeOf(10 + queryType, Messages(Run(handler, Start(), es).sent)[k]) ==
            if answer.Failed? || !(1 <= requests[k].messageType <= 4) then ServerError(answer.body)
            else if requests[k].messageType == queryType then Rows(answer.body)
            else UnexpectedType
  {
    RepliesByType(handler, es, requests, k);
  }
}
