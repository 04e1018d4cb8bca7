/** The request loop of a connection, with one buffer reused for input, decompression and compression. */
module TcpSession {
  import opened Wire

  const BUFFER_SIZE: nat := 1024
  const CAPACITY: nat := 4096

  // ---------------------------------------------------------------- what the loop calls

  /** The compressor: `frameSize` is the decompressed size that a frame announces, if it does. */
  datatype Codec = Codec(
    compress: seq<Byte> -> seq<Byte>,
    decompress: seq<Byte> -> seq<Byte>,
    frameSize: seq<Byte> -> Option<nat>,
    bound: nat -> nat)
  {
    ghost predicate Lawful() {
      && (forall x :: decompress(compress(x)) == x && frameSize(compress(x)) == Some(|x|))
      && (forall x :: |compress(x)| <= bound(|x|))
      && (forall x :: frameSize(x).Some? ==> |decompress(x)| == frameSize(x).value)
    }
  }

  lemma LawfulFor(codec: Codec, x: seq<Byte>)
    requires codec.Lawful()
    ensures codec.decompress(codec.compress(x)) == x && codec.frameSize(codec.compress(x)) == Some(|x|)
    ensures |codec.compress(x)| <= codec.bound(|x|)
    ensures codec.frameSize(x).Some? ==> |codec.decompress(x)| == codec.frameSize(x).value
  {
  }

  datatype Action = Read | Write(data: seq<Byte>) | WriteRead(data: seq<Byte>)

  /** Reported: an exception that carries a response code. TimedOut and Failed end the connection. */
  datatype Exception = Reported(code: Code, message: seq<Byte>) | TimedOut | Failed

  datatype Outcome = Done(answer: seq<Byte>) | Threw(exception: Exception)

  /** The registered services, over their common state S. */
  datatype Host<!S> = Host(
    ids: set<Unsigned>,
    validatesItself: set<Unsigned>,
    act: (S, Unsigned, Action) -> (S, Outcome),
    connectionLost: S -> S)

  // ---------------------------------------------------------------- the errors of the loop itself

  /** What the loop and the default service actions complain about. */
  datatype Complaint = InputTooLong | DecompressedTooLong | CompressedTooLong | NoSuchEndpoint | NoSuchKind | NoData

  function CodeFor(c: Complaint): Code {
    match c
    case InputTooLong => BufferOverflow
    case DecompressedTooLong => BufferOverflow
    case CompressedTooLong => BufferOverflow
    case NoSuchEndpoint => NotFound
    case NoSuchKind => NotFound
    case NoData => ConnectionError
  }

  function Ascii(text: string): (bytes: seq<Byte>)
    ensures |bytes| == |text|
  {
    seq(|text|, i requires 0 <= i < |text| => text[i] as nat % 256)
  }

  /** "Buffer overflow" in Russian, in UTF-8. */
  const OVERFLOW_TEXT: seq<Byte> :=
    [0xD0, 0x9F, 0xD0, 0xB5, 0xD1, 0x80, 0xD0, 0xB5, 0xD0, 0xBF, 0xD0, 0xBE, 0xD0, 0xBB, 0xD0, 0xBD, 0xD0, 0xB5,
     0xD0, 0xBD, 0xD0, 0xB8, 0xD0, 0xB5, 0x20, 0xD0, 0xB1, 0xD1, 0x83, 0xD1, 0x84, 0xD0, 0xB5, 0xD1, 0x80, 0xD0, 0xB0]

  function TextOf(c: Complaint): (text: seq<Byte>)
    ensures |text| < 50
  {
    match c
    case InputTooLong => OVERFLOW_TEXT
    case DecompressedTooLong => Ascii("Decompress size more then buffer")
    case CompressedTooLong => Ascii("Compress size more then capacity of buffer")
    case NoSuchEndpoint => Ascii("Endpoint not found")
    case NoSuchKind => Ascii("[REQUEST NOT FOUND]")
    case NoData => Ascii("Data is empty")
  }

  function Complain(c: Complaint): Exception {
    Reported(CodeFor(c), TextOf(c))
  }

  // ---------------------------------------------------------------- reading

  datatype Received = Received(request: Request) | TooLong(header: RequestHeader) | EndOfStream

  function ReadRequest(stream: seq<Byte>): (r: (Received, seq<Byte>))
    ensures r.0 != EndOfStream ==> |r.1| < |stream|
    ensures r.0.Received? ==> |r.0.request.body| <= BUFFER_SIZE
  {
    if |stream| < HEADER_SIZE then (EndOfStream, stream)
    else
      var h, rest := DecodeHeader(stream[..HEADER_SIZE]), stream[HEADER_SIZE..];
      if h.length > BUFFER_SIZE then (TooLong(h), rest)
      else if |rest| < h.length then (EndOfStream, rest)
      else (Received(Request(h.kind, h.endpoint, rest[..h.length])), rest[h.length..])
  }

  // ---------------------------------------------------------------- one request

  /** `caught`: the response is sent from a catch clause. */
  datatype Reply = Send(response: Response, caught: bool) | Close(lost: bool)

  /** What the catch clauses do. */
  function Caught(e: Exception): Reply {
    match e
    case Reported(code, message) => Send(Response(code, -1, message), true)
    case TimedOut => Close(false)
    case Failed => Close(true)
  }

  /** The reply to a complaint. */
  function Refusal(c: Complaint): Reply {
    Caught(Complain(c))
  }

  /** The decompressed payload of a write, which has to fit behind its compressed form. */
  function Payload(codec: Codec, r: Request): Option<seq<Byte>> {
    if r.kind == W || r.kind == WR then
      match codec.frameSize(r.body)
      case Some(n) => if |r.body| <= CAPACITY && n <= CAPACITY - |r.body| then Some(codec.decompress(r.body)) else None
      case None => None
    else Some([])
  }

  function DoAction<S>(host: Host<S>, s: S, id: Unsigned, kind: Unsigned, data: seq<Byte>): (S, Outcome) {
    if kind == R then host.act(s, id, Read)
    else if kind == W || kind == WR then
      if data == [] && id !in host.validatesItself then
        (s, Threw(Complain(NoData)))
      else if kind == W then host.act(s, id, Write(data))
      else host.act(s, id, WriteRead(data))
    else (s, Threw(Complain(NoSuchKind)))
  }

  /** Sending what a service answered: reads are compressed, and their header carries the uncompressed size where
      the endpoint is otherwise; writes are acknowledged without content. */
  function Sent(codec: Codec, kind: Unsigned, id: Unsigned, answer: seq<Byte>): Reply {
    if kind == W then Send(Response(NoContent, ToSigned(id), []), false)
    else if codec.bound(|answer|) > CAPACITY then Refusal(CompressedTooLong)
    else Send(Response(Ok, ToSigned(|answer| % WORD), codec.compress(answer)), false)
  }

  function Answer<S>(host: Host<S>, codec: Codec, s: S, r: Request): (S, Reply)
  {
    match Payload(codec, r)
    case None => (s, Refusal(DecompressedTooLong))
    case Some(data) =>
      var id := ToUnsigned(r.endpoint);
      if id !in host.ids then (s, Refusal(NoSuchEndpoint))
      else
        match DoAction(host, s, id, r.kind, data)
        case (s', Threw(e)) => (s', Caught(e))
        case (s', Done(answer)) => (s', Sent(codec, r.kind, id, answer))
  }

  // ---------------------------------------------------------------- the connection

  function Handle<S>(host: Host<S>, codec: Codec, s: S, received: Received): (r: (S, Reply))
    ensures received.EndOfStream? ==> r.1.Close?
  {
    match received
    case Received(request) => Answer(host, codec, s, request)
    case TooLong(_) => (s, Refusal(InputTooLong))
    case EndOfStream => (s, Close(true))
  }

  function Closed<S>(host: Host<S>, s: S, lost: bool): S {
    if lost then host.connectionLost(s) else s
  }

  /** The responses sent for what arrives on the stream until the connection is closed, and the state it leaves. */
  function Session<S>(host: Host<S>, codec: Codec, s: S, stream: seq<Byte>): (S, seq<Response>)
    decreases |stream|
  {
    var (received, rest) := ReadRequest(stream);
    match Handle(host, codec, s, received)
    case (s', Close(lost)) => (Closed(host, s', lost), [])
    case (s', Send(response, _)) =>
      var (end, responses) := Session(host, codec, s', rest);
      (end, [response] + responses)
  }

  /** How the loop over a connection ends: the socket is closed, or an exception leaves the whole function. */
  datatype End = Ended | Escaped

  /** The session with a client that takes only so many responses; writing the next one fails. Inside the try block
      that closes the connection; in a catch clause nothing is left to catch it. */
  function SessionUntil<S>(host: Host<S>, codec: Codec, s: S, stream: seq<Byte>, accepted: nat):
    (S, seq<Response>, End)
    decreases |stream|
  {
    var (received, rest) := ReadRequest(stream);
    match Handle(host, codec, s, received)
    case (s', Close(lost)) => (Closed(host, s', lost), [], Ended)
    case (s', Send(response, caught)) =>
      if accepted == 0 then
        if caught then (s', [], Escaped) else (Closed(host, s', true), [], Ended)
      else
        var (end, responses, how) := SessionUntil(host, codec, s', rest, accepted - 1);
        (end, [response] + responses, how)
  }

  /** The reply of turn i of the loop and the state it leaves, or those of the turn that closes the connection. */
  function TurnAt<S>(host: Host<S>, codec: Codec, s: S, stream: seq<Byte>, i: nat): (S, Reply)
    decreases |stream|
  {
    var (received, rest) := ReadRequest(stream);
    var (s', reply) := Handle(host, codec, s, received);
    if reply.Send? && i > 0 then TurnAt(host, codec, s', rest, i - 1) else (s', reply)
  }

  /** A client that takes all responses makes no difference. One that goes away has seen the first responses of the
      session; the request behind the next one has been served, and the services are told that the connection is
      lost unless that response reports an error: then the exception leaves the loop and nobody is told. */
  lemma {:induction false} WritesCutSession<S>(host: Host<S>, codec: Codec, s: S, stream: seq<Byte>, accepted: nat)
    ensures var (end, responses, how) := SessionUntil(host, codec, s, stream, accepted);
      var all := Session(host, codec, s, stream);
      var (last, reply) := TurnAt(host, codec, s, stream, accepted);
      && (accepted >= |all.1| ==> (end, responses, how) == (all.0, all.1, Ended))
      && (accepted < |all.1| ==>
           && responses == all.1[..accepted] && reply.Send? && reply.response == all.1[accepted]
           && how == (if reply.caught then Escaped else Ended)
           && end == if reply.caught then last else host.connectionLost(last))
    decreases |stream|
  {
    hide ReadRequest, Handle;
    var (received, rest) := ReadRequest(stream);
    var (s', reply) := Handle(host, codec, s, received);
    if reply.Send? && accepted > 0 {
      WritesCutSession(host, codec, s', rest, accepted - 1);
    }
  }

  /** The same for a list of requests instead of bytes; after the last one the client disconnects. */
  function Conversation<S>(host: Host<S>, codec: Codec, s: S, requests: seq<Request>): (S, seq<Response>)
    requires AllRepresentable(requests)
  {
    if requests == [] then (Closed(host, s, true), [])
    else
      match Answer(host, codec, s, requests[0])
      case (s', Close(lost)) => (Closed(host, s', lost), [])
      case (s', Send(response, _)) =>
        var (end, responses) := Conversation(host, codec, s', requests[1..]);
        (end, [response] + responses)
  }

  predicate InLimit(r: Request) {
    |r.body| <= 1024
  }

  lemma ReadsFront(r: Request, rest: seq<Byte>)
    requires r.Representable()
    ensures var h := RequestHeader(r.kind, r.endpoint, |r.body|);
      ReadRequest(EncodeRequest(r) + rest) == if InLimit(r) then (Received(r), rest) else (TooLong(h), r.body + rest)
  {
    HeaderRoundTrip(r, rest);
    hide EncodeRequest, DecodeHeader;
    var stream := EncodeRequest(r) + rest;
    var after := stream[HEADER_SIZE..];
    assert after == stream[HEADER_SIZE..HEADER_SIZE + |r.body|] + stream[HEADER_SIZE + |r.body|..];
    assert after[..|r.body|] == r.body && after[|r.body|..] == rest;
  }

  /** The loop works on the requests as they were encoded: nothing is split, merged, lost or reordered. */
  lemma {:induction false} SessionFollowsRequests<S>(host: Host<S>, codec: Codec, s: S, requests: seq<Request>)
    requires AllRepresentable(requests) && forall i :: 0 <= i < |requests| ==> InLimit(requests[i])
    ensures Session(host, codec, s, EncodeRequests(requests)) == Conversation(host, codec, s, requests)
    decreases |requests|
  {
    if requests != [] {
      var rest := requests[1..];
      var stream := EncodeRequests(requests);
      ReadsFront(requests[0], EncodeRequests(rest));
      hide ReadRequest, EncodeRequest, Answer, Closed;
      assert ReadRequest(stream) == (Received(requests[0]), EncodeRequests(rest));
      var (s', reply) := Answer(host, codec, s, requests[0]);
      if reply.Send? {
        SessionFollowsRequests(host, codec, s', rest);
      }
    } else {
      assert ReadRequest([]) == (EndOfStream, []);
    }
  }

  /** Everything a stream is read as, as long as the connection stays open. */
  function Readings(stream: seq<Byte>): seq<Received>
    decreases |stream|
  {
    var (received, rest) := ReadRequest(stream);
    if received.EndOfStream? then [] else [received] + Readings(rest)
  }

  function AsReceived(requests: seq<Request>): (r: seq<Received>)
    ensures |r| == |requests|
  {
    seq(|requests|, i requires 0 <= i < |requests| => Received(requests[i]))
  }

  /** Requests are recovered from their encoding exactly when all of them are within the limit: the body of a
      longer one is left in the stream. */
  lemma {:induction false} RecoveredExactly(requests: seq<Request>)
    requires AllRepresentable(requests)
    ensures Readings(EncodeRequests(requests)) == AsReceived(requests)
       <==> forall i :: 0 <= i < |requests| ==> InLimit(requests[i])
    decreases |requests|
  {
    if requests == [] {
      assert ReadRequest([]) == (EndOfStream, []);
    } else {
      var rest := requests[1..];
      ReadsFront(requests[0], EncodeRequests(rest));
      RecoveredExactly(rest);
      hide ReadRequest, EncodeRequest, InLimit;
      var readings := Readings(EncodeRequests(requests));
      assert AsReceived(requests) == [Received(requests[0])] + AsReceived(rest);
      if InLimit(requests[0]) {
        assert readings == [Received(requests[0])] + Readings(EncodeRequests(rest));
        assert readings[1..] == Readings(EncodeRequests(rest)) && AsReceived(requests)[1..] == AsReceived(rest);
        if forall i :: 0 <= i < |rest| ==> InLimit(rest[i]) {
          forall i | 0 <= i < |requests|
            ensures InLimit(requests[i])
          {
            assert i > 0 ==> requests[i] == rest[i - 1];
          }
        }
      } else {
        assert readings[0].TooLong?;
      }
    }
  }

  // ---------------------------------------------------------------- one response per request

  /** The state of the services before request i. */
  function StateBefore<S>(host: Host<S>, codec: Codec, s: S, requests: seq<Request>, i: nat): S
    requires i <= |requests| && AllRepresentable(requests)
  {
    if i == 0 then s else Answer(host, codec, StateBefore(host, codec, s, requests, i - 1), requests[i - 1]).0
  }

  lemma {:induction false} StateAfterFirst<S>(host: Host<S>, codec: Codec, s: S, requests: seq<Request>, i: nat)
    requires 0 < i <= |requests| && AllRepresentable(requests)
    ensures StateBefore(host, codec, s, requests, i)
         == StateBefore(host, codec, Answer(host, codec, s, requests[0]).0, requests[1..], i - 1)
  {
    hide Answer;
    if i > 1 {
      StateAfterFirst(host, codec, s, requests, i - 1);
    } else {
      assert StateBefore(host, codec, s, requests, 0) == s;
    }
  }

  /** The i-th response answers the i-th request; only a request that closes the connection gets none, and
      neither does anything after it. */
  lemma {:induction false} OneResponseEach<S>(host: Host<S>, codec: Codec, s: S, requests: seq<Request>, i: nat)
    requires AllRepresentable(requests)
    ensures var responses := Conversation(host, codec, s, requests).1;
      && |responses| <= |requests|
      && (i < |responses| ==>
           var reply := Answer(host, codec, StateBefore(host, codec, s, requests, i), requests[i]).1;
           reply.Send? && reply.response == responses[i])
      && (i == |responses| < |requests| ==>
           Answer(host, codec, StateBefore(host, codec, s, requests, i), requests[i]).1.Close?)
    decreases |requests|
  {
    hide Answer, Closed;
    if requests == [] {
    } else {
      var (s', reply) := Answer(host, codec, s, requests[0]);
      if reply.Send? {
        OneResponseEach(host, codec, s', requests[1..], if i == 0 then 0 else i - 1);
        if 0 < i <= |requests| {
          StateAfterFirst(host, codec, s, requests, i);
        }
      }
    }
  }

  /** No service times the connection out or fails in a way that closes it. */
  ghost predicate NeverCloses<S(!new)>(host: Host<S>) {
    forall s, id, action :: var outcome := host.act(s, id, action).1; outcome.Threw? ==> outcome.exception.Reported?
  }

  lemma NeverClosesAnswers<S(!new)>(host: Host<S>, codec: Codec, s: S, r: Request)
    requires NeverCloses(host)
    ensures Answer(host, codec, s, r).1.Send?
  {
  }

  /** The texts that services throw fit the length field. */
  ghost predicate TextsFit<S(!new)>(host: Host<S>) {
    forall s, id, action :: Representable(host.act(s, id, action).1)
  }

  predicate Representable(outcome: Outcome) {
    outcome.Threw? && outcome.exception.Reported? ==> |outcome.exception.message| < WORD
  }

  /** Every response fits the length field: its body is a text, nothing, or compressed within the bound. */
  lemma AnswerRepresentable<S(!new)>(host: Host<S>, codec: Codec, s: S, r: Request)
    requires codec.Lawful() && TextsFit(host)
    ensures var reply := Answer(host, codec, s, r).1; reply.Send? ==> reply.response.Representable()
  {
    hide Codec.Lawful, TextOf, ToSigned;
    if Payload(codec, r).Some? && ToUnsigned(r.endpoint) in host.ids {
      var data, id := Payload(codec, r).value, ToUnsigned(r.endpoint);
      ActionRepresentable(host, s, id, r.kind, data);
      var outcome := DoAction(host, s, id, r.kind, data).1;
      hide DoAction, TextsFit;
      if outcome.Done? {
        LawfulFor(codec, outcome.answer);
      }
    }
  }

  lemma ActionRepresentable<S(!new)>(host: Host<S>, s: S, id: Unsigned, kind: Unsigned, data: seq<Byte>)
    requires TextsFit(host)
    ensures Representable(DoAction(host, s, id, kind, data).1)
  {
    hide TextOf;
  }

  /** From bytes to bytes: the client sends its requests and reads back exactly one response for each. */
  lemma ClientReadsOneEach<S(!new)>(host: Host<S>, codec: Codec, s: S, requests: seq<Request>)
    requires AllRepresentable(requests) && forall i :: 0 <= i < |requests| ==> InLimit(requests[i])
    requires codec.Lawful() && NeverCloses(host) && TextsFit(host)
    ensures var responses := Session(host, codec, s, EncodeRequests(requests)).1;
      && |responses| == |requests|
      && (forall i :: 0 <= i < |responses| ==> responses[i].Representable())
      && DecodeResponses(EncodeResponses(responses)) == Some(responses)
  {
    SessionFollowsRequests(host, codec, s, requests);
    var responses := Conversation(host, codec, s, requests).1;
    hide Session, Conversation, NeverCloses, EncodeRequests, Answer, Codec.Lawful, TextsFit;
    forall i | 0 <= i < |responses|
      ensures responses[i].Representable()
    {
      OneResponseEach(host, codec, s, requests, i);
      AnswerRepresentable(host, codec, StateBefore(host, codec, s, requests, i), requests[i]);
    }
    ResponsesRoundTrip(responses);
    var n := |responses|;
    OneResponseEach(host, codec, s, requests, n);
    if n < |requests| {
      NeverClosesAnswers(host, codec, StateBefore(host, codec, s, requests, n), requests[n]);
    }
  }

  /** The reply to a read or write-read whose service answered: the uncompressed size stands where the endpoint
      should, and the body decompresses to the answer, or the answer is too long to compress. */
  predicate Carries(codec: Codec, reply: Reply, answer: seq<Byte>) {
    && reply.Send?
    && if codec.bound(|answer|) <= CAPACITY
       then reply == Send(Response(Ok, ToSigned(|answer| % WORD), reply.response.data), false)
         && codec.decompress(reply.response.data) == answer
       else reply == Refusal(CompressedTooLong)
  }

  /** What a read carries back, whatever came with the request. */
  lemma AnswersArrive<S>(host: Host<S>, codec: Codec, s: S, endpoint: Signed, body: seq<Byte>,
                         s': S, answer: seq<Byte>)
    requires codec.Lawful() && ToUnsigned(endpoint) in host.ids
    requires host.act(s, ToUnsigned(endpoint), Read) == (s', Done(answer))
    ensures var (after, reply) := Answer(host, codec, s, Request(R, endpoint, body));
      after == s' && Carries(codec, reply, answer)
  {
    hide Codec.Lawful, TextOf, ToSigned;
    LawfulFor(codec, answer);
  }

  /** A payload arrives at the service as the client compressed it, and so does the answer at the client. */
  lemma PayloadsArrive<S>(host: Host<S>, codec: Codec, s: S, endpoint: Signed, payload: seq<Byte>,
                          s': S, answer: seq<Byte>)
    requires codec.Lawful() && ToUnsigned(endpoint) in host.ids && payload != []
    requires |codec.compress(payload)| <= BUFFER_SIZE && |payload| + |codec.compress(payload)| <= CAPACITY
    requires host.act(s, ToUnsigned(endpoint), WriteRead(payload)) == (s', Done(answer))
    ensures var (after, reply) := Answer(host, codec, s, Request(WR, endpoint, codec.compress(payload)));
      after == s' && Carries(codec, reply, answer)
  {
    hide Codec.Lawful, TextOf, ToSigned;
    LawfulFor(codec, answer);
    LawfulFor(codec, payload);
    var r := Request(WR, endpoint, codec.compress(payload));
    assert codec.frameSize(r.body) == Some(|payload|);
    assert Payload(codec, r) == Some(payload);
  }

  lemma EndpointReturns(endpoint: Signed)
    ensures ToSigned(ToUnsigned(endpoint)) == endpoint
  {
  }

  /** The payload of a write arrives at the service as the client compressed it, an empty one only if the service does
      its own validation, and the client gets an acknowledgement that names the endpoint. */
  lemma WritesArrive<S>(host: Host<S>, codec: Codec, s: S, endpoint: Signed, payload: seq<Byte>,
                        s': S, answer: seq<Byte>)
    requires codec.Lawful() && ToUnsigned(endpoint) in host.ids
    requires payload != [] || ToUnsigned(endpoint) in host.validatesItself
    requires |codec.compress(payload)| <= BUFFER_SIZE && |payload| + |codec.compress(payload)| <= CAPACITY
    requires host.act(s, ToUnsigned(endpoint), Write(payload)) == (s', Done(answer))
    ensures Answer(host, codec, s, Request(W, endpoint, codec.compress(payload)))
         == (s', Send(Response(NoContent, endpoint, []), false))
  {
    hide Codec.Lawful, TextOf, ToSigned;
    EndpointReturns(endpoint);
    LawfulFor(codec, payload);
    var r := Request(W, endpoint, codec.compress(payload));
    assert codec.frameSize(r.body) == Some(|payload|);
    assert Payload(codec, r) == Some(payload);
  }

  /** The loop decides alone, and leaves the services as they are, if and only if the payload of a write does not fit
      behind its frame, the endpoint or the kind is unknown, or there is nothing to write and the service leaves that
      check to the loop. Anything else is what the service makes of it. */
  lemma RefusedExactly<S>(host: Host<S>, codec: Codec, s: S, r: Request)
    requires |r.body| <= 1024
    ensures var id, reply := r.endpoint % 0x1_0000_0000_0000_0000, Answer(host, codec, s, r).1;
      var writes, announced := r.kind in {1, 2}, codec.frameSize(r.body);
      var data := if writes then codec.decompress(r.body) else [];
      if writes && (announced.None? || |r.body| + announced.value > 4096) then
        && Answer(host, codec, s, r).0 == s
        && reply == Send(Response(BufferOverflow, -1, Ascii("Decompress size more then buffer")), true)
      else if id !in host.ids then
        Answer(host, codec, s, r) == (s, Send(Response(NotFound, -1, Ascii("Endpoint not found")), true))
      else if r.kind > 2 then
        Answer(host, codec, s, r) == (s, Send(Response(NotFound, -1, Ascii("[REQUEST NOT FOUND]")), true))
      else if writes && data == [] && id !in host.validatesItself then
        Answer(host, codec, s, r) == (s, Send(Response(ConnectionError, -1, Ascii("Data is empty")), true))
      else
        var (after, outcome) :=
          host.act(s, id, if r.kind == 0 then Read else if r.kind == 1 then Write(data) else WriteRead(data));
        && Answer(host, codec, s, r).0 == after
        && match outcome
           case Done(answer) => reply == Sent(codec, r.kind, id, answer)
           case Threw(Reported(code, text)) => reply == Send(Response(code, -1, text), true)
           case Threw(TimedOut) => reply == Close(false)
           case Threw(Failed) => reply == Close(true)
  {
    hide Ascii, ToSigned, Sent;
  }

  /** How a connection ends: quietly after a timeout of a service, with the services told after any other failure and
      when the client is gone. */
  lemma ConnectionEnds<S>(host: Host<S>, codec: Codec, s: S, stream: seq<Byte>)
    ensures |stream| < 24 ==> Session(host, codec, s, stream) == (host.connectionLost(s), [])
    ensures var (received, rest) := ReadRequest(stream);
      received.Received? ==>
        && (Answer(host, codec, s, received.request).1 == Close(false) ==>
             Session(host, codec, s, stream) == (Answer(host, codec, s, received.request).0, []))
        && (Answer(host, codec, s, received.request).1 == Close(true) ==>
             Session(host, codec, s, stream) == (host.connectionLost(Answer(host, codec, s, received.request).0), []))
  {
    hide Answer;
  }

  /** What is too long is answered by an overflow: a request body beyond 1024 bytes, and an answer that may not fit
      4096 bytes compressed. */
  lemma TooLongAnswered<S>(host: Host<S>, codec: Codec, s: S, h: RequestHeader, kind: Unsigned, id: Unsigned,
                           answer: seq<Byte>)
    ensures Handle(host, codec, s, TooLong(h)) == (s, Send(Response(BufferOverflow, -1, OVERFLOW_TEXT), true))
    ensures kind != W && codec.bound(|answer|) > 4096 ==>
      Sent(codec, kind, id, answer)
        == Send(Response(BufferOverflow, -1, Ascii("Compress size more then capacity of buffer")), true)
  {
    hide Ascii;
  }

  // ---------------------------------------------------------------- the buffer and the loop

  /** A region of the buffer. */
  datatype View = View(start: nat, size: nat)

  class Buffer {
    const data: array<Byte>

    ghost predicate Valid() {
      data.Length == CAPACITY
    }

    predicate Inside(v: View) {
      v.start + v.size <= data.Length
    }

    constructor ()
      ensures Valid() && fresh(data)
    {
      data := new Byte[CAPACITY](_ => 0);
    }

    method Fill(at: nat, bytes: seq<Byte>)
      requires at + |bytes| <= data.Length
      modifies data
      ensures data[..at] == old(data[..at])
      ensures data[at..at + |bytes|] == bytes
      ensures data[at + |bytes|..] == old(data[at + |bytes|..])
    {
      for i := 0 to |bytes|
        invariant forall j :: 0 <= j < at ==> data[j] == old(data[j])
        invariant forall j :: 0 <= j < i ==> data[at + j] == bytes[j]
        invariant forall j :: at + |bytes| <= j < data.Length ==> data[j] == old(data[j])
      {
        data[at + i] := bytes[i];
      }
      assert data[at..at + |bytes|] == bytes;
      assert data[..at] == old(data[..at]);
      assert data[at + |bytes|..] == old(data[at + |bytes|..]);
    }

    /** Decompresses the front of the buffer into the space behind it, which the frame itself does not reach. */
    method Decompress(codec: Codec, size: nat) returns (view: Option<View>)
      requires Valid() && size <= BUFFER_SIZE
      requires codec.frameSize(data[..size]).Some? ==>
        |codec.decompress(data[..size])| == codec.frameSize(data[..size]).value
      modifies data
      ensures data[..size] == old(data[..size])
      ensures var frame := old(data[..size]);
        var fits := codec.frameSize(frame).Some? && codec.frameSize(frame).value <= CAPACITY - size;
        && (view.Some? <==> fits)
        && (fits ==>
             && view.value.start == size && Inside(view.value)
             && data[view.value.start..view.value.start + view.value.size] == codec.decompress(frame))
    {
      var frame := data[..size];
      match codec.frameSize(frame) {
        case None => return None;
        case Some(n) =>
          if n > CAPACITY - size {
            return None;
          }
          Fill(size, codec.decompress(frame));
          return Some(View(size, n));
      }
    }

    /** Compresses into the front of the buffer, over whatever was there. */
    method Compress(codec: Codec, bytes: seq<Byte>) returns (view: Option<View>)
      requires Valid() && |codec.compress(bytes)| <= codec.bound(|bytes|)
      modifies data
      ensures view.Some? <==> codec.bound(|bytes|) <= CAPACITY
      ensures view.Some? ==>
        && Inside(view.value)
        && data[view.value.start..view.value.start + view.value.size] == codec.compress(bytes)
    {
      if codec.bound(|bytes|) > CAPACITY {
        return None;
      }
      var compressed := codec.compress(bytes);
      Fill(0, compressed);
      return Some(View(0, |compressed|));
    }
  }

  /** One turn of the loop after the body has been read into the buffer. */
  method HandleRequest<S>(host: Host<S>, codec: Codec, s: S, r: Request, buffer: Buffer) returns (s': S, reply: Reply)
    requires codec.Lawful() && buffer.Valid() && InLimit(r) && buffer.data[..|r.body|] == r.body
    modifies buffer.data
    ensures (s', reply) == Answer(host, codec, s, r)
  {
    hide Codec.Lawful, DoAction, Caught;
    LawfulFor(codec, r.body);
    var view := View(0, 0);
    if r.kind == W || r.kind == WR {
      var decompressed := buffer.Decompress(codec, |r.body|);
      if decompressed.None? {
        return s, Refusal(DecompressedTooLong);
      }
      view := decompressed.value;
    }
    var id := ToUnsigned(r.endpoint);
    if id !in host.ids {
      return s, Refusal(NoSuchEndpoint);
    }
    assert Payload(codec, r) == Some(buffer.data[view.start..view.start + view.size]);
    var (after, outcome) := DoAction(host, s, id, r.kind, buffer.data[view.start..view.start + view.size]);
    if outcome.Threw? {
      return after, Caught(outcome.exception);
    }
    if r.kind == W {
      return after, Send(Response(NoContent, ToSigned(id), []), false);
    }
    LawfulFor(codec, outcome.answer);
    var compressed := buffer.Compress(codec, outcome.answer);
    if compressed.None? {
      return after, Refusal(CompressedTooLong);
    }
    var v := compressed.value;
    var body := buffer.data[v.start..v.start + v.size];
    return after, Send(Response(Ok, ToSigned(|outcome.answer| % WORD), body), false);
  }

  /** A session that has already sent some responses. */
  function After<S>(sent: seq<Response>, session: (S, seq<Response>, End)): (S, seq<Response>, End) {
    (session.0, sent + session.1, session.2)
  }

  lemma AfterOneMore<S>(sent: seq<Response>, r: Response, session: (S, seq<Response>, End))
    ensures After(sent, After([r], session)) == After(sent + [r], session)
  {
    assert sent + ([r] + session.1) == sent + [r] + session.1;
  }

  lemma SessionStep<S>(host: Host<S>, codec: Codec, s: S, stream: seq<Byte>, accepted: nat)
    ensures var (received, rest) := ReadRequest(stream);
      var (s', reply) := Handle(host, codec, s, received);
      SessionUntil(host, codec, s, stream, accepted) ==
        match reply
        case Close(lost) => (Closed(host, s', lost), [], Ended)
        case Send(response, caught) =>
          if accepted > 0 then After([response], SessionUntil(host, codec, s', rest, accepted - 1))
          else if caught then (s', [], Escaped) else (Closed(host, s', true), [], Ended)
  {
    hide ReadRequest, Handle, Closed;
  }

  /** The connection, from accept to close, on everything the client sends, with a client that takes `accepted`
      responses. */
  method Serve<S>(host: Host<S>, codec: Codec, start: S, stream: seq<Byte>, accepted: nat)
    returns (s: S, responses: seq<Response>, how: End)
    requires codec.Lawful()
    ensures (s, responses, how) == SessionUntil(host, codec, start, stream, accepted)
  {
    var buffer := new Buffer();
    var rest, isOpen := stream, true;
    s, responses, how := start, [], Ended;
    hide Answer, ReadRequest, Codec.Lawful, Closed, SessionUntil;
    ghost var all := SessionUntil(host, codec, start, stream, accepted);
    assert [] + all.1 == all.1;
    while isOpen
      invariant |responses| <= accepted
      invariant isOpen ==> how == Ended
      invariant isOpen ==> all == After(responses, SessionUntil(host, codec, s, rest, accepted - |responses|))
      invariant !isOpen ==> (s, responses, how) == all
      decreases isOpen, |rest|
    {
      var (received, after) := ReadRequest(rest);
      var reply;
      SessionStep(host, codec, s, rest, accepted - |responses|);
      ghost var before := s;
      match received {
        case Received(request) =>
          buffer.Fill(0, request.body);
          s, reply := HandleRequest(host, codec, s, request, buffer);
        case TooLong(_) =>
          reply := Refusal(InputTooLong);
        case EndOfStream =>
          reply := Close(true);
      }
      assert (s, reply) == Handle(host, codec, before, received);
      assert responses + [] == responses;
      match reply {
        case Send(response, caught) =>
          if |responses| < accepted {
            AfterOneMore(responses, response, SessionUntil(host, codec, s, after, accepted - |responses| - 1));
            responses := responses + [response];
            rest := after;
          } else if caught {
            how, isOpen := Escaped, false;
          } else {
            s, isOpen := Closed(host, s, true), false;
          }
        case Close(lost) =>
          s, isOpen := Closed(host, s, lost), false;
      }
    }
  }
}
