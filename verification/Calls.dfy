/** What each of the client's operations comes to, as a function of where it starts and of everything that
    is not up to the client; and exactly when it can succeed. */
module Calls {
  import opened Wrappers
  import opened Wire
  import opened Protocol
  import opened Connection
  import opened Exchanges
  import opened Streaming

  function Opened(id: nat, accepted: bool): (s: Conn)
    ensures s.id == id && s.served == [] && Ready(s)
  {
    if accepted then Fresh(id) else Dead(Fresh(id))
  }

  /** Whether slot `a` comes before slot `b` in the client's life. */
  predicate Before(a: Slot, b: Slot) {
    a.connection < b.connection || (a.connection == b.connection && a.index < b.index)
  }

  function RequestFrame(service: Service, q: Request): Frame {
    Frame(MSG_REQUEST, service.codec.encodeRequest(q))
  }

  /** The request a streaming call sends: the mode is put into its payload. */
  function Moded(q: Request, mode: StreamMode): Option<Request> {
    match WithMode(q.payload, mode)
    case None => None
    case Some(payload) => Some(q.(payload := payload))
  }

  function StreamFrame(service: Service, q: Request): Frame {
    Frame(MSG_STREAM_REQUEST, service.codec.encodeRequest(q))
  }

  /** `messages` is what the reading loop makes of the server's replies to this streaming call, the first
      of which announces the mode the call asked for. */
  predicate Streamed(service: Service, slot: Slot, q: Request, mode: StreamMode, messages: seq<StreamMessage>) {
    var sent := Moded(q, mode);
    && sent.Some? && service.config.streaming
    && var replies := Answer(service, slot.connection, slot.index, StreamFrame(service, sent.value)).replies;
       && Collect(service.codec, [], replies) == Ended(Ok(messages))
       && replies != [] && replies[0] == Frame(MSG_STREAM_START, service.codec.streamStart(sent.value, mode))
  }

  predicate Described(service: Service, schema: Schema) {
    service.config.introspection && schema == service.handler.schema
  }

  const SCHEMA_FRAME := Frame(MSG_SCHEMA_REQUEST, [])

  /** A response read for `q` is the handler's answer to `q`, given in this call's own slot. */
  lemma ResponseIsAnswer(service: Service, slot: Slot, q: Request)
    requires Lawful(service.codec) && slot.index > 0
    requires var a := Answer(service, slot.connection, slot.index, RequestFrame(service, q));
             a.replies != [] && a.replies[0].kind == MSG_RESPONSE
    ensures var a := Answer(service, slot.connection, slot.index, RequestFrame(service, q));
            && |a.replies| == 1 && a.next.Continue?
            && ValidRequest(q)
            && service.codec.decodeResponse(a.replies[0].payload) == Some(service.handler.handle(slot, q))
  {
    RequestGetsOneReply(service, slot, RequestFrame(service, q));
  }

  /** Reading one more of this server's frames: the stream goes on with no message, or it ends, well
      only with the last of them. */
  lemma StreamTurn(service: Service, slot: Slot, q: Request, k: nat)
    requires slot.index > 0
    requires var a := Answer(service, slot.connection, slot.index, StreamFrame(service, q));
             k < |a.replies| && Collect(service.codec, [], a.replies[..k]) == Reading([])
    ensures var a := Answer(service, slot.connection, slot.index, StreamFrame(service, q));
            var p := Absorb(service.codec, [], a.replies[k]);
            && Collect(service.codec, [], a.replies[..k + 1]) == p
            && (p.Reading? ==> p == Reading([]))
            && (p.Ended? && p.outcome.Ok? ==>
                  && p.outcome.value == [] && k + 1 == |a.replies| && a.next.Continue? && service.config.streaming
                  && a.replies[0].kind == MSG_STREAM_START
                  && Collect(service.codec, [], a.replies) == p)
  {
    var f := StreamFrame(service, q);
    var replies := Answer(service, slot.connection, slot.index, f).replies;
    StreamGetsStartAndEnd(service, slot, f);
    hide Serve;
    CollectPush(service.codec, [], replies[..k], replies[k]);
    hide Collect;
    assert replies[..k] + [replies[k]] == replies[..k + 1];
    assert k + 1 == |replies| ==> replies[..k + 1] == replies;
  }

  /** The server announces the mode the client asked for. */
  lemma ModeAnnounced(service: Service, slot: Slot, q: Request, mode: StreamMode)
    requires Lawful(service.codec) && slot.index > 0 && Moded(q, mode).Some?
    requires var a := Answer(service, slot.connection, slot.index, StreamFrame(service, Moded(q, mode).value));
             a.replies != [] && a.replies[0].kind == MSG_STREAM_START
    ensures var a := Answer(service, slot.connection, slot.index, StreamFrame(service, Moded(q, mode).value));
            a.replies[0] == Frame(MSG_STREAM_START, service.codec.streamStart(Moded(q, mode).value, mode))
  {
    var sent := Moded(q, mode).value;
    StreamGetsStartAndEnd(service, slot, StreamFrame(service, sent));
    ModeRoundTrip(q.payload, mode);
  }

  // ---------- what each operation comes to ----------

  /** How an attempt to connect goes, before the handshake. */
  datatype Dial = Refused | TooLate | Reached(accepted: bool, weather: Weather)

  function HelloFrame(service: Service): Frame {
    Frame(MSG_HANDSHAKE, service.codec.hello)
  }

  /** The handshake on connection `id`. */
  function Handshake(service: Service, id: nat, dial: Dial): Got
    requires dial.Reached?
  {
    Exchanges.RoundTrip(service, Opened(id, dial.accepted), HelloFrame(service), dial.weather)
  }

  /** The session a reply to the handshake opens. */
  function Session(codec: Codec, reply: Frame): Result<Text> {
    if reply.kind != MSG_HANDSHAKE_ACK then Err(Error.Protocol)
    else
      match codec.decodeGreeting(reply.payload)
      case None => Err(Error.Encoding)
      case Some(greeting) => if greeting.success then Ok(greeting.sessionId) else Err(Error.Protocol)
  }

  function Connected(service: Service, id: nat, dial: Dial): (r: Result<Text>)
    ensures r != Err(Panic)
  {
    match dial
    case Refused => Err(ConnectionFailed)
    case TooLate => Err(Timeout)
    case Reached(_, _) =>
      (match Handshake(service, id, dial).result
       case Err(error) => Err(error)
       case Ok(reply) => Session(service.codec, reply))
  }

  /** What a client starts an operation with. */
  datatype Start = Start(kept: Option<Conn>, dialled: nat)

  /** The connection an operation works on: the one kept, or one made for it. */
  function WorksOn(service: Service, start: Start, dial: Dial): Option<Conn> {
    if start.kept.Some? then start.kept
    else if Connected(service, start.dialled, dial).Ok? then Some(Handshake(service, start.dialled, dial).conn)
    else None
  }

  /** What a call makes of the frame it reads. A response always decodes. */
  predicate AnswersFrom(got: Result<Frame>, r: Result<Response>) {
    && (r.Ok? <==> got.Ok? && got.value.kind == MSG_RESPONSE)
    && (got.Err? ==> r == Err(got.error))
    && (got.Ok? && got.value.kind != MSG_RESPONSE ==> r == Err(Error.Protocol))
  }

  predicate DescribesFrom(got: Result<Frame>, r: Result<Schema>) {
    && (r.Ok? <==> got.Ok? && got.value.kind == MSG_SCHEMA_RESPONSE)
    && (got.Err? ==> r == Err(got.error))
    && (got.Ok? && got.value.kind != MSG_SCHEMA_RESPONSE ==> r == Err(Error.Protocol))
  }

  /** The reading loop of a streaming call, from its `k`-th read on and for at most `n` reads. */
  function ReadingStream(service: Service, s: Conn, buffer: Bytes, w: Weather, k: nat, n: nat, messages: seq<StreamMessage>): (r: Result<seq<StreamMessage>>)
    ensures r != Err(Panic)
    decreases n
  {
    if n == 0 then Err(Timeout)
    else
      var got := Awaiting(service, s, buffer, w.waits(k));
      match got.result
      case Err(error) => Err(error)
      case Ok(f) =>
        match Absorb(service.codec, messages, f)
        case Ended(outcome) => outcome
        case Reading(more) => ReadingStream(service, got.conn, got.buffer, w, k + 1, n - 1, more)
  }

  /** A streaming call on the connection `s` for the request `q`, its mode put in. No more reads than
      replies can succeed. */
  function StreamResult(service: Service, s: Conn, q: Request, w: Weather): (r: Result<seq<StreamMessage>>)
    ensures r != Err(Panic)
  {
    var f := StreamFrame(service, q);
    var sent := WritingFrame(service, s, f, w.writes);
    if sent.result.Err? then Err(sent.result.error)
    else ReadingStream(service, sent.conn, [], w, 0, |Answer(service, s.id, |s.served|, f).replies| + 1, [])
  }

  /** The loop starts with nothing read and nothing collected. */
  lemma StreamBegun(service: Service, slot: Slot, q: Request, s: Conn, w: Weather)
    requires Quiet(s) && slot == Slot(s.id, |s.served|)
    ensures var f := StreamFrame(service, q);
            var a, sent := Answer(service, slot.connection, slot.index, f), WritingFrame(service, s, f, w.writes);
            && sent.conn.id == s.id
            && Collect(service.codec, [], a.replies[..0]) == Progress.Reading([])
            && (sent.result.Err? ==> StreamResult(service, s, q, w) == Err(sent.result.error))
            && (sent.result.Ok? ==>
                  && Underway(service, sent.conn, s.served, f, [], 0, [])
                  && StreamResult(service, s, q, w) == ReadingStream(service, sent.conn, [], w, 0, |a.replies| + 1, []))
  {
    var f := StreamFrame(service, q);
    if Writable(f) {
      StartAsking(service, s, f);
      WritingUnderway(service, s, s.served, f, Encode(f), w.writes);
    }
    hide Underway, Answer, Writing;
  }

  /** The loop ends with everything read. */
  lemma StreamDone(service: Service, slot: Slot, q: Request, mode: StreamMode, s: Conn, log: seq<Exchange>, k: nat, buffer: Bytes)
    requires Lawful(service.codec) && slot.index > 0 && slot == Slot(s.id, |log|) && Moded(q, mode).Some?
    requires var f := StreamFrame(service, Moded(q, mode).value);
             var a := Answer(service, slot.connection, slot.index, f);
             && Answering(service, s, log, f, k, buffer) && k == |a.replies| && a.next.Continue? && service.config.streaming
             && a.replies != [] && a.replies[0].kind == MSG_STREAM_START
             && Collect(service.codec, [], a.replies) == Ended(Ok([]))
    ensures buffer == [] && Quiet(s) && |s.served| == |log| + 1
    ensures Streamed(service, slot, q, mode, [])
  {
    AllRead(service, s, log, StreamFrame(service, Moded(q, mode).value), k, buffer);
    ModeAnnounced(service, slot, q, mode);
    hide Collect, Answer;
  }

  lemma ReadingStreamStep(service: Service, s: Conn, buffer: Bytes, w: Weather, k: nat, next: nat, n: nat, fewer: nat)
    requires next == k + 1 && n == fewer + 1
    ensures var got, all := Awaiting(service, s, buffer, w.waits(k)), ReadingStream(service, s, buffer, w, k, n, []);
            && (got.result.Err? ==> all == Err(got.result.error))
            && (got.result.Ok? ==>
                  var p := Absorb(service.codec, [], got.result.value);
                  && (p.Ended? ==> all == p.outcome)
                  && (p.Reading? ==> all == ReadingStream(service, got.conn, got.buffer, w, next, fewer, p.messages)))
  {
    hide Awaiting, Absorb;
  }

  /** One read of the loop, the `k`-th of at most `n` more: it ends the call, or leaves it to the rest. */
  lemma StreamRead(service: Service, slot: Slot, q: Request, w: Weather, s: Conn, log: seq<Exchange>, k: nat, next: nat, n: nat, fewer: nat, buffer: Bytes)
    requires slot.index > 0 && slot == Slot(s.id, |log|) && next == k + 1 && n == fewer + 1
    requires Underway(service, s, log, StreamFrame(service, q), [], k, buffer)
    requires var replies := Answer(service, slot.connection, slot.index, StreamFrame(service, q)).replies;
             k <= |replies| && Collect(service.codec, [], replies[..k]) == Progress.Reading([])
    ensures var got := Awaiting(service, s, buffer, w.waits(k));
            var f, all := StreamFrame(service, q), ReadingStream(service, s, buffer, w, k, n, []);
            var a := Answer(service, slot.connection, slot.index, f);
            && got.conn.id == s.id
            && (got.result.Err? ==> all == Err(got.result.error))
            && (got.result.Ok? ==>
                  var p := Absorb(service.codec, [], got.result.value);
                  && k < |a.replies|
                  && Answering(service, got.conn, log, f, next, got.buffer)
                  && Collect(service.codec, [], a.replies[..next]) == p
                  && (p.Ended? ==> all == p.outcome)
                  && (p.Reading? ==>
                        && p == Progress.Reading([]) && Underway(service, got.conn, log, f, [], next, got.buffer)
                        && all == ReadingStream(service, got.conn, got.buffer, w, next, fewer, []))
                  && (p.Ended? && p.outcome.Ok? ==>
                        && p.outcome.value == [] && next == |a.replies| && a.next.Continue? && service.config.streaming
                        && a.replies[0].kind == MSG_STREAM_START && Collect(service.codec, [], a.replies) == p))
  {
    var f, got := StreamFrame(service, q), Awaiting(service, s, buffer, w.waits(k));
    ReadingUnderway(service, s, log, f, k, buffer, w.waits(k));
    if got.result.Ok? {
      StreamTurn(service, slot, q, k);
      AnsweringUnderway(service, got.conn, log, f, next, got.buffer);
    }
    ReadingStreamStep(service, s, buffer, w, k, next, n, fewer);
    hide Underway, Answering, Answer, Absorb, Collect, Awaiting, ReadingStream;
  }

  /** A streaming call on the connection `s`; it unwinds if the payload cannot take the mode. */
  function ModedResult(service: Service, s: Conn, q: Request, mode: StreamMode, w: Weather): (r: Result<seq<StreamMessage>>)
    ensures r == Err(Panic) <==> Moded(q, mode).None?
  {
    match Moded(q, mode)
    case None => Err(Panic)
    case Some(sent) => StreamResult(service, s, sent, w)
  }

  // ---------- when an operation can succeed ----------

  /** Connecting can succeed exactly if the server, when it takes the connection, greets this client: the
      handshake fits, can be decoded and is admitted, and the acknowledgement can be written and says so. */
  lemma ConnectCanSucceedIff(service: Service, id: nat)
    ensures (exists dial :: Connected(service, id, dial).Ok?) <==>
            var hello := HelloFrame(service);
            var client := service.codec.decodeHello(hello.payload);
            && Writable(hello) && InLimit(service, hello) && client.Some? && service.admits(id)
            && Writable(Acknowledgement(service, id, client.value))
            && Session(service.codec, Acknowledgement(service, id, client.value)).Ok?
  {
    var hello, s := HelloFrame(service), Opened(id, true);
    HandshakeGetsOneReply(service, id, hello);
    if dial :| Connected(service, id, dial).Ok? {
      RoundTripUnderway(service, Opened(id, dial.accepted), hello, dial.weather);
    }
    if Writable(hello) && Answer(service, id, 0, hello).replies != [] {
      FairWeatherSucceeds(service, s, hello);
      var dial := Reached(true, FairWeather(service, s, hello));
      assert Handshake(service, id, dial).result == Ok(Answer(service, id, 0, hello).replies[0]);
      assert Connected(service, id, dial) == Session(service.codec, Answer(service, id, 0, hello).replies[0]);
    }
  }

  ghost predicate CanAnswer(service: Service, s: Conn, f: Frame, kind: Byte) {
    exists w :: var got := Exchanges.RoundTrip(service, s, f, w).result; got.Ok? && got.value.kind == kind
  }

  lemma CanAnswerIff(service: Service, s: Conn, f: Frame, kind: Byte)
    requires Ready(s)
    ensures CanAnswer(service, s, f, kind) <==>
            && Writable(f) && !s.peer.Gone?
            && var replies := Answer(service, s.id, |s.served|, f).replies;
               replies != [] && replies[0].kind == kind
  {
    CanSucceedIff(service, s, f);
    if Writable(f) && !s.peer.Gone? && Answer(service, s.id, |s.served|, f).replies != [] {
      FairWeatherSucceeds(service, s, f);
    }
    hide Exchanges.RoundTrip, Answer, Ready;
  }

  /** A call on a kept stream can succeed exactly if the server is still there, the request is valid, fits
      the frame and the server's limit, and the handler's answer fits a frame. */
  lemma CallCanSucceedIff(service: Service, s: Conn, q: Request)
    requires Lawful(service.codec) && Quiet(s)
    ensures CanAnswer(service, s, RequestFrame(service, q), MSG_RESPONSE) <==>
            && !s.peer.Gone? && ValidRequest(q)
            && Writable(RequestFrame(service, q)) && InLimit(service, RequestFrame(service, q))
            && Writable(Frame(MSG_RESPONSE, service.codec.encodeResponse(service.handler.handle(Slot(s.id, |s.served|), q))))
  {
    var f, slot := RequestFrame(service, q), Slot(s.id, |s.served|);
    CanAnswerIff(service, s, f, MSG_RESPONSE);
    RequestGetsOneReply(service, slot, f);
    SendOne(RequestReply(service, slot, f));
    hide CanAnswer;
  }

  /** A schema request can succeed exactly if the server is still there, lets itself be looked into, and the
      schema fits a frame. */
  lemma SchemaCanSucceedIff(service: Service, s: Conn)
    requires Quiet(s)
    ensures CanAnswer(service, s, SCHEMA_FRAME, MSG_SCHEMA_RESPONSE) <==>
            !s.peer.Gone? && service.config.introspection && Writable(SchemaFrame(service))
  {
    var slot := Slot(s.id, |s.served|);
    CanAnswerIff(service, s, SCHEMA_FRAME, MSG_SCHEMA_RESPONSE);
    SchemaServed(service, slot, SCHEMA_FRAME);
    SendOne(SchemaFrame(service));
    hide CanAnswer;
  }

  /** What a stream must have been told if its reading loop ends well. */
  lemma {:induction false} ReadingStreamWell(service: Service, slot: Slot, q: Request, w: Weather, s: Conn, log: seq<Exchange>, k: nat, n: nat, buffer: Bytes)
    requires slot.index > 0 && slot == Slot(s.id, |log|)
    requires Underway(service, s, log, StreamFrame(service, q), [], k, buffer)
    requires var replies := Answer(service, slot.connection, slot.index, StreamFrame(service, q)).replies;
             k <= |replies| && Collect(service.codec, [], replies[..k]) == Progress.Reading([])
    requires ReadingStream(service, s, buffer, w, k, n, []).Ok?
    ensures var replies := Answer(service, slot.connection, slot.index, StreamFrame(service, q)).replies;
            replies != [] && replies[0].kind == MSG_STREAM_START && Collect(service.codec, [], replies) == Ended(Ok([]))
    decreases n
  {
    var got := Awaiting(service, s, buffer, w.waits(k));
    var next, left := k + 1, n - 1;
    StreamRead(service, slot, q, w, s, log, k, next, n, left, buffer);
    hide Underway, Answering, Answer, Collect, Awaiting, ReadingStream, Absorb, StreamFrame;
    assert got.result.Ok?;
    if Absorb(service.codec, [], got.result.value).Reading? {
      ReadingStreamWell(service, slot, q, w, got.conn, log, next, left, got.buffer);
    }
  }

  /** The end frame says that the stream went well. */
  predicate SaysWell(c: Codec, end: Frame) {
    c.decodeStreamEnd(end.payload).Some? && !(ERROR_PREFIX <= c.decodeStreamEnd(end.payload).value)
  }

  predicate StreamFits(service: Service, s: Conn, q: Request) {
    var f, slot := StreamFrame(service, q), Slot(s.id, |s.served|);
    && !s.peer.Gone? && service.config.streaming
    && Writable(f) && InLimit(service, f)
    && Writable(StreamStart(service, q)) && Writable(StreamEnd(service, slot, q))
    && SaysWell(service.codec, StreamEnd(service, slot, q))
  }

  lemma StreamNeeds(service: Service, s: Conn, q: Request, w: Weather)
    requires Lawful(service.codec) && Quiet(s) && StreamResult(service, s, q, w).Ok?
    ensures StreamFits(service, s, q)
  {
    var f, slot := StreamFrame(service, q), Slot(s.id, |s.served|);
    var replies := Answer(service, s.id, |s.served|, f).replies;
    StartAsking(service, s, f);
    WritingUnderway(service, s, s.served, f, Encode(f), w.writes);
    var sent := WritingFrame(service, s, f, w.writes);
    assert replies[..0] == [];
    assert Exchanges.RoundTrip(service, s, f, w).result.Ok? by {
      hide Underway, Answer;
      assert ReadingStream(service, sent.conn, [], w, 0, |replies| + 1, []).Ok?;
    }
    if s.peer.Gone? {
      GoneNeverAnswers(service, s, f, w);
    }
    ReadingStreamWell(service, slot, q, w, sent.conn, s.served, 0, |replies| + 1, []);
    hide ReadingStream, StreamResult, WritingFrame, Exchanges.RoundTrip, Underway;
    WellMeansBoth(service, slot, q);
  }

  lemma WellMeansBoth(service: Service, slot: Slot, q: Request)
    requires Lawful(service.codec) && slot.index > 0
    requires var replies := Serve(service, slot, StreamFrame(service, q)).replies;
             replies != [] && replies[0].kind == MSG_STREAM_START && Collect(service.codec, [], replies) == Ended(Ok([]))
    ensures service.config.streaming && InLimit(service, StreamFrame(service, q))
    ensures Writable(StreamStart(service, q)) && Writable(StreamEnd(service, slot, q))
    ensures SaysWell(service.codec, StreamEnd(service, slot, q))
  {
    var f := StreamFrame(service, q);
    var r := Serve(service, slot, f);
    StreamGetsStartAndEnd(service, slot, f);
    if !InLimit(service, f) {
      OversizeGetsError(service, slot, f);
    }
    CollectedIffEndsWell(service.codec, r.replies, []);
    var n: nat :| EndsAt(service.codec, r.replies, n);
    assert n == 1;
    EndsIff(service, slot, f);
    StreamServed(service, slot, f);
  }

  lemma StreamInFairWeather(service: Service, s: Conn, q: Request)
    requires Lawful(service.codec) && Quiet(s) && StreamFits(service, s, q)
    ensures StreamResult(service, s, q, FairWeather(service, s, StreamFrame(service, q))) == Ok([])
  {
    var f, slot := StreamFrame(service, q), Slot(s.id, |s.served|);
    var w, start, end := FairWeather(service, s, f), StreamStart(service, q), StreamEnd(service, slot, q);
    StreamServed(service, slot, f);
    var replies := [start, end];
    assert Answer(service, s.id, |s.served|, f).replies == replies;
    FairWeatherSucceeds(service, s, f);
    var sent := WritingFrame(service, s, f, w.writes);
    var got := Awaiting(service, sent.conn, [], w.waits(0));
    assert replies[1..] == [end] && [end][1..] == [];
    assert EncodeAll([end]) == Encode(end) + [];
    DecodeEncode(end, []);
    assert got.result == Ok(start) && got.buffer == Encode(end) + [];
    hide FairWeather, WritingFrame, Encode, EncodeAll, Decode, Serve, Answer;
    var again := Awaiting(service, got.conn, got.buffer, w.waits(1));
    assert again.result == Ok(end);
    assert ReadingStream(service, got.conn, got.buffer, w, 1, 2, []) == Ok([]);
    assert ReadingStream(service, sent.conn, [], w, 0, 3, []) == Ok([]);
  }

  /** A streaming call on a kept stream can succeed exactly if the server is still there and streams, the
      request fits, and both frames of the answer fit, the last of them one that the client can decode and
      that does not speak of an error. */
  lemma StreamCanSucceedIff(service: Service, s: Conn, q: Request)
    requires Lawful(service.codec) && Quiet(s)
    ensures (exists w :: StreamResult(service, s, q, w).Ok?) <==> StreamFits(service, s, q)
  {
    if w :| StreamResult(service, s, q, w).Ok? {
      StreamNeeds(service, s, q, w);
    }
    if StreamFits(service, s, q) {
      StreamInFairWeather(service, s, q);
    }
  }
}
