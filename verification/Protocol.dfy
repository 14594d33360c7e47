/** What the server answers to each frame: the rules of its connection loop as functions, over an
    arbitrary codec, handler and configuration. */
module Protocol {
  import opened Wrappers
  import opened Wire

  /** UTF-8 text, measured in bytes as the source does. */
  type Text = Bytes

  /** JSON values as far as the modelled code looks into them. */
  datatype Json = Null | String(text: Text) | Object(fields: map<Text, Json>) | Other(text: Text)

  datatype StreamMode = Messages | Values | Updates | Final

  /** "messages", "values", "updates" and "result". */
  function ModeText(mode: StreamMode): Text {
    match mode
    case Messages => [0x6D, 0x65, 0x73, 0x73, 0x61, 0x67, 0x65, 0x73]
    case Values => [0x76, 0x61, 0x6C, 0x75, 0x65, 0x73]
    case Updates => [0x75, 0x70, 0x64, 0x61, 0x74, 0x65, 0x73]
    case Final => [0x72, 0x65, 0x73, 0x75, 0x6C, 0x74]
  }

  /** "stream_mode" */
  const STREAM_MODE: Text := [0x73, 0x74, 0x72, 0x65, 0x61, 0x6D, 0x5F, 0x6D, 0x6F, 0x64, 0x65]

  /** Assigning the mode into a payload by its key: a null becomes an object, and what is neither null nor
      an object panics. */
  function WithMode(payload: Json, mode: StreamMode): Option<Json> {
    match payload
    case Null => Some(Object(map[STREAM_MODE := String(ModeText(mode))]))
    case Object(fields) => Some(Object(fields[STREAM_MODE := String(ModeText(mode))]))
    case _ => None
  }

  /** The mode a payload asks for; the final result if it asks for none that exists. */
  function ModeOf(payload: Json): StreamMode {
    if payload.Object? && STREAM_MODE in payload.fields && payload.fields[STREAM_MODE].String? then
      var text := payload.fields[STREAM_MODE].text;
      if text == ModeText(Messages) then Messages
      else if text == ModeText(Values) then Values
      else if text == ModeText(Updates) then Updates
      else Final
    else Final
  }

  /** The server reads back the mode the client put in, and every other field is left as it was. */
  lemma ModeRoundTrip(payload: Json, mode: StreamMode)
    ensures WithMode(payload, mode).Some? <==> payload.Null? || payload.Object?
    ensures WithMode(payload, mode).Some? ==> ModeOf(WithMode(payload, mode).value) == mode
    ensures payload.Object? ==>
              WithMode(payload, mode).value.fields - {STREAM_MODE} == payload.fields - {STREAM_MODE}
  {
    forall m, m' | ModeText(m) == ModeText(m') ensures m == m' {
      assert ModeText(m)[0] == ModeText(m')[0];
    }
  }

  datatype Request = Request(
    requestId: Text,
    correlationId: Text,
    serviceName: Text,
    methodName: Text,
    payload: Json,
    topic: Option<Text>)

  datatype Response = Response(
    requestId: Text,
    correlationId: Text,
    status: Text,
    payload: Json,
    error: Option<Text>)

  datatype Greeting = Greeting(sessionId: Text, success: bool)

  datatype StreamMessage = StreamMessage(requestId: Text, index: nat, content: Json)

  datatype Schema = Schema(text: Text)

  /** The place of an exchange: which connection, and how many frames that connection's server had
      taken up before. A handler may answer the same request differently in different slots. */
  datatype Slot = Slot(connection: nat, index: nat)

  datatype Fault = RateLimited | TooLarge(size: nat) | Undecodable | Malformed

  datatype Config = Config(maxRequestSize: nat, streaming: bool, introspection: bool)

  datatype Codec = Codec(
    encodeRequest: Request -> Bytes,
    decodeRequest: Bytes -> Option<Request>,
    encodeResponse: Response -> Bytes,
    decodeResponse: Bytes -> Option<Response>,
    encodeGreeting: Greeting -> Bytes,
    decodeGreeting: Bytes -> Option<Greeting>,
    encodeFault: Fault -> Bytes,
    decodeFault: Bytes -> Option<Text>,
    hello: Bytes,
    decodeHello: Bytes -> Option<Text>,
    streamStart: (Request, StreamMode) -> Bytes,
    streamEnd: Response -> Bytes,
    decodeStreamEnd: Bytes -> Option<Text>,
    decodeChunk: Bytes -> Option<StreamMessage>,
    encodeSchema: Schema -> Bytes,
    decodeSchema: Bytes -> Option<Schema>)

  /** Decoders invert their encoders. Nothing is assumed of the stream-end pair, which in the source
      do not agree on their fields. */
  ghost predicate Lawful(c: Codec) {
    && (forall q :: c.decodeRequest(c.encodeRequest(q)) == Some(q))
    && (forall r :: c.decodeResponse(c.encodeResponse(r)) == Some(r))
    && (forall s :: c.decodeSchema(c.encodeSchema(s)) == Some(s))
  }

  datatype Handler = Handler(
    greet: (nat, Text) -> Greeting,
    handle: (Slot, Request) -> Response,
    schema: Schema)

  /** `admits` is the rate limiter's answer to each connection's handshake. */
  datatype Service = Service(config: Config, codec: Codec, handler: Handler, admits: nat -> bool)

  /** Whether the server goes on to its next read or ends the connection. */
  datatype Next = Continue | Stop

  datatype Verdict = Verdict(replies: seq<Frame>, next: Next)

  predicate ValidRequest(q: Request) {
    && 0 < |q.serviceName| <= 256
    && 0 < |q.methodName| <= 256
    && 0 < |q.requestId| <= 128
  }

  /** Writes frames in order; the first one that is too large to write ends the connection. */
  function Send(fs: seq<Frame>): (v: Verdict)
    ensures AllWritable(v.replies) && v.replies <= fs
    ensures v.next.Continue? ==> v.replies == fs
  {
    if fs == [] then Verdict([], Continue)
    else if !Writable(fs[0]) then Verdict([], Stop)
    else
      var rest := Send(fs[1..]);
      Verdict([fs[0]] + rest.replies, rest.next)
  }

  function ErrorFrame(v: Service, fault: Fault): Frame {
    Frame(MSG_ERROR, v.codec.encodeFault(fault))
  }

  /** The answer to the first frame of a connection. */
  function Greet(v: Service, connection: nat, f: Frame): (r: Verdict)
    ensures AllWritable(r.replies)
  {
    if f.kind != MSG_HANDSHAKE then Verdict([], Stop)
    else if |f.payload| > v.config.maxRequestSize then Verdict([], Stop)
    else
      match v.codec.decodeHello(f.payload)
      case None => Verdict([], Stop)
      case Some(client) =>
        if !v.admits(connection) then Verdict(Send([ErrorFrame(v, RateLimited)]).replies, Stop)
        else Send([Frame(MSG_HANDSHAKE_ACK, v.codec.encodeGreeting(v.handler.greet(connection, client)))])
  }

  /** The frames the server sets out to write in answer to a frame after the handshake, or `None` if
      it ends the connection instead. */
  function Replies(v: Service, slot: Slot, f: Frame): Option<seq<Frame>> {
    if |f.payload| > v.config.maxRequestSize then Some([ErrorFrame(v, TooLarge(|f.payload|))])
    else if f.kind == MSG_REQUEST then
      (match v.codec.decodeRequest(f.payload)
       case None => Some([ErrorFrame(v, Undecodable)])
       case Some(q) =>
         if !ValidRequest(q) then Some([ErrorFrame(v, Malformed)])
         else Some([Frame(MSG_RESPONSE, v.codec.encodeResponse(v.handler.handle(slot, q)))]))
    else if f.kind == MSG_STREAM_REQUEST then
      if !v.config.streaming then Some([])
      else
        (match v.codec.decodeRequest(f.payload)
         case None => None
         case Some(q) =>
           Some([Frame(MSG_STREAM_START, v.codec.streamStart(q, ModeOf(q.payload))),
                 Frame(MSG_STREAM_END, v.codec.streamEnd(v.handler.handle(slot, q)))]))
    else if f.kind == MSG_PING then Some([Frame(MSG_PONG, [])])
    else if f.kind == MSG_SCHEMA_REQUEST then
      Some(if v.config.introspection then [Frame(MSG_SCHEMA_RESPONSE, v.codec.encodeSchema(v.handler.schema))] else [])
    else if f.kind == MSG_CLOSE then None
    else Some([])
  }

  function Serve(v: Service, slot: Slot, f: Frame): (r: Verdict)
    ensures AllWritable(r.replies)
  {
    match Replies(v, slot, f)
    case None => Verdict([], Stop)
    case Some(fs) => Send(fs)
  }

  /** The answer to frame number `index` of a connection. */
  function Answer(v: Service, connection: nat, index: nat, f: Frame): (r: Verdict)
    ensures AllWritable(r.replies)
  {
    if index == 0 then Greet(v, connection, f) else Serve(v, Slot(connection, index), f)
  }

  lemma SendOne(f: Frame)
    ensures Send([f]) == if Writable(f) then Verdict([f], Continue) else Verdict([], Stop)
  {
    assert [f][1..] == [];
  }

  lemma SendTwo(f: Frame, g: Frame)
    ensures Send([f, g]).replies == if !Writable(f) then [] else if !Writable(g) then [f] else [f, g]
    ensures Send([f, g]).next.Continue? <==> Writable(f) && Writable(g)
  {
    assert [f, g][1..] == [g];
    SendOne(g);
  }

  /** Every request frame gets exactly one frame back, a response or an error, unless that one frame
      is too large to write; it is a response exactly when the request is within the size limit,
      decodes and is well formed, and then it carries the handler's answer. */
  lemma RequestGetsOneReply(v: Service, slot: Slot, f: Frame)
    requires f.kind == MSG_REQUEST
    ensures var r := Serve(v, slot, f);
            && (r.next.Continue? <==> |r.replies| == 1)
            && (r.next.Stop? <==> r.replies == [])
            && (r.replies != [] ==> r.replies[0].kind == MSG_RESPONSE || r.replies[0].kind == MSG_ERROR)
            && (r.replies != [] ==>
                  (r.replies[0].kind == MSG_RESPONSE <==>
                   && |f.payload| <= v.config.maxRequestSize
                   && v.codec.decodeRequest(f.payload).Some?
                   && ValidRequest(v.codec.decodeRequest(f.payload).value)))
            && (r.replies != [] && r.replies[0].kind == MSG_RESPONSE ==>
                  r.replies[0].payload ==
                  v.codec.encodeResponse(v.handler.handle(slot, v.codec.decodeRequest(f.payload).value)))
            && (r.replies != [] && r.replies[0].kind == MSG_ERROR ==>
                  r.replies[0].payload == v.codec.encodeFault(FaultOf(v, f)))
  {
    SendOne(Replies(v, slot, f).value[0]);
  }

  /** A stream request gets a start and an end, or just an error, or a cut-off start, or nothing; and
      never a chunk. */
  lemma StreamGetsStartAndEnd(v: Service, slot: Slot, f: Frame)
    requires f.kind == MSG_STREAM_REQUEST
    ensures var r := Serve(v, slot, f);
            && |r.replies| <= 2
            && (|r.replies| >= 1 ==> r.replies[0].kind == MSG_STREAM_START || r.replies[0].kind == MSG_ERROR)
            && (|r.replies| == 2 ==> r.replies[1].kind == MSG_STREAM_END && r.next.Continue?)
            && (|r.replies| == 2 ==> v.config.streaming)
            && (|r.replies| >= 1 && r.replies[0].kind == MSG_STREAM_START ==>
                  var q := v.codec.decodeRequest(f.payload);
                  q.Some? && r.replies[0].payload == v.codec.streamStart(q.value, ModeOf(q.value.payload)))
  {
    match Replies(v, slot, f)
    case None =>
    case Some(fs) =>
      if |fs| == 1 {
        assert fs == [fs[0]];
        SendOne(fs[0]);
      } else if |fs| == 2 {
        assert fs == [fs[0], fs[1]];
        SendTwo(fs[0], fs[1]);
      }
  }

  /** A schema request is answered with the schema, an error if that is too large a frame, or nothing. */
  lemma SchemaGetsOneReply(v: Service, slot: Slot, f: Frame)
    requires f.kind == MSG_SCHEMA_REQUEST
    ensures var r := Serve(v, slot, f);
            && |r.replies| <= 1
            && (|r.replies| == 1 ==> r.next.Continue?)
            && (|r.replies| == 1 && r.replies[0].kind == MSG_SCHEMA_RESPONSE ==>
                  v.config.introspection && r.replies[0].payload == v.codec.encodeSchema(v.handler.schema))
  {
    var fs := Replies(v, slot, f).value;
    if fs != [] {
      assert fs == [fs[0]];
      SendOne(fs[0]);
    }
  }

  /** A client is acknowledged, and the connection goes on, exactly if its handshake is in limit and can be
      decoded, the limiter admits it and the acknowledgement can be written; it then carries the handler's
      greeting. A client the limiter does not admit gets that error and the connection ends; any other
      first frame ends it without a word. */
  lemma HandshakeGetsOneReply(v: Service, connection: nat, f: Frame)
    ensures var r := Greet(v, connection, f);
            var hello := if f.kind == MSG_HANDSHAKE && |f.payload| <= v.config.maxRequestSize then v.codec.decodeHello(f.payload) else None;
            && |r.replies| <= 1
            && (r.next.Continue? <==>
                  hello.Some? && v.admits(connection) && Writable(Acknowledgement(v, connection, hello.value)))
            && (r.next.Continue? ==> r.replies == [Acknowledgement(v, connection, hello.value)])
            && (|r.replies| == 1 && r.replies[0].kind == MSG_HANDSHAKE_ACK ==> r.next.Continue?)
            && (hello.Some? && !v.admits(connection) && Writable(ErrorFrame(v, RateLimited)) ==>
                  r == Verdict([ErrorFrame(v, RateLimited)], Stop))
            && (hello.None? ==> r == Verdict([], Stop))
  {
    match v.codec.decodeHello(f.payload)
    case None =>
    case Some(client) =>
      SendOne(ErrorFrame(v, RateLimited));
      SendOne(Acknowledgement(v, connection, client));
  }

  function Acknowledgement(v: Service, connection: nat, client: Text): Frame {
    Frame(MSG_HANDSHAKE_ACK, v.codec.encodeGreeting(v.handler.greet(connection, client)))
  }

  // ---------- kind by kind ----------

  /** What is wrong with a request that is answered with an error. */
  function FaultOf(v: Service, f: Frame): Fault {
    if |f.payload| > v.config.maxRequestSize then TooLarge(|f.payload|)
    else if v.codec.decodeRequest(f.payload).None? then Undecodable
    else Malformed
  }

  predicate InLimit(v: Service, f: Frame) {
    |f.payload| <= v.config.maxRequestSize
  }

  /** A frame over the limit gets that error whatever its kind, even a close, and the connection goes on. */
  lemma OversizeGetsError(v: Service, slot: Slot, f: Frame)
    requires !InLimit(v, f)
    ensures var error := ErrorFrame(v, TooLarge(|f.payload|));
            Serve(v, slot, f) == if Writable(error) then Verdict([error], Continue) else Verdict([], Stop)
  {
    SendOne(ErrorFrame(v, TooLarge(|f.payload|)));
  }

  lemma PingGetsPong(v: Service, slot: Slot, f: Frame)
    requires InLimit(v, f) && f.kind == MSG_PING
    ensures Serve(v, slot, f) == Verdict([Frame(MSG_PONG, [])], Continue)
  {
    SendOne(Frame(MSG_PONG, []));
  }

  lemma CloseEnds(v: Service, slot: Slot, f: Frame)
    requires InLimit(v, f) && f.kind == MSG_CLOSE
    ensures Serve(v, slot, f) == Verdict([], Stop)
  {
  }

  /** Kinds the server has no use for, a second handshake among them, are passed over in silence. */
  lemma OthersPassedOver(v: Service, slot: Slot, f: Frame)
    requires InLimit(v, f)
    requires f.kind != MSG_REQUEST && f.kind != MSG_STREAM_REQUEST && f.kind != MSG_PING
             && f.kind != MSG_SCHEMA_REQUEST && f.kind != MSG_CLOSE
    ensures Serve(v, slot, f) == Verdict([], Continue)
  {
  }

  /** The two frames a stream request is answered with. */
  function StreamStart(v: Service, q: Request): Frame {
    Frame(MSG_STREAM_START, v.codec.streamStart(q, ModeOf(q.payload)))
  }

  function StreamEnd(v: Service, slot: Slot, q: Request): Frame {
    Frame(MSG_STREAM_END, v.codec.streamEnd(v.handler.handle(slot, q)))
  }

  /** With streaming on a stream request that can be decoded gets both its frames, as far as they can be
      written, and one that cannot be decoded ends the connection; with streaming off it is ignored. */
  lemma StreamServed(v: Service, slot: Slot, f: Frame)
    requires InLimit(v, f) && f.kind == MSG_STREAM_REQUEST
    ensures var r, q := Serve(v, slot, f), v.codec.decodeRequest(f.payload);
            && (!v.config.streaming ==> r == Verdict([], Continue))
            && (v.config.streaming && q.None? ==> r == Verdict([], Stop))
            && (v.config.streaming && q.Some? && Writable(StreamStart(v, q.value)) && Writable(StreamEnd(v, slot, q.value)) ==>
                  r == Verdict([StreamStart(v, q.value), StreamEnd(v, slot, q.value)], Continue))
  {
    var q := v.codec.decodeRequest(f.payload);
    if v.config.streaming && q.Some? {
      SendTwo(StreamStart(v, q.value), StreamEnd(v, slot, q.value));
    }
  }

  function SchemaFrame(v: Service): Frame {
    Frame(MSG_SCHEMA_RESPONSE, v.codec.encodeSchema(v.handler.schema))
  }

  /** With introspection on a schema request gets the schema; otherwise it is ignored. */
  lemma SchemaServed(v: Service, slot: Slot, f: Frame)
    requires InLimit(v, f) && f.kind == MSG_SCHEMA_REQUEST
    ensures !v.config.introspection ==> Serve(v, slot, f) == Verdict([], Continue)
    ensures v.config.introspection && Writable(SchemaFrame(v)) ==> Serve(v, slot, f) == Verdict([SchemaFrame(v)], Continue)
  {
    SendOne(SchemaFrame(v));
  }

  /** The one reply to a request. */
  function RequestReply(v: Service, slot: Slot, f: Frame): Frame {
    var q := v.codec.decodeRequest(f.payload);
    if InLimit(v, f) && q.Some? && ValidRequest(q.value) then
      Frame(MSG_RESPONSE, v.codec.encodeResponse(v.handler.handle(slot, q.value)))
    else ErrorFrame(v, FaultOf(v, f))
  }

  /** A reply to `f` is too large to write. */
  predicate ReplyTooLarge(v: Service, slot: Slot, f: Frame) {
    || (!InLimit(v, f) && !Writable(ErrorFrame(v, TooLarge(|f.payload|))))
    || (f.kind == MSG_REQUEST && !Writable(RequestReply(v, slot, f)))
    || (InLimit(v, f) && f.kind == MSG_SCHEMA_REQUEST && v.config.introspection && !Writable(SchemaFrame(v)))
    || (InLimit(v, f) && f.kind == MSG_STREAM_REQUEST && v.config.streaming
        && var q := v.codec.decodeRequest(f.payload);
           q.Some? && !(Writable(StreamStart(v, q.value)) && Writable(StreamEnd(v, slot, q.value))))
  }

  predicate EndsConnection(v: Service, slot: Slot, f: Frame) {
    || (InLimit(v, f) && f.kind == MSG_CLOSE)
    || (InLimit(v, f) && f.kind == MSG_STREAM_REQUEST && v.config.streaming && v.codec.decodeRequest(f.payload).None?)
    || ReplyTooLarge(v, slot, f)
  }

  /** The frames that end a connection are a close in limit, a stream request in limit that cannot be decoded
      while streaming is on, and those whose reply is too large to write; no others. */
  lemma EndsIff(v: Service, slot: Slot, f: Frame)
    ensures Serve(v, slot, f).next.Stop? <==> EndsConnection(v, slot, f)
  {
    if !InLimit(v, f) {
      OversizeGetsError(v, slot, f);
    } else if f.kind == MSG_REQUEST {
      SendOne(RequestReply(v, slot, f));
    } else if f.kind == MSG_STREAM_REQUEST {
      var q := v.codec.decodeRequest(f.payload);
      StreamServed(v, slot, f);
      if v.config.streaming && q.Some? {
        SendTwo(StreamStart(v, q.value), StreamEnd(v, slot, q.value));
      }
    } else if f.kind == MSG_SCHEMA_REQUEST {
      SchemaServed(v, slot, f);
      SendOne(SchemaFrame(v));
    } else if f.kind == MSG_PING {
      PingGetsPong(v, slot, f);
    } else if f.kind == MSG_CLOSE {
      CloseEnds(v, slot, f);
    } else {
      OthersPassedOver(v, slot, f);
    }
  }
}
