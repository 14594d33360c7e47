/** The client: it connects on first use, sends one frame, reads the reply through a reader made for
    that call alone, and discards its stream on any error. The server runs between any two of the
    client's own steps. What is not up to the client (whether it gets through, how the transport moves
    bytes, what the server does meanwhile) is given to each operation as a parameter. */
module Client {
  import opened Wrappers
  import opened Wire
  import opened Protocol
  import opened Connection
  import opened Exchanges
  import opened Streaming
  import opened Calls

  /** A socket together with the server task at its other end. */
  class Stream {
    var conn: Conn

    /** The server may turn a connection away before it is used. */
    constructor (id: nat, accepted: bool)
      ensures conn == Opened(id, accepted)
    {
      conn := Opened(id, accepted);
    }

    /** Writes and flushes a frame in pieces of any size; the transport may fail at any point. */
    method WriteMessage(service: Service, f: Frame, turns: seq<Turn>) returns (r: Result<()>)
      modifies this
      ensures Sent(r, conn) == WritingFrame(service, old(conn), f, turns)
    {
      if !Writable(f) {
        return Err(InvalidMessage);
      }
      var unsent, left := Encode(f), turns;
      while unsent != []
        invariant Writing(service, conn, unsent, left) == Writing(service, old(conn), Encode(f), turns)
        decreases |left|
      {
        if left == [] {
          return Err(ConnectionFailed);
        }
        var n := Clamp(left[0].bytes, |unsent|);
        conn := Play(service, Pushed(conn, unsent[..n]), left[0].moves);
        unsent, left := unsent[n..], left[1..];
      }
      r := Ok(());
    }

    /** Reads one frame, pulling bytes into `buffer` as they arrive, for as long as patience lasts. */
    method ReadMessage(service: Service, buffer: Bytes, turns: seq<Turn>) returns (r: Result<Frame>, dropped: Bytes)
      modifies this
      ensures Got(r, conn, dropped) == Awaiting(service, old(conn), buffer, turns)
    {
      dropped := buffer;
      var left := turns;
      while true
        invariant Awaiting(service, conn, dropped, left) == Awaiting(service, old(conn), buffer, turns)
        decreases |left|
      {
        var d := Decode(dropped);
        if d.Complete? {
          dropped := d.rest;
          return Ok(d.frame), dropped;
        } else if d.BadLength? {
          return Err(InvalidMessage), dropped;
        } else if left == [] {
          return Err(Timeout), dropped;
        } else if conn.toClient == [] && conn.peer.Gone? {
          return Err(ConnectionFailed), dropped;
        }
        var n := Pulls(conn, left[0]);
        dropped := dropped + conn.toClient[..n];
        conn := Play(service, Pulled(conn, n), left[0].moves);
        left := left[1..];
      }
    }

    /** One frame out, one frame back, through a reader whose buffer is dropped at the end. */
    method RoundTrip(service: Service, f: Frame, w: Weather) returns (r: Result<Frame>, dropped: Bytes)
      modifies this
      ensures Got(r, conn, dropped) == Exchanges.RoundTrip(service, old(conn), f, w)
    {
      dropped := [];
      var sent := WriteMessage(service, f, w.writes);
      if sent.Err? {
        return Err(sent.error), dropped;
      }
      r, dropped := ReadMessage(service, dropped, w.waits(0));
    }
  }

  class UdsClient {
    const service: Service
    var connected: bool
    var sessionId: Option<Text>
    var stream: Stream?
    /** Connections dialled so far; it numbers them. */
    var dialled: nat

    ghost function Repr(): set<object>
      reads this
    {
      if stream == null then {this} else {this, stream}
    }

    /** A kept stream has nothing in flight. */
    ghost predicate Valid()
      reads this, stream
    {
      && Lawful(service.codec)
      && (connected <==> stream != null)
      && (stream != null ==> sessionId.Some? && Quiet(stream.conn) && stream.conn.id < dialled)
    }

    /** The earliest slot a later exchange can fall in. */
    ghost function NextSlot(): Slot
      reads this, stream
    {
      if stream == null then Slot(dialled, 0) else Slot(stream.conn.id, |stream.conn.served|)
    }

    ghost function Starting(): Start
      reads this, stream
    {
      Start(if stream == null then None else Some(stream.conn), dialled)
    }

    constructor (service: Service)
      requires Lawful(service.codec)
      ensures Valid() && this.service == service && stream == null && dialled == 0
    {
      this.service := service;
      connected, sessionId, stream, dialled := false, None, null, 0;
    }

    /** Time passes and the server may run, or end an idle connection, while no call is in progress. */
    method Idle(moves: seq<Move>)
      requires Valid()
      modifies Repr()
      ensures Valid() && stream == old(stream) && NextSlot() == old(NextSlot())
      ensures sessionId == old(sessionId) && dialled == old(dialled)
      ensures stream != null ==> stream.conn == Play(service, old(stream.conn), moves)
    {
      if stream != null {
        QuietPlay(service, stream.conn, moves);
        stream.conn := Play(service, stream.conn, moves);
      }
    }

    /** Succeeds exactly if the server was reached and its reply opens a session. On success the client
        has a new, quiet stream and the dropped reader buffer was empty; on failure nothing it had has
        changed. */
    method Connect(dial: Dial) returns (r: Result<()>, dropped: Bytes)
      requires Valid()
      modifies this
      ensures Valid() && dialled == old(dialled) + if dial.Reached? then 1 else 0
      ensures var session := Connected(service, old(dialled), dial);
              if session.Err? then r == Err(session.error) && stream == old(stream) && sessionId == old(sessionId)
              else r.Ok? && fresh(stream) && dropped == []
                   && sessionId == Some(session.value) && stream.conn == Handshake(service, old(dialled), dial).conn
                   && NextSlot() == Slot(old(dialled), 1)
    {
      dropped := [];
      if dial.Refused? {
        return Err(ConnectionFailed), dropped;
      } else if dial.TooLate? {
        return Err(Timeout), dropped;
      }
      var s := new Stream(dialled, dial.accepted);
      ghost var id, unused := dialled, s.conn;
      dialled := dialled + 1;
      var hello := HelloFrame(service);
      var reply;
      reply, dropped := s.RoundTrip(service, hello, dial.weather);
      if reply.Err? {
        return Err(reply.error), dropped;
      }
      if reply.value.kind != MSG_HANDSHAKE_ACK {
        return Err(Protocol), dropped;
      }
      var greeting := service.codec.decodeGreeting(reply.value.payload);
      if greeting.None? {
        return Err(Encoding), dropped;
      }
      if !greeting.value.success {
        return Err(Protocol), dropped;
      }
      RoundTripUnderway(service, unused, hello, dial.weather);
      HandshakeGetsOneReply(service, id, hello);
      AllRead(service, s.conn, [], hello, 1, dropped);
      sessionId := Some(greeting.value.sessionId);
      connected := true;
      stream := s;
      r := Ok(());
    }

    method Discard()
      modifies this
      ensures !connected && stream == null && sessionId == old(sessionId) && dialled == old(dialled)
    {
      connected := false;
      stream := null;
    }

    /** Connects first if there is no stream. */
    method EnsureConnected(dial: Dial) returns (r: Result<()>)
      requires Valid()
      modifies this
      ensures Valid() && old(dialled) <= dialled
      ensures r.Ok? <==> WorksOn(service, old(Starting()), dial).Some?
      ensures r.Ok? ==> stream != null && stream.conn == WorksOn(service, old(Starting()), dial).value
      ensures old(stream) != null ==> r.Ok? && stream == old(stream) && dialled == old(dialled)
      ensures r.Ok? && old(stream) == null ==> fresh(stream) && stream.conn.id == old(dialled)
      ensures r.Err? ==> stream == old(stream) == null && r.error != Panic
      ensures r.Err? ==> Connected(service, old(dialled), dial) == Err(r.error)
    {
      r := Ok(());
      if stream == null {
        ghost var dropped;
        r, dropped := Connect(dial);
      }
    }

    /** Succeeds exactly if it has a connection to work on and reads a response from it. The response is the
        handler's answer to exactly this call's request, given in a slot of this call's own; and the
        stream is kept with nothing in flight, or discarded. */
    method Call(q: Request, dial: Dial, w: Weather) returns (r: Result<Response>, ghost slot: Slot, ghost dropped: Bytes)
      requires Valid()
      modifies Repr()
      ensures Valid() && old(dialled) <= dialled && fresh(Repr() - old(Repr()))
      ensures var on := WorksOn(service, old(Starting()), dial);
              if on.None? then r.Err? && Connected(service, old(dialled), dial) == Err(r.error)
              else AnswersFrom(Exchanges.RoundTrip(service, on.value, RequestFrame(service, q), w).result, r)
      ensures r.Ok? ==> dropped == [] && ValidRequest(q) && r.value == service.handler.handle(slot, q)
      ensures r.Ok? ==> !Before(slot, old(NextSlot())) && stream != null && NextSlot() == Slot(slot.connection, slot.index + 1)
      ensures r.Ok? ==> stream.conn.served[slot.index].request == RequestFrame(service, q)
      ensures r.Err? ==> stream == null && !Before(NextSlot(), old(NextSlot()))
    {
      hide AnswersFrom;
      slot, dropped := Slot(0, 0), [];
      var c := EnsureConnected(dial);
      if c.Err? {
        return Err(c.error), slot, dropped;
      }
      slot := NextSlot();
      r, dropped := DoCall(q, w);
      if r.Err? {
        Discard();
      }
    }

    method DoCall(q: Request, w: Weather) returns (r: Result<Response>, dropped: Bytes)
      requires Valid() && stream != null
      modifies stream
      ensures stream.conn.id == old(stream.conn.id)
      ensures AnswersFrom(Exchanges.RoundTrip(service, old(stream.conn), RequestFrame(service, q), w).result, r)
      ensures r.Ok? ==>
                && dropped == [] && Quiet(stream.conn)
                && |stream.conn.served| == |old(stream.conn.served)| + 1
                && stream.conn.served[|old(stream.conn.served)|].request == RequestFrame(service, q)
                && ValidRequest(q) && r.value == service.handler.handle(old(NextSlot()), q)
    {
      var f := RequestFrame(service, q);
      ghost var slot, before := NextSlot(), stream.conn;
      var reply;
      reply, dropped := stream.RoundTrip(service, f, w);
      RoundTripUnderway(service, before, f, w);
      if reply.Err? {
        return Err(reply.error), dropped;
      }
      if reply.value.kind != MSG_RESPONSE {
        return Err(Protocol), dropped;
      }
      ResponseIsAnswer(service, slot, q);
      AllRead(service, stream.conn, before.served, f, 1, dropped);
      var response := service.codec.decodeResponse(reply.value.payload);
      if response.None? {
        return Err(Encoding), dropped;
      }
      r := Ok(response.value);
    }

    /** A stream that ends well has been read to its very end. This server sends no chunks, so it
        then yields no messages. A payload that cannot take the mode unwinds the call before anything is
        written, and past the discard. */
    method CallStreaming(q: Request, mode: StreamMode, dial: Dial, w: Weather)
      returns (r: Result<seq<StreamMessage>>, ghost slot: Slot, ghost dropped: Bytes)
      requires Valid()
      modifies Repr()
      ensures Valid() && old(dialled) <= dialled && fresh(Repr() - old(Repr()))
      ensures !Before(NextSlot(), old(NextSlot()))
      ensures var on := WorksOn(service, old(Starting()), dial);
              if on.None? then r.Err? && Connected(service, old(dialled), dial) == Err(r.error)
              else r == ModedResult(service, on.value, q, mode, w)
      ensures r.Ok? ==> dropped == [] && r.value == [] && Streamed(service, slot, q, mode, r.value)
      ensures r.Ok? ==> !Before(slot, old(NextSlot())) && stream != null && NextSlot() == Slot(slot.connection, slot.index + 1)
      ensures r.Err? && r.error != Panic ==> stream == null
      ensures r == Err(Panic) ==> Moded(q, mode).None? && stream != null
    {
      hide ModedResult, Streamed;
      slot, dropped := Slot(0, 0), [];
      var c := EnsureConnected(dial);
      if c.Err? {
        return Err(c.error), slot, dropped;
      }
      slot := NextSlot();
      r, dropped := DoCallStreaming(q, mode, w);
      if r.Err? && r.error != Panic {
        Discard();
      }
    }

    method DoCallStreaming(q: Request, mode: StreamMode, w: Weather) returns (r: Result<seq<StreamMessage>>, dropped: Bytes)
      requires Valid() && stream != null
      modifies stream
      ensures stream.conn.id == old(stream.conn.id)
      ensures r == ModedResult(service, old(stream.conn), q, mode, w)
      ensures r.Ok? ==>
                && dropped == [] && Quiet(stream.conn)
                && |stream.conn.served| == |old(stream.conn.served)| + 1
                && r.value == [] && Streamed(service, old(NextSlot()), q, mode, r.value)
      ensures r == Err(Panic) ==> stream.conn == old(stream.conn)
    {
      dropped := [];
      var sent := Moded(q, mode);
      if sent.None? {
        return Err(Panic), dropped;
      }
      var f := StreamFrame(service, sent.value);
      ghost var slot, before := NextSlot(), stream.conn;
      ghost var log := before.served;
      ghost var a := Answer(service, slot.connection, slot.index, f);
      var written := stream.WriteMessage(service, f, w.writes);
      StreamBegun(service, slot, sent.value, before, w);
      if written.Err? {
        return Err(written.error), dropped;
      }
      hide Answer, Answering, Underway, WritingFrame, ReadingStream, StreamResult;
      ghost var k;
      r, dropped, k := ReadStream(sent.value, w, slot, before.served);
      if r.Ok? {
        StreamDone(service, slot, q, mode, stream.conn, before.served, k, dropped);
      }
    }

    /** The loop that reads a stream to its end. */
    method ReadStream(q: Request, w: Weather, ghost slot: Slot, ghost log: seq<Exchange>)
      returns (r: Result<seq<StreamMessage>>, dropped: Bytes, ghost k: nat)
      requires stream != null && slot.index > 0 && slot == Slot(stream.conn.id, |log|)
      requires Underway(service, stream.conn, log, StreamFrame(service, q), [], 0, [])
      modifies stream
      ensures var f := StreamFrame(service, q);
              var a := Answer(service, slot.connection, slot.index, f);
              && stream.conn.id == old(stream.conn.id)
              && r == ReadingStream(service, old(stream.conn), [], w, 0, |a.replies| + 1, [])
              && (r.Ok? ==>
                    && r.value == []
                    && Answering(service, stream.conn, log, f, k, dropped) && k == |a.replies|
                    && a.next.Continue? && service.config.streaming
                    && a.replies != [] && a.replies[0].kind == MSG_STREAM_START
                    && Collect(service.codec, [], a.replies) == Ended(Ok([])))
    {
      ghost var before := stream.conn;
      ghost var f := StreamFrame(service, q);
      ghost var a := Answer(service, slot.connection, slot.index, f);
      ghost var left := |a.replies| + 1;
      assert Collect(service.codec, [], a.replies[..0]) == Progress.Reading([]);
      hide Answer, Absorb, Collect, Answering, Underway, Awaiting, ReadingStream, StreamFrame;
      var messages, count := [], 0;
      dropped, k := [], 0;
      while true
        invariant stream.conn.id == slot.connection
        invariant Underway(service, stream.conn, log, f, [], k, dropped)
        invariant k == count <= |a.replies| && messages == [] && left == |a.replies| + 1 - k
        invariant Collect(service.codec, [], a.replies[..k]) == Progress.Reading(messages)
        invariant ReadingStream(service, stream.conn, dropped, w, k, left, messages) ==
                  ReadingStream(service, before, [], w, 0, |a.replies| + 1, [])
        decreases |a.replies| - k
      {
        ghost var at, held := stream.conn, dropped;
        var reply;
        reply, dropped := stream.ReadMessage(service, dropped, w.waits(count));
        ghost var next, fewer := k + 1, left - 1;
        StreamRead(service, slot, q, w, at, log, k, next, left, fewer, held);
        if reply.Err? {
          return Err(reply.error), dropped, k;
        }
        count, k, left := count + 1, next, fewer;
        match Absorb(service.codec, messages, reply.value)
        case Reading(more) => messages := more;
        case Ended(outcome) => return outcome, dropped, k;
      }
    }

    /** Succeeds exactly if it has a connection to work on and reads a schema from it. */
    method GetSchema(dial: Dial, w: Weather) returns (r: Result<Schema>, ghost slot: Slot, ghost dropped: Bytes)
      requires Valid()
      modifies Repr()
      ensures Valid() && old(dialled) <= dialled && fresh(Repr() - old(Repr()))
      ensures !Before(NextSlot(), old(NextSlot()))
      ensures var on := WorksOn(service, old(Starting()), dial);
              if on.None? then r.Err? && Connected(service, old(dialled), dial) == Err(r.error)
              else DescribesFrom(Exchanges.RoundTrip(service, on.value, SCHEMA_FRAME, w).result, r)
      ensures r.Ok? ==> dropped == [] && Described(service, r.value)
      ensures r.Ok? ==> !Before(slot, old(NextSlot())) && stream != null && NextSlot() == Slot(slot.connection, slot.index + 1)
      ensures r.Err? ==> stream == null
    {
      hide DescribesFrom;
      slot, dropped := Slot(0, 0), [];
      var c := EnsureConnected(dial);
      if c.Err? {
        return Err(c.error), slot, dropped;
      }
      slot := NextSlot();
      r, dropped := DoGetSchema(w);
      if r.Err? {
        Discard();
      }
    }

    method DoGetSchema(w: Weather) returns (r: Result<Schema>, dropped: Bytes)
      requires Valid() && stream != null
      modifies stream
      ensures stream.conn.id == old(stream.conn.id)
      ensures DescribesFrom(Exchanges.RoundTrip(service, old(stream.conn), SCHEMA_FRAME, w).result, r)
      ensures r.Ok? ==>
                && dropped == [] && Quiet(stream.conn)
                && |stream.conn.served| == |old(stream.conn.served)| + 1
                && Described(service, r.value)
    {
      ghost var slot, before := NextSlot(), stream.conn;
      SchemaGetsOneReply(service, slot, SCHEMA_FRAME);
      var reply;
      reply, dropped := stream.RoundTrip(service, SCHEMA_FRAME, w);
      RoundTripUnderway(service, before, SCHEMA_FRAME, w);
      if reply.Err? {
        return Err(reply.error), dropped;
      }
      if reply.value.kind != MSG_SCHEMA_RESPONSE {
        return Err(Protocol), dropped;
      }
      AllRead(service, stream.conn, before.served, SCHEMA_FRAME, 1, dropped);
      var schema := service.codec.decodeSchema(reply.value.payload);
      if schema.None? {
        return Err(Encoding), dropped;
      }
      r := Ok(schema.value);
    }

    method Close()
      requires Valid()
      modifies this
      ensures Valid() && stream == null && sessionId == None && dialled == old(dialled)
      ensures !Before(NextSlot(), old(NextSlot()))
    {
      connected := false;
      sessionId := None;
      stream := null;
    }

    /** Any run of operations, each under its own conditions and with the server active in between. The
        `i`-th reply is the right one to the `i`-th operation, given in an exchange of its own that answers
        no other operation; and an operation replies nothing only when it cannot do better from where it
        starts. */
    method Run(ops: seq<Op>, conditions: nat -> Conditions) returns (replies: seq<Reply>, ghost slots: seq<Slot>, ghost starts: seq<Start>)
      requires Valid()
      modifies Repr()
      ensures Valid() && |replies| == |slots| == |starts| == |ops|
      ensures forall i :: 0 <= i < |ops| ==> IsReplyTo(service, ops[i], slots[i], replies[i])
      ensures forall i :: 0 <= i < |ops| ==> (replies[i].Nothing? <==> !Succeeds(service, starts[i], ops[i], conditions(i)))
      ensures forall i, j :: 0 <= i < j < |ops| && !replies[i].Nothing? && !replies[j].Nothing? ==> Before(slots[i], slots[j])
    {
      hide IsReplyTo, Succeeds;
      replies, slots, starts := [], [], [];
      for i := 0 to |ops|
        invariant Valid() && fresh(Repr() - old(Repr()))
        invariant |replies| == |slots| == |starts| == i
        invariant forall k :: 0 <= k < i ==> IsReplyTo(service, ops[k], slots[k], replies[k])
        invariant forall k :: 0 <= k < i ==> (replies[k].Nothing? <==> !Succeeds(service, starts[k], ops[k], conditions(k)))
        invariant forall k :: 0 <= k < i && !replies[k].Nothing? ==> Before(slots[k], NextSlot())
        invariant forall k, l :: 0 <= k < l < i && !replies[k].Nothing? && !replies[l].Nothing? ==> Before(slots[k], slots[l])
      {
        var c := conditions(i);
        Idle(c.idle);
        ghost var start := Starting();
        var reply: Reply;
        ghost var slot: Slot;
        reply, slot := Perform(ops[i], c);
        replies, slots, starts := replies + [reply], slots + [slot], starts + [start];
      }
    }

    method Perform(op: Op, c: Conditions) returns (reply: Reply, ghost slot: Slot)
      requires Valid()
      modifies Repr()
      ensures Valid() && fresh(Repr() - old(Repr()))
      ensures !Before(NextSlot(), old(NextSlot()))
      ensures IsReplyTo(service, op, slot, reply)
      ensures reply.Nothing? <==> !Succeeds(service, old(Starting()), op, c)
      ensures !reply.Nothing? ==> !Before(slot, old(NextSlot())) && Before(slot, NextSlot())
    {
      hide Streamed, Described, ModedResult, WorksOn, Connected, Handshake;
      reply, slot := Nothing, Slot(0, 0);
      ghost var dropped: Bytes;
      match op
      case Dial =>
        var r, lost := Connect(c.dial);
      case Ask(q) =>
        var r: Result<Response>;
        r, slot, dropped := Call(q, c.dial, c.weather);
        if r.Ok? {
          reply := Answered(r.value);
        }
      case AskStream(q, mode) =>
        var r: Result<seq<StreamMessage>>;
        r, slot, dropped := CallStreaming(q, mode, c.dial, c.weather);
        if r.Ok? {
          reply := StreamReply(r.value);
        }
      case AskSchema =>
        var r: Result<Schema>;
        r, slot, dropped := GetSchema(c.dial, c.weather);
        if r.Ok? {
          reply := Description(r.value);
        }
      case Hang => Close();
    }
  }

  datatype Op = Dial | Ask(request: Request) | AskStream(request: Request, mode: StreamMode) | AskSchema | Hang

  /** What the server does before an operation, and how the operation fares. */
  datatype Conditions = Conditions(idle: seq<Move>, dial: Dial, weather: Weather)

  /** What an operation returned, if it succeeded with anything. */
  datatype Reply = Nothing | Answered(response: Response) | StreamReply(messages: seq<StreamMessage>) | Description(schema: Schema)

  predicate IsReplyTo(service: Service, op: Op, slot: Slot, reply: Reply) {
    match reply
    case Nothing => true
    case Answered(response) =>
      op.Ask? && ValidRequest(op.request) && response == service.handler.handle(slot, op.request)
    case StreamReply(messages) => op.AskStream? && Streamed(service, slot, op.request, op.mode, messages)
    case Description(schema) => op.AskSchema? && Described(service, schema)
  }

  /** The operation has something to return. */
  predicate Succeeds(service: Service, start: Start, op: Op, c: Conditions) {
    var on := WorksOn(service, start, c.dial);
    && on.Some?
    && match op
       case Ask(q) =>
         var got := Exchanges.RoundTrip(service, on.value, RequestFrame(service, q), c.weather).result;
         got.Ok? && got.value.kind == MSG_RESPONSE
       case AskSchema =>
         var got := Exchanges.RoundTrip(service, on.value, SCHEMA_FRAME, c.weather).result;
         got.Ok? && got.value.kind == MSG_SCHEMA_RESPONSE
       case AskStream(q, mode) => ModedResult(service, on.value, q, mode, c.weather).Ok?
       case _ => false
  }
}
